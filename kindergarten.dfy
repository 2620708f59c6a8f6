/**
 * Flips along a row by table lookup (`KindergartenEastWest`). The static
 * initializer fills a table indexed by (column, mover's row byte, enemy's
 * row byte) with the row's flips; `flips` cuts the two row bytes of the
 * move's row out of the bitboards, looks up the entry and moves it back to
 * that row. A row byte is an `int` in 0..255 whose bit c stands for
 * column c of the row.
 */
module KindergartenEastWest {
  import opened Bitboards
  import opened Optional
  import opened Rays
  import opened Bits

  // ---------------------------------------------------------------------
  // Row bytes.

  /** The byte built from the columns c0, c0+1, ..., 7 of cs, column c0 in bit 0. */
  function ValueFrom(cs: set<int>, c0: nat): nat
    decreases 8 - c0
  {
    if c0 >= 8 then 0 else (if c0 in cs then 1 else 0) + 2 * ValueFrom(cs, c0 + 1)
  }

  /** The row byte whose set bits are the columns in cs. */
  function ColumnsValue(cs: set<int>): nat
  {
    ValueFrom(cs, 0)
  }

  lemma {:induction false} ValueFromBit(cs: set<int>, c0: nat, k: nat)
    ensures Bit(ValueFrom(cs, c0), k) <==> c0 + k < 8 && c0 + k in cs
    decreases k
  {
    if c0 >= 8 {
      BitOfZero(k);
    } else if k > 0 {
      ValueFromBit(cs, c0 + 1, k - 1);
    }
  }

  lemma {:induction false} ValueFromBound(cs: set<int>, c0: nat)
    requires c0 <= 8
    ensures ValueFrom(cs, c0) < Pow2(8 - c0)
    decreases 8 - c0
  {
    if c0 < 8 {
      ValueFromBound(cs, c0 + 1);
    }
  }

  /** Bit c of ColumnsValue(cs) is set exactly when c < 8 is in cs, and the value is a byte. */
  lemma ColumnsValueBit(cs: set<int>, c: nat)
    ensures Bit(ColumnsValue(cs), c) <==> c < 8 && c in cs
    ensures ColumnsValue(cs) < 256
  {
    ValueFromBit(cs, 0, c);
    ValueFromBound(cs, 0);
  }

  /** The columns of row `row` that b holds. */
  function RowColumns(b: Bitboard, row: int): set<int>
    requires 0 <= row < 8
  {
    set c | 0 <= c < 8 && At(row, c) in b
  }

  /** `0xFF & (int) (b >>> 8 * row)`: the byte of row `row`. */
  function RowByte(b: Bitboard, row: int): (x: nat)
    requires 0 <= row < 8
    ensures x < 256
    ensures forall c: nat :: Bit(x, c) <==> c < 8 && At(row, c) in b
  {
    var x := ColumnsValue(RowColumns(b, row));
    assert forall c: nat :: Bit(x, c) <==> c < 8 && At(row, c) in b by {
      forall c: nat
        ensures Bit(x, c) <==> c < 8 && At(row, c) in b
      {
        ColumnsValueBit(RowColumns(b, row), c);
      }
    }
    ColumnsValueBit(RowColumns(b, row), 0);
    x
  }

  /** `(long) x << 8 * row`: the columns set in a row byte, placed on row `row`. */
  function RowSquares(x: int, row: int): (r: Bitboard)
    requires 0 <= row < 8
    ensures forall sq :: sq in r <==> sq in ALL && Row(sq) == row && Bit(x, Col(sq))
  {
    var r := set c | 0 <= c < 8 && Bit(x, c) :: At(row, c);
    assert forall sq :: sq in r <==> sq in ALL && Row(sq) == row && Bit(x, Col(sq)) by {
      forall sq | sq in ALL && Row(sq) == row && Bit(x, Col(sq))
        ensures sq in r
      {
        assert At(row, Col(sq)) == sq;
      }
    }
    r
  }

  // ---------------------------------------------------------------------
  // The flips within one row, as a reference for `BitBoardUtils.fillLR`.

  /**
   * The run of enemy columns next to column col in step dc (+1 or -1):
   * Some(run) when it ends on a mover column, None at an empty column or
   * the end of the row.
   */
  function RowRun(mover: int, enemy: int, col: int, dc: int): (r: Option<set<int>>)
    requires 0 <= col < 8 && (dc == 1 || dc == -1)
    ensures r.Some? ==> forall c :: c in r.value ==> 0 <= c < 8
    decreases if dc == 1 then 7 - col else col
  {
    var col' := col + dc;
    if !(0 <= col' < 8) then None
    else if Bit(mover, col') then Some({})
    else if Bit(enemy, col') then
      match RowRun(mover, enemy, col', dc)
      case Some(run) => Some(run + {col'})
      case None => None
    else None
  }

  function RowRunFlips(mover: int, enemy: int, col: int, dc: int): (r: set<int>)
    requires 0 <= col < 8 && (dc == 1 || dc == -1)
    ensures forall c :: c in r ==> 0 <= c < 8
  {
    match RowRun(mover, enemy, col, dc)
    case Some(run) => run
    case None => {}
  }

  /**
   * `fillLR(moverRow, enemyRow, placement)` with `placement == 1L << col`:
   * the columns a move at col flips in its row.
   */
  function FillLR(moverRow: int, enemyRow: int, col: int): int
    requires 0 <= col < 8
  {
    ColumnsValue(RowRunFlips(moverRow, enemyRow, col, 1) + RowRunFlips(moverRow, enemyRow, col, -1))
  }

  // ---------------------------------------------------------------------
  // The table.

  const TABLE_SIZE: int := 8 * 256 * 256

  /** `index(col, moverRow, enemyRow)`. */
  function Index(col: int, moverRow: int, enemyRow: int): (i: int)
    requires 0 <= col < 8 && 0 <= moverRow < 256 && 0 <= enemyRow < 256
    ensures 0 <= i < TABLE_SIZE
  {
    col * 65536 + moverRow * 256 + enemyRow
  }

  /** Index is one-to-one: each (column, row byte, row byte) has its own slot. */
  lemma IndexDecode(col: int, moverRow: int, enemyRow: int)
    requires 0 <= col < 8 && 0 <= moverRow < 256 && 0 <= enemyRow < 256
    ensures Index(col, moverRow, enemyRow) / 65536 == col
    ensures Index(col, moverRow, enemyRow) / 256 % 256 == moverRow
    ensures Index(col, moverRow, enemyRow) % 256 == enemyRow
  {
    var i := Index(col, moverRow, enemyRow);
    assert i == (col * 256 + moverRow) * 256 + enemyRow;
    assert i / 256 == col * 256 + moverRow;
  }

  /** Every slot of the table is the index of some (column, row byte, row byte). */
  lemma IndexEncode(i: int)
    requires 0 <= i < TABLE_SIZE
    ensures 0 <= i / 65536 < 8 && 0 <= i / 256 % 256 < 256 && 0 <= i % 256 < 256
    ensures Index(i / 65536, i / 256 % 256, i % 256) == i
  {
    assert i / 65536 == i / 256 / 256;
  }

  /** The static initializer's test: the row bytes are disjoint and column col is empty. */
  predicate Writes(col: int, moverRow: int, enemyRow: int)
    requires 0 <= col < 8 && 0 <= moverRow < 256 && 0 <= enemyRow < 256
  {
    And(moverRow, enemyRow) == 0 && Bit(Complement(Or(moverRow, enemyRow)), col)
  }

  /**
   * What the static initializer leaves at Index(col, moverRow, enemyRow):
   * the row's flips where it writes, and the array's initial 0 elsewhere.
   */
  function TableEntry(col: int, moverRow: int, enemyRow: int): int
    requires 0 <= col < 8 && 0 <= moverRow < 256 && 0 <= enemyRow < 256
  {
    if Writes(col, moverRow, enemyRow) then FillLR(moverRow, enemyRow, col) else 0
  }

  /** The entry at slot i of the initialized table. */
  function EntryAt(i: int): int
    requires 0 <= i < TABLE_SIZE
  {
    IndexEncode(i);
    TableEntry(i / 65536, i / 256 % 256, i % 256)
  }

  /** `flipTable` once the class is initialized. */
  function FlipTable(): (t: seq<int>)
    ensures |t| == TABLE_SIZE
    ensures forall i :: 0 <= i < TABLE_SIZE ==> t[i] == EntryAt(i)
  {
    seq(TABLE_SIZE, EntryAt)
  }

  /**
   * The initialized table holds the row's flips where the row bytes are
   * disjoint and column col is empty, and 0 where they overlap or col is
   * occupied.
   */
  lemma TableEntries(col: int, moverRow: int, enemyRow: int)
    requires 0 <= col < 8 && 0 <= moverRow < 256 && 0 <= enemyRow < 256
    ensures And(moverRow, enemyRow) != 0 || Bit(Or(moverRow, enemyRow), col) ==>
      FlipTable()[Index(col, moverRow, enemyRow)] == 0
    ensures And(moverRow, enemyRow) == 0 && !Bit(Or(moverRow, enemyRow), col) ==>
      FlipTable()[Index(col, moverRow, enemyRow)] == FillLR(moverRow, enemyRow, col)
  {
    IndexDecode(col, moverRow, enemyRow);
    ComplementBit(Or(moverRow, enemyRow), col);
  }

  /**
   * `createFlipTable`: the triple loop over column, mover row and enemy
   * row leaves exactly FlipTable().
   */
  method CreateFlipTable() returns (table: array<int>)
    ensures fresh(table)
    ensures table[..] == FlipTable()
  {
    table := new int[TABLE_SIZE](_ => 0);
    for col := 0 to 8
      invariant forall i :: col * 65536 <= i < TABLE_SIZE ==> table[i] == 0
      invariant forall c, m, e :: 0 <= c < col && 0 <= m < 256 && 0 <= e < 256 ==>
        table[Index(c, m, e)] == TableEntry(c, m, e)
    {
      for moverRow := 0 to 256
        invariant forall i :: col * 65536 + moverRow * 256 <= i < TABLE_SIZE ==> table[i] == 0
        invariant forall c, m, e :: 0 <= c < col && 0 <= m < 256 && 0 <= e < 256 ==>
          table[Index(c, m, e)] == TableEntry(c, m, e)
        invariant forall m, e :: 0 <= m < moverRow && 0 <= e < 256 ==>
          table[Index(col, m, e)] == TableEntry(col, m, e)
      {
        FillEnemyRows(table, col, moverRow);
      }
    }
    forall i | 0 <= i < TABLE_SIZE
      ensures table[i] == FlipTable()[i]
    {
      IndexEncode(i);
    }
  }

  /** The innermost loop of `createFlipTable`, over the enemy row byte. */
  method FillEnemyRows(table: array<int>, col: int, moverRow: int)
    requires table.Length == TABLE_SIZE && 0 <= col < 8 && 0 <= moverRow < 256
    requires forall i :: Index(col, moverRow, 0) <= i < TABLE_SIZE ==> table[i] == 0
    modifies table
    ensures forall i :: 0 <= i < Index(col, moverRow, 0) ==> table[i] == old(table[i])
    ensures forall e :: 0 <= e < 256 ==> table[Index(col, moverRow, e)] == TableEntry(col, moverRow, e)
    ensures forall i :: Index(col, moverRow, 0) + 256 <= i < TABLE_SIZE ==> table[i] == 0
  {
    for enemyRow := 0 to 256
      invariant forall i :: 0 <= i < Index(col, moverRow, 0) ==> table[i] == old(table[i])
      invariant forall e :: 0 <= e < enemyRow ==> table[Index(col, moverRow, e)] == TableEntry(col, moverRow, e)
      invariant forall i :: Index(col, moverRow, 0) + enemyRow <= i < TABLE_SIZE ==> table[i] == 0
    {
      FillEntry(table, col, moverRow, enemyRow);
    }
  }

  /** The body of the innermost loop: write one entry when the row bytes allow the move. */
  method FillEntry(table: array<int>, col: int, moverRow: int, enemyRow: int)
    requires table.Length == TABLE_SIZE && 0 <= col < 8 && 0 <= moverRow < 256 && 0 <= enemyRow < 256
    requires table[Index(col, moverRow, enemyRow)] == 0
    modifies table
    ensures forall i :: 0 <= i < TABLE_SIZE && i != Index(col, moverRow, enemyRow) ==> table[i] == old(table[i])
    ensures table[Index(col, moverRow, enemyRow)] == TableEntry(col, moverRow, enemyRow)
  {
    if And(moverRow, enemyRow) == 0 {
      var empty := Complement(Or(moverRow, enemyRow));
      if Bit(empty, col) {
        table[Index(col, moverRow, enemyRow)] := FillLR(moverRow, enemyRow, col);
      }
    }
  }

  /**
   * `flips(sq, mover, enemy)`: the discs flipped along the row of sq. The
   * column is `sq & 7` and `sq & 070` is eight times the row.
   */
  function Flips(sq: int, mover: Bitboard, enemy: Bitboard): Bitboard
    requires sq in ALL
  {
    var col := Col(sq);
    var row := Row(sq);
    var moverRow := RowByte(mover, row);
    var enemyRow := RowByte(enemy, row);
    RowSquares(FlipTable()[Index(col, moverRow, enemyRow)], row)
  }

  // ---------------------------------------------------------------------
  // Agreement with the rules.

  /** The squares of row `row` at the columns in cs. */
  function OnRow(cs: set<int>, row: int): (r: Bitboard)
    requires 0 <= row < 8
    ensures forall sq :: sq in r <==> sq in ALL && Row(sq) == row && Col(sq) in cs
  {
    var r := set c | 0 <= c < 8 && c in cs :: At(row, c);
    assert forall sq :: sq in r <==> sq in ALL && Row(sq) == row && Col(sq) in cs by {
      forall sq | sq in ALL && Row(sq) == row && Col(sq) in cs
        ensures sq in r
      {
        assert At(row, Col(sq)) == sq;
      }
    }
    r
  }

  lemma OnRowUnion(a: set<int>, b: set<int>, row: int)
    requires 0 <= row < 8
    ensures OnRow(a + b, row) == OnRow(a, row) + OnRow(b, row)
  { }

  lemma OnRowAdd(cs: set<int>, c: int, row: int)
    requires 0 <= row < 8 && 0 <= c < 8
    ensures OnRow(cs + {c}, row) == OnRow(cs, row) + {At(row, c)}
  {
    assert forall sq :: sq in OnRow(cs + {c}, row) <==> sq in OnRow(cs, row) + {At(row, c)};
  }

  lemma OnRowEmpty(row: int)
    requires 0 <= row < 8
    ensures OnRow({}, row) == {}
  {
    assert forall sq :: sq !in OnRow({}, row);
  }

  /** Placing a row byte back on its row gives the squares of its columns. */
  lemma RowSquaresOfColumns(cs: set<int>, row: int)
    requires 0 <= row < 8
    ensures RowSquares(ColumnsValue(cs), row) == OnRow(cs, row)
  {
    forall sq | sq in ALL && Row(sq) == row
      ensures Bit(ColumnsValue(cs), Col(sq)) <==> Col(sq) in cs
    {
      ColumnsValueBit(cs, Col(sq));
    }
  }

  /** x is the row byte of b on row `row`. */
  predicate ByteOfRow(x: int, b: Bitboard, row: int)
    requires 0 <= row < 8
  {
    forall c: nat :: c < 8 ==> (Bit(x, c) <==> At(row, c) in b)
  }

  /**
   * The walk along the row bytes finds the same run as the walk along the
   * board, East for step +1 and West for step -1.
   */
  lemma {:induction false} RowRunAgrees(mover: Bitboard, enemy: Bitboard, m: int, e: int, row: int, col: int, d: Direction)
    requires OnBoard(row, col) && (d == East || d == West)
    requires ByteOfRow(m, mover, row) && ByteOfRow(e, enemy, row)
    ensures RowRun(m, e, col, DCol(d)).Some? <==> Run(mover, enemy, row, col, d).Some?
    ensures RowRun(m, e, col, DCol(d)).Some? ==>
            Run(mover, enemy, row, col, d).value == OnRow(RowRun(m, e, col, DCol(d)).value, row)
    decreases Room(row, col, d)
  {
    var col' := col + DCol(d);
    if 0 <= col' < 8 {
      var s := At(row, col');
      assert Bit(m, col') <==> s in mover;
      assert Bit(e, col') <==> s in enemy;
      if s !in mover && s in enemy {
        RowRunAgrees(mover, enemy, m, e, row, col', d);
        var rest := RowRun(m, e, col', DCol(d));
        if rest.Some? {
          OnRowAdd(rest.value, col', row);
        }
      } else if s in mover {
        OnRowEmpty(row);
      }
    }
  }

  /** The discs a move flips East or West, read off the row bytes. */
  lemma RayFlipsOnRow(mover: Bitboard, enemy: Bitboard, m: int, e: int, sq: int, d: Direction)
    requires sq in ALL && (d == East || d == West)
    requires ByteOfRow(m, mover, Row(sq)) && ByteOfRow(e, enemy, Row(sq))
    ensures RayFlips(mover, enemy, sq, d) == OnRow(RowRunFlips(m, e, Col(sq), DCol(d)), Row(sq))
  {
    RowRunAgrees(mover, enemy, m, e, Row(sq), Col(sq), d);
    assert OnRow({}, Row(sq)) == {};
  }

  /** FillLR puts on the row what a move flips East and West. */
  lemma FillLRAgrees(mover: Bitboard, enemy: Bitboard, sq: int)
    requires sq in ALL
    ensures RowSquares(FillLR(RowByte(mover, Row(sq)), RowByte(enemy, Row(sq)), Col(sq)), Row(sq)) ==
            RayFlips(mover, enemy, sq, East) + RayFlips(mover, enemy, sq, West)
  {
    var row, col := Row(sq), Col(sq);
    var m, e := RowByte(mover, row), RowByte(enemy, row);
    var east, west := RowRunFlips(m, e, col, 1), RowRunFlips(m, e, col, -1);
    RayFlipsOnRow(mover, enemy, m, e, sq, East);
    RayFlipsOnRow(mover, enemy, m, e, sq, West);
    RowSquaresOfColumns(east + west, row);
    OnRowUnion(east, west, row);
  }

  /**
   * For disjoint mover and enemy discs, `flips(sq, mover, enemy)` is what a
   * move on the empty square sq flips East and West, and nothing when sq
   * is occupied.
   */
  lemma FlipsSpec(sq: int, mover: Bitboard, enemy: Bitboard)
    requires sq in ALL && mover * enemy == {}
    ensures sq !in mover && sq !in enemy ==>
      Flips(sq, mover, enemy) == RayFlips(mover, enemy, sq, East) + RayFlips(mover, enemy, sq, West)
    ensures sq in mover || sq in enemy ==> Flips(sq, mover, enemy) == {}
  {
    var row, col := Row(sq), Col(sq);
    var m, e := RowByte(mover, row), RowByte(enemy, row);
    IndexDecode(col, m, e);
    assert FlipTable()[Index(col, m, e)] == TableEntry(col, m, e);
    assert At(row, col) == sq;
    OrBit(m, e, col);
    ComplementBit(Or(m, e), col);
    if sq !in mover && sq !in enemy {
      forall c: nat | c < 8
        ensures !Bit(And(m, e), c)
      {
        AndBit(m, e, c);
        assert At(row, c) !in mover * enemy;
      }
      AndBound(m, e);
      assert Pow2(8) == 256;
      NoBits(And(m, e), 8);
      FillLRAgrees(mover, enemy, sq);
    } else {
      forall sq' | sq' in ALL
        ensures !Bit(0, Col(sq'))
      {
        BitOfZero(Col(sq'));
      }
    }
  }
}
