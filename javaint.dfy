/** Java's 32-bit `int` arithmetic, on unbounded integers. */
module JavaInts {
  const INT_MIN: int := -0x8000_0000
  const INT_MAX: int := 0x7FFF_FFFF

  /** The `int` a Java expression yields: x wrapped into the two's complement range. */
  function Int32(x: int): (r: int)
    ensures INT_MIN <= r <= INT_MAX
  {
    (x + 0x8000_0000) % 0x1_0000_0000 - 0x8000_0000
  }

  /** The wrapped value differs from x by a multiple of 2^32. */
  lemma Int32Wraps(x: int)
    ensures (x - Int32(x)) % 0x1_0000_0000 == 0
  {
  }

  /** A value already in range does not wrap. */
  lemma Int32InRange(x: int)
    requires INT_MIN <= x <= INT_MAX
    ensures Int32(x) == x
  {
  }
}

/** `MoveScore`: a move with its evaluation. */
module MoveScores {
  import opened JavaInts

  /** A move's square and its evaluation in centi-discs, from the mover's side. */
  datatype MoveScore = MoveScore(sq: int, score: int)

  /** What `equals` can be handed: `null`, an object of another class, or a MoveScore. */
  datatype Object = Null | OtherClass | Ref(m: MoveScore)

  /**
   * `equals(o)`; identical says `this == o`, the same reference, which
   * can only hold of a MoveScore argument with the same fields.
   */
  function Equals(self: MoveScore, o: Object, identical: bool): bool
    requires identical ==> o == Ref(self)
  {
    if identical then true
    else if o.Null? || o.OtherClass? then false
    else self.score == o.m.score && self.sq == o.m.sq
  }

  /** `equals` is value equality: true exactly for a MoveScore with the same square and score. */
  lemma EqualsIsValueEquality(self: MoveScore, o: Object, identical: bool)
    requires identical ==> o == Ref(self)
    ensures Equals(self, o, identical) <==> o.Ref? && o.m == self
  {
  }

  /** `equals` is reflexive, whether or not the argument is the same reference. */
  lemma EqualsReflexive(self: MoveScore, identical: bool)
    ensures Equals(self, Ref(self), identical)
  {
  }

  /** `equals` is symmetric between MoveScores. */
  lemma EqualsSymmetric(a: MoveScore, b: MoveScore)
    ensures Equals(a, Ref(b), false) == Equals(b, Ref(a), false)
  {
  }

  /** `equals(null)` and an object of another class are false. */
  lemma EqualsNotOther(self: MoveScore)
    ensures !Equals(self, Null, false) && !Equals(self, OtherClass, false)
  {
  }

  /** `hashCode()`: `31 * sq + score` in Java ints. */
  function HashCode(m: MoveScore): (h: int)
    ensures INT_MIN <= h <= INT_MAX
  {
    Int32(31 * Int32(m.sq) + m.score)
  }

  /** Objects that `equals` calls equal have the same hash code. */
  lemma EqualsHashCode(self: MoveScore, o: Object, identical: bool)
    requires identical ==> o == Ref(self)
    requires Equals(self, o, identical)
    ensures HashCode(self) == HashCode(o.m)
  {
  }

  /** For a board square and a score that cannot overflow, the hash is `31 * sq + score` itself. */
  lemma HashCodeNoWrap(m: MoveScore)
    requires 0 <= m.sq < 64 && INT_MIN <= m.score <= INT_MAX - 31 * 63
    ensures HashCode(m) == 31 * m.sq + m.score
  {
    Int32InRange(m.sq);
    Int32InRange(31 * m.sq + m.score);
  }
}
