/** What several modules need. */
module Common {

  datatype Option<+T> = None | Some(value: T)

  /** Large invariants and nonlinear facts are sometimes guarded by this predicate, which always
      holds: they enter a proof only where it is mentioned. */
  ghost predicate Open(open: bool) { true }

  lemma {:induction false} MulBound(d: int, f: int)
    requires f >= 1
    ensures d >= 1 ==> d * f >= f
    ensures d <= -1 ==> d * f <= -f
  {
  }

  lemma {:induction false} DivBounds(x: int, f: int)
    requires f >= 1
    ensures 0 <= x % f < f && x == (x / f) * f + x % f
  {
  }

  /** There is only one way to divide with a remainder. */
  lemma {:induction false} DivModUnique(x: int, q: int, r: int, f: int)
    requires f >= 1 && 0 <= r < f && x == q * f + r
    ensures x / f == q && x % f == r
  {
    DivBounds(x, f);
    MulBound(x / f - q, f);
    assert (x / f - q) * f == (x / f) * f - q * f;
  }
}
