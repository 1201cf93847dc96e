/** What several models use. */
module Common {

  datatype Option<T> = None | Some(value: T)

  /** The channel numbers of section 11 of RFC 5766. */
  predicate ValidChannel(n: nat) { 0x4000 <= n <= 0x7FFF }

  lemma SubsetSize<T>(a: set<T>, b: set<T>)
    requires a <= b
    ensures |a| <= |b|
  {
    assert b == a + (b - a);
  }

  lemma SubsetSame<T>(a: set<T>, b: set<T>)
    requires a <= b && |a| == |b|
    ensures a == b
  {
    assert b == a + (b - a);
  }
}
