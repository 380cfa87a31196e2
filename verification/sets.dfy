/** Facts about finite sets of session ids used by more than one module. */
module Sets {
  /** A subset is no larger than the set that holds it. */
  lemma SubsetCard(a: set<string>, b: set<string>)
    requires a <= b
    ensures |a| <= |b|
  {
    assert b == a + (b - a);
  }
}
