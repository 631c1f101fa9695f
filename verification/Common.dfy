/** What several parts of the model share. */
module Common {
  /** The number of hash slots of a cluster. */
  const SLOTS := 16384

  /** A cluster node. */
  type Id = nat

  /** A pointer that may be null. */
  datatype Option<T> = None | Some(value: T)

  lemma SubsetSize<T>(a: set<T>, b: set<T>)
    requires a <= b
    ensures |a| <= |b|
    ensures a != b ==> |a| < |b|
  {
    assert b == a + (b - a);
    if a != b { assert b - a != {}; }
  }
}
