/**
 What several components share: optional values, the sizes of the deployment and facts on
 finite sets and sequences.
 */
module Common {

  datatype Option<T> = None | Some(value: T)

  const ITEMS_BULK_MAX: nat := 64
  const ITEMS_POOL_MAX: nat := 16
  const INDEX_BULK_MAX: nat := 4
  const INDEX_POOL_MAX: nat := ITEMS_POOL_MAX / INDEX_BULK_MAX
  const START_STEEM_BLOCK_ID: nat := 62396745

  lemma SizeOfSubset<T>(a: set<T>, b: set<T>)
    requires a <= b
    ensures |a| <= |b|
  {
    assert b == a + (b - a);
  }

  lemma SubsetBySize<T>(a: set<T>, b: set<T>)
    requires a <= b && |a| >= |b|
    ensures a == b
  {
    assert b == a + (b - a);
  }

  lemma Regroup<T>(a: seq<T>, b: seq<T>, c: seq<T>)
    ensures a + (b + c) == (a + b) + c
  {
  }
}
