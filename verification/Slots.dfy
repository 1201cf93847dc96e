/** Tables made of buckets of slots. A bucket starts with its built-in slots and grows by one
    slot at a time when all are taken; a slot never moves, so a bucket number and an index
    name it for good. */
module Slots {

  datatype Ref = Ref(bucket: nat, idx: nat)

  type Table<T> = seq<seq<T>>

  predicate Inside<T>(t: Table<T>, r: Ref)
  {
    r.bucket < |t| && r.idx < |t[r.bucket]|
  }

  function At<T>(t: Table<T>, r: Ref): T
    requires Inside(t, r)
  {
    t[r.bucket][r.idx]
  }

  /** The table with x at r, where r is a slot or the next slot of its bucket. */
  function Store<T>(t: Table<T>, r: Ref, x: T): (u: Table<T>)
    requires r.bucket < |t| && r.idx <= |t[r.bucket]|
    ensures |u| == |t|
    ensures Inside(u, r) && At(u, r) == x
    ensures forall q :: Inside(u, q) <==> Inside(t, q) || q == r
    ensures forall q :: Inside(t, q) && q != r ==> At(u, q) == At(t, q)
  {
    var b := t[r.bucket];
    t[r.bucket := if r.idx < |b| then b[r.idx := x] else b + [x]]
  }

  /** The first slot of a bucket that is not taken, or the next one after its end. */
  method FirstFree<T>(b: seq<T>, taken: T -> bool) returns (i: nat)
    ensures i <= |b|
    ensures i < |b| ==> !taken(b[i])
    ensures forall j :: 0 <= j < i ==> taken(b[j])
  {
    i := 0;
    while i < |b| && taken(b[i])
      invariant i <= |b|
      invariant forall j :: 0 <= j < i ==> taken(b[j])
    {
      i := i + 1;
    }
  }

  /** The first slot of a bucket with the wanted property. */
  method FirstMatch<T>(b: seq<T>, p: T -> bool) returns (found: bool, i: nat)
    ensures found ==> i < |b| && p(b[i])
    ensures found ==> forall j :: 0 <= j < i ==> !p(b[j])
    ensures !found ==> forall j :: 0 <= j < |b| ==> !p(b[j])
  {
    found, i := false, 0;
    while i < |b| && !found
      invariant i <= |b|
      invariant forall j :: 0 <= j < i ==> !p(b[j])
      invariant found ==> i < |b| && p(b[i])
      decreases |b| - i, !found
    {
      if p(b[i]) { found := true; } else { i := i + 1; }
    }
  }
}
