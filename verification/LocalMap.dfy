/** The small local map from non-zero keys to values: eight buckets, each with three built-in
    slots and any number of extra ones. */
module LocalMap {
  import opened Common

  datatype Slot<V> = Slot(key: nat, value: Option<V>)

  type Bucket<V> = seq<Slot<V>>
  type LmMap<V> = seq<Bucket<V>>

  const SIZE: nat := 8
  const BUILT_IN: nat := 3

  function Free<V>(): Slot<V> { Slot(0, None) }

  function Empty<V>(): LmMap<V>
  {
    seq(SIZE, _ => [Free(), Free(), Free()])
  }

  /** A slot is free or holds a non-zero key of its bucket, and no key is held twice. */
  ghost predicate BucketOk<V>(b: Bucket<V>, n: nat)
  {
    && BUILT_IN <= |b|
    && (forall i :: 0 <= i < |b| ==>
          b[i] == Free() || (b[i].key != 0 && b[i].value.Some? && b[i].key % SIZE == n))
    && (forall i, j :: 0 <= i < j < |b| && b[i].key == b[j].key ==> b[i].key == 0)
  }

  ghost predicate Valid<V>(m: LmMap<V>)
  {
    |m| == SIZE && forall n :: 0 <= n < SIZE ==> BucketOk(m[n], n)
  }

  /** The value that the first slot with the key holds. */
  ghost function Find<V>(b: Bucket<V>, k: nat): Option<V>
  {
    if b == [] then None
    else if b[0].key == k && b[0].value.Some? then b[0].value
    else Find(b[1..], k)
  }

  ghost function Lookup<V>(m: LmMap<V>, k: nat): Option<V>
    requires |m| == SIZE
  {
    if k == 0 then None else Find(m[k % SIZE], k)
  }

  lemma {:induction false} FindNone<V>(b: Bucket<V>, k: nat)
    requires forall i :: 0 <= i < |b| ==> b[i].key != k || b[i].value.None?
    ensures Find(b, k) == None
    decreases |b|
  {
    if b != [] { FindNone(b[1..], k); }
  }

  lemma {:induction false} FindAt<V>(b: Bucket<V>, k: nat, i: nat)
    requires i < |b| && b[i].key == k && b[i].value.Some?
    requires forall j :: 0 <= j < i ==> b[j].key != k
    ensures Find(b, k) == b[i].value
    decreases |b|
  {
    if i > 0 { FindAt(b[1..], k, i - 1); }
  }

  /** A key that is found sits in some slot. */
  lemma {:induction false} FindSlot<V>(b: Bucket<V>, k: nat) returns (i: nat)
    requires Find(b, k).Some?
    ensures i < |b| && b[i].key == k && b[i].value == Find(b, k)
    decreases |b|
  {
    if b[0].key == k && b[0].value.Some? {
      i := 0;
    } else {
      i := FindSlot(b[1..], k);
      i := i + 1;
    }
  }

  /** The bucket with x written to slot i, or appended when i is the end. */
  function Write<V>(b: Bucket<V>, i: nat, x: Slot<V>): Bucket<V>
    requires i <= |b|
  {
    if i < |b| then b[i := x] else b + [x]
  }

  /** Writing one slot changes what is found for its old and its new key only. */
  lemma {:induction false} FindElsewhere<V>(b: Bucket<V>, i: nat, x: Slot<V>, k: nat)
    requires i <= |b| && x.key != k && (i < |b| ==> b[i].key != k)
    ensures Find(Write(b, i, x), k) == Find(b, k)
    decreases |b|
  {
    var c := Write(b, i, x);
    if i == 0 {
      assert c[1..] == if b == [] then [] else b[1..];
    } else {
      assert c[1..] == Write(b[1..], i - 1, x);
      FindElsewhere(b[1..], i - 1, x, k);
    }
  }

  /** Only the lookups of one bucket depend on that bucket. */
  lemma LookupWrite<V>(m: LmMap<V>, k: nat, i: nat, x: Slot<V>, q: nat)
    requires |m| == SIZE && k != 0 && i <= |m[k % SIZE]|
    requires q != k && x.key in {0, k} && (i < |m[k % SIZE]| ==> m[k % SIZE][i].key in {0, k})
    ensures Lookup(m[k % SIZE := Write(m[k % SIZE], i, x)], q) == Lookup(m, q)
  {
    if q != 0 && q % SIZE == k % SIZE {
      FindElsewhere(m[k % SIZE], i, x, q);
    }
  }

  ghost predicate SameExcept<V>(m: LmMap<V>, m': LmMap<V>, k: nat)
    requires |m| == |m'| == SIZE
  {
    forall q {:trigger Lookup(m', q)} :: q != k ==> Lookup(m', q) == Lookup(m, q)
  }

  // ---------------------------------------------------------------- operations

  /** One and the value when the key is held, zero otherwise. */
  method Get<V>(m: LmMap<V>, key: nat) returns (ret: int, value: Option<V>)
    requires Valid(m)
    ensures value == Lookup(m, key)
    ensures ret == if Lookup(m, key).Some? then 1 else 0
  {
    if key == 0 { return 0, None; }
    var b := m[key % SIZE];
    assert BucketOk(b, key % SIZE);
    for i := 0 to |b|
      invariant forall j :: 0 <= j < i ==> b[j].key != key
    {
      if b[i].key == key && b[i].value.Some? {
        FindAt(b, key, i);
        return 1, b[i].value;
      }
    }
    FindNone(b, key);
    return 0, None;
  }

  /** The key is held where an insertion does not look for it: in an extra slot, or behind a
      free built-in slot. Inserting it again would hold it twice. */
  ghost predicate Shadowed<V>(m: LmMap<V>, k: nat)
    requires |m| == SIZE
  {
    k != 0 && exists i :: 0 <= i < |m[k % SIZE]| && m[k % SIZE][i].key == k && Hidden(m[k % SIZE], i)
  }

  ghost predicate Hidden<V>(b: Bucket<V>, i: nat)
    requires i < |b|
  {
    i >= BUILT_IN || exists j :: 0 <= j < i && b[j].key == 0
  }

  lemma HeldTwice<V>(m: LmMap<V>, k: nat, i: nat, j: nat)
    requires |m| == SIZE && k != 0 && i < |m[k % SIZE]| && j < |m[k % SIZE]| && i != j
    requires m[k % SIZE][i].key == m[k % SIZE][j].key == k
    ensures !Valid(m)
  {
    assert !BucketOk(m[k % SIZE], k % SIZE);
  }

  /** Where an insertion stops: the built-in slots are searched for the key up to the first free one;
      the extra slots only for a free one. */
  function PutSlot<V>(b: Bucket<V>, key: nat, i: nat): (r: nat)
    requires i <= |b|
    ensures r <= |b|
    decreases |b| - i
  {
    if i == |b| || (i < BUILT_IN && b[i].key == key) || b[i].key == 0 || b[i].value.None? then i
    else PutSlot(b, key, i + 1)
  }

  function Inserted<V>(m: LmMap<V>, key: nat, value: Option<V>): LmMap<V>
    requires |m| == SIZE
  {
    var b := m[key % SIZE];
    var i := PutSlot(b, key, 0);
    if i < BUILT_IN && i < |b| && b[i].key == key then m else m[key % SIZE := Write(b, i, Slot(key, value))]
  }

  /** Store a value under a key that is not held. */
  method Put<V(==)>(m: LmMap<V>, key: nat, value: Option<V>) returns (ret: int, m': LmMap<V>)
    requires Valid(m)
    ensures key == 0 || value.None? ==> ret == -1 && m' == m
    ensures key != 0 && value.Some? ==> m' == Inserted(m, key, value)
    ensures key != 0 && value.Some? && Lookup(m, key).None? ==>
              ret == 0 && Valid(m') && Lookup(m', key) == value && SameExcept(m, m', key)
    ensures Lookup(m, key).Some? && !Shadowed(m, key) ==>
              m' == m && (value.Some? ==> ret == if Lookup(m, key) == value then 0 else -1)
    ensures Valid(m') <==> !(Shadowed(m, key) && value.Some?)
  {
    if key == 0 || value.None? { return -1, m; }
    var b := m[key % SIZE];
    assert BucketOk(b, key % SIZE);
    var i: nat := 0;
    while i < BUILT_IN
      invariant i <= BUILT_IN
      invariant forall j :: 0 <= j < i ==> b[j].key != key && b[j].key != 0
      invariant PutSlot(b, key, 0) == PutSlot(b, key, i)
    {
      if b[i].key == key {
        FindAt(b, key, i);
        assert !Hidden(b, i) && !Shadowed(m, key);
        return if b[i].value == value then 0 else -1, m;
      }
      if b[i].key == 0 || b[i].value.None? {
        m' := m[key % SIZE := b[i := Slot(key, value)]];
        Rewritten(m, key, value, i);
        return 0, m';
      }
      i := i + 1;
    }
    while i < |b| && !(b[i].key == 0 || b[i].value.None?)
      invariant BUILT_IN <= i <= |b|
      invariant PutSlot(b, key, 0) == PutSlot(b, key, i)
    {
      i := i + 1;
    }
    m' := m[key % SIZE := Write(b, i, Slot(key, value))];
    Rewritten(m, key, value, i);
    ret := 0;
  }

  lemma {:induction false} PutSlotIs<V>(b: Bucket<V>, key: nat, i: nat, at: nat)
    requires i <= at <= |b| && key != 0
    requires forall j :: i <= j < at ==> !(j < BUILT_IN && b[j].key == key) && b[j].key != 0 && b[j].value.Some?
    requires at == |b| || b[at].key == 0
    ensures PutSlot(b, key, i) == at
    decreases at - i
  {
    if i < at { PutSlotIs(b, key, i + 1, at); }
  }

  lemma InsertedIs<V>(m: LmMap<V>, key: nat, value: Option<V>, at: nat)
    requires |m| == SIZE && key != 0 && at <= |m[key % SIZE]|
    requires forall j :: 0 <= j < at ==> m[key % SIZE][j].key !in {0, key} && m[key % SIZE][j].value.Some?
    requires at == |m[key % SIZE]| || m[key % SIZE][at].key == 0
    ensures Inserted(m, key, value) == m[key % SIZE := Write(m[key % SIZE], at, Slot(key, value))]
  {
    PutSlotIs(m[key % SIZE], key, 0, at);
  }

  /** The four keys 1, 9, 17 and 25 fill bucket 1 and one extra slot. */
  lemma FourKeys<V>(v: V) returns (m: LmMap<V>)
    ensures m == Inserted(Inserted(Inserted(Inserted(Empty(), 1, Some(v)), 9, Some(v)), 17, Some(v)), 25, Some(v))
    ensures |m| == SIZE && m[1] == [Slot(1, Some(v)), Slot(9, Some(v)), Slot(17, Some(v)), Slot(25, Some(v))]
    ensures Valid(m)
  {
    m := Empty();
    InsertedIs(m, 1, Some(v), 0);
    m := Inserted(m, 1, Some(v));
    InsertedIs(m, 9, Some(v), 1);
    m := Inserted(m, 9, Some(v));
    InsertedIs(m, 17, Some(v), 2);
    m := Inserted(m, 17, Some(v));
    InsertedIs(m, 25, Some(v), 3);
    m := Inserted(m, 25, Some(v));
  }

  /** A map built from the empty one by four insertions of different keys, in which inserting the fourth
      key once more holds it twice: the value it had is still the one found. */
  lemma ExtraSlotShadows<V>(v: V, w: V)
    ensures var m := Inserted(Inserted(Inserted(Inserted(Empty(), 1, Some(v)), 9, Some(v)), 17, Some(v)), 25, Some(v));
            && Valid(m) && Shadowed(m, 25)
            && !Valid(Inserted(m, 25, Some(w)))
            && Lookup(Inserted(m, 25, Some(w)), 25) == Some(v)
  {
    var m := FourKeys(v);
    var b := m[1];
    assert Hidden(b, 3) && b[3].key == 25;
    PutSlotIs(b, 25, 0, 4);
    var m' := Inserted(m, 25, Some(w));
    assert m'[1] == b + [Slot(25, Some(w))];
    FindAt(m'[1], 25, 3);
    HeldTwice(m', 25, 3, 4);
  }

  /** What an insertion into a free or a new slot does to any key, held or not. */
  lemma Rewritten<V>(m: LmMap<V>, k: nat, v: Option<V>, i: nat)
    requires Valid(m) && k != 0 && v.Some?
    requires i <= |m[k % SIZE]| && (i < |m[k % SIZE]| ==> m[k % SIZE][i].key == 0)
    requires forall j :: 0 <= j < i && j < BUILT_IN ==> m[k % SIZE][j].key != k
    ensures var m' := m[k % SIZE := Write(m[k % SIZE], i, Slot(k, v))];
            if Lookup(m, k).None? then Valid(m') && Lookup(m', k) == v && SameExcept(m, m', k) && !Shadowed(m, k)
            else Shadowed(m, k) && !Valid(m')
  {
    var b := m[k % SIZE];
    assert BucketOk(b, k % SIZE);
    if Lookup(m, k).None? {
      Stored(m, k, v, i);
      forall j | 0 <= j < |b| ensures b[j].key != k { Absent(b, k % SIZE, k, j); }
    } else {
      var j := FindSlot(b, k);
      assert Hidden(b, j);
      HeldTwice(m[k % SIZE := Write(b, i, Slot(k, v))], k, i, j);
    }
  }

  lemma Absent<V>(b: Bucket<V>, n: nat, k: nat, i: nat)
    requires BucketOk(b, n) && k != 0 && Find(b, k).None? && i < |b|
    ensures b[i].key != k
  {
    if b[i].key == k { FindAt(b, k, i); }
  }

  /** Storing an absent key in a free or a new slot adds exactly that key. */
  lemma Stored<V>(m: LmMap<V>, k: nat, v: Option<V>, i: nat)
    requires Valid(m) && k != 0 && v.Some? && Lookup(m, k).None?
    requires i <= |m[k % SIZE]| && (i < |m[k % SIZE]| ==> m[k % SIZE][i].key == 0)
    ensures var m' := m[k % SIZE := Write(m[k % SIZE], i, Slot(k, v))];
            Valid(m') && Lookup(m', k) == v && SameExcept(m, m', k)
  {
    var n := k % SIZE;
    var b := m[n];
    assert BucketOk(b, n);
    forall j | 0 <= j < |b| ensures b[j].key != k { Absent(b, n, k, j); }
    var c := Write(b, i, Slot(k, v));
    assert BucketOk(c, n);
    FindAt(c, k, i);
    forall q | q != k ensures Lookup(m[n := c], q) == Lookup(m, q) { LookupWrite(m, k, i, Slot(k, v), q); }
  }

  /** Remove a key: one when it was held, zero otherwise. */
  method Del<V>(m: LmMap<V>, key: nat) returns (ret: int, m': LmMap<V>)
    requires Valid(m)
    ensures Valid(m') && Lookup(m', key).None? && SameExcept(m, m', key)
    ensures ret == if Lookup(m, key).Some? then 1 else 0
  {
    if key == 0 { return 0, m; }
    var b := m[key % SIZE];
    assert BucketOk(b, key % SIZE);
    for i := 0 to |b|
      invariant forall j :: 0 <= j < i ==> b[j].key != key
    {
      if b[i].key == key && b[i].value.Some? {
        FindAt(b, key, i);
        Removed(m, key, i);
        return 1, m[key % SIZE := b[i := Free()]];
      }
    }
    FindNone(b, key);
    return 0, m;
  }

  lemma Removed<V>(m: LmMap<V>, k: nat, i: nat)
    requires Valid(m) && k != 0 && i < |m[k % SIZE]| && m[k % SIZE][i].key == k
    ensures var m' := m[k % SIZE := m[k % SIZE][i := Free()]];
            Valid(m') && Lookup(m', k).None? && SameExcept(m, m', k)
  {
    var n := k % SIZE;
    var b := m[n];
    assert BucketOk(b, n);
    var c := b[i := Free()];
    assert BucketOk(c, n);
    FindNone(c, k);
    forall q | q != k ensures Lookup(m[n := c], q) == Lookup(m, q) { LookupWrite(m, k, i, Free(), q); }
  }

  /** The entries held, in slot order: what a traversal passes to its callback. */
  method Entries<V>(m: LmMap<V>) returns (es: seq<(nat, V)>)
    requires Valid(m)
    ensures forall k: nat, v :: (k, v) in es <==> Lookup(m, k) == Some(v)
    ensures forall i, j :: 0 <= i < j < |es| ==> es[i].0 != es[j].0
  {
    es := [];
    for n := 0 to SIZE
      invariant forall k: nat, v :: (k, v) in es <==> HeldBelow(m, k, v, n, 0)
      invariant forall i, j :: 0 <= i < j < |es| ==> es[i].0 != es[j].0
    {
      var b := m[n];
      for i := 0 to |b|
        invariant forall k: nat, v :: (k, v) in es <==> HeldBelow(m, k, v, n, i)
        invariant forall i, j :: 0 <= i < j < |es| ==> es[i].0 != es[j].0
      {
        ghost var fs := es;
        if b[i].key != 0 && b[i].value.Some? {
          forall j | 0 <= j < |es| ensures es[j].0 != b[i].key { NotBelow(m, es[j].0, es[j].1, n, i); }
          es := es + [(b[i].key, b[i].value.value)];
        }
        forall k: nat, v ensures (k, v) in es <==> HeldBelow(m, k, v, n, i + 1) { OneSlotMore(m, k, v, n, i); }
      }
      forall k: nat, v ensures HeldBelow(m, k, v, n, |b|) <==> HeldBelow(m, k, v, n + 1, 0) { NextBucket(m, k, v, n); }
    }
    forall k: nat, v ensures (k, v) in es <==> Lookup(m, k) == Some(v) { HeldMeansFound(m, k, v); }
  }

  /** Slot j of bucket p comes before slot i of bucket n. */
  predicate Before(p: nat, j: nat, n: nat, i: nat) { p < n || (p == n && j < i) }

  ghost predicate HoldsAt<V>(m: LmMap<V>, k: nat, v: V, p: nat, j: nat)
  {
    p < |m| && j < |m[p]| && k != 0 && m[p][j] == Slot(k, Some(v))
  }

  /** The entry is held before slot i of bucket n. */
  ghost predicate HeldBelow<V>(m: LmMap<V>, k: nat, v: V, n: nat, i: nat)
  {
    exists p: nat, j: nat :: HoldsAt(m, k, v, p, j) && Before(p, j, n, i)
  }

  lemma NotBelow<V>(m: LmMap<V>, k: nat, v: V, n: nat, i: nat)
    requires Valid(m) && n < SIZE && i < |m[n]| && HeldBelow(m, k, v, n, i)
    ensures m[n][i].key != k
  {
    var p: nat, j: nat :| HoldsAt(m, k, v, p, j) && Before(p, j, n, i);
    assert BucketOk(m[n], n) && BucketOk(m[p], p);
  }

  lemma OneSlotMore<V>(m: LmMap<V>, k: nat, v: V, n: nat, i: nat)
    requires n < |m| && i < |m[n]|
    ensures HeldBelow(m, k, v, n, i + 1) <==> HeldBelow(m, k, v, n, i) || HoldsAt(m, k, v, n, i)
  {
    if HeldBelow(m, k, v, n, i) {
      var p: nat, j: nat :| HoldsAt(m, k, v, p, j) && Before(p, j, n, i);
      assert Before(p, j, n, i + 1);
    }
    if HoldsAt(m, k, v, n, i) { assert Before(n, i, n, i + 1); }
    if HeldBelow(m, k, v, n, i + 1) {
      var p: nat, j: nat :| HoldsAt(m, k, v, p, j) && Before(p, j, n, i + 1);
      assert Before(p, j, n, i) || (p == n && j == i);
    }
  }

  lemma NextBucket<V>(m: LmMap<V>, k: nat, v: V, n: nat)
    requires n < |m|
    ensures HeldBelow(m, k, v, n, |m[n]|) <==> HeldBelow(m, k, v, n + 1, 0)
  {
    if HeldBelow(m, k, v, n, |m[n]|) {
      var p: nat, j: nat :| HoldsAt(m, k, v, p, j) && Before(p, j, n, |m[n]|);
      assert Before(p, j, n + 1, 0);
    }
    if HeldBelow(m, k, v, n + 1, 0) {
      var p: nat, j: nat :| HoldsAt(m, k, v, p, j) && Before(p, j, n + 1, 0);
      assert Before(p, j, n, |m[n]|);
    }
  }

  lemma HeldMeansFound<V>(m: LmMap<V>, k: nat, v: V)
    requires Valid(m)
    ensures HeldBelow(m, k, v, SIZE, 0) <==> Lookup(m, k) == Some(v)
  {
    if HeldBelow(m, k, v, SIZE, 0) {
      var p: nat, j: nat :| HoldsAt(m, k, v, p, j) && Before(p, j, SIZE, 0);
      assert BucketOk(m[p], p);
      FindAt(m[p], k, j);
    }
    if Lookup(m, k) == Some(v) {
      var i := FindSlot(m[k % SIZE], k);
      assert BucketOk(m[k % SIZE], k % SIZE);
      assert HoldsAt(m, k, v, k % SIZE, i) && Before(k % SIZE, i, SIZE, 0);
    }
  }
}
