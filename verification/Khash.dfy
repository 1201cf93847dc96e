/** The open-addressing hash table with tombstones, double hashing and in-place rehash. */
module Khash {
  import opened Common
  import opened Probing
  import opened KhashTheory

  /** The bucket counts, smallest first; entry zero stands for the table not yet allocated. */
  const PRIMES: seq<nat> := [
    0, 3, 11, 23, 53,
    97, 193, 389, 769, 1543,
    3079, 6151, 12289, 24593, 49157,
    98317, 196613, 393241, 786433, 1572869,
    3145739, 6291469, 12582917, 25165843, 50331653,
    100663319, 201326611, 402653189, 805306457, 1610612741,
    3221225473, 4294967291
  ]

  /** The largest count for which i + inc stays below 2^32. */
  const MAX_BUCKETS: nat := 1610612741

  /** With at most this many entries the table never needs more than MAX_BUCKETS buckets. */
  const MAX_ENTRIES: nat := 805306369

  /** The load limit: 0.77 * n rounded to the nearest integer. */
  function Upper(n: nat): nat { (77 * n + 50) / 100 }

  predicate Listed(n: nat)
  {
    exists t :: 1 <= t <= 29 && PRIMES[t] == n
  }

  /** The table sizes in use are prime. */
  ghost predicate SizesArePrime()
  {
    forall n :: Listed(n) ==> IsPrime(n)
  }

  // ---------------------------------------------------------------- array helpers

  method Realloc<T(0)>(a: array<T>, n: nat) returns (b: array<T>)
    ensures fresh(b) && b.Length == n
    ensures forall i :: 0 <= i < n && i < a.Length ==> b[i] == a[i]
  {
    b := new T[n];
    var i := 0;
    while i < n && i < a.Length
      invariant i <= n && i <= a.Length
      invariant forall j :: 0 <= j < i ==> b[j] == a[j]
    {
      b[i] := a[i];
      i := i + 1;
    }
  }

  /** The inner search of the rehash: the first bucket of the key's path that is empty. */
  method FindEmpty<K>(hash: Hash<K>, flags: array<Flag>, key: K) returns (i: nat, ghost s: nat)
    requires IsPrime(flags.Length) && flags.Length <= MAX_BUCKETS
    requires |Occupied(flags[..])| < flags.Length
    ensures s < flags.Length && i == Probe(flags.Length, hash(key), s)
    ensures flags[i].empty && PathFull(hash, flags[..], key, s)
  {
    var n, k := flags.Length, hash(key);
    ghost var e := EmptyBucket(flags[..]);
    ghost var u := ProbeSurjective(n, k, e);
    var inc := 1 + k % (n - 1);
    i := k % n;
    s := 0;
    while !flags[i].empty
      invariant s <= u && i == Probe(n, k, s)
      invariant PathFull(hash, flags[..], key, s)
      decreases u - s
    {
      assert i + inc < 0x1_0000_0000;
      if i + inc >= n { i := i + inc - n; } else { i := i + inc; }
      s := s + 1;
    }
  }

  /** Four different objects. */
  ghost predicate Separate(a: object, b: object, c: object, d: object)
  {
    a != b && a != c && a != d && b != c && b != d && c != d
  }

  /** A picked-up key, and the empty bucket on its path where it will go. */
  ghost predicate Landing<K>(hash: Hash<K>, dst: seq<Flag>, key: K, i: nat, s: nat)
  {
    && 2 <= |dst| && s < |dst| && i == Probe(|dst|, hash(key), s)
    && dst[i].empty && PathFull(hash, dst, key, s)
  }

  ghost predicate NoneRevived(before: seq<Flag>, after: seq<Flag>)
  {
    |before| == |after| && forall j :: 0 <= j < |after| && after[j].Live() ==> before[j].Live()
  }

  lemma StillNoneRevived(first: seq<Flag>, before: seq<Flag>, i: nat)
    requires NoneRevived(first, before) && i < |before|
    ensures NoneRevived(first, before[i := TOMBSTONE])
  {
  }

  /** Put the carried entry down on top of an old one and pick that one up. */
  method Displace<K(==), V>(hash: Hash<K>, keys: array<K>, vals: array<V>,
                            src: array<Flag>, dst: array<Flag>, i0: nat, key0: K, val0: V, ghost s0: nat,
                            ghost m: map<K, V>, ghost slot: map<K, nat>, ghost at: map<K, nat>)
    returns (i: nat, key: K, val: V, ghost s: nat)
    requires Separate(keys, vals, src, dst)
    requires IsPrime(dst.Length) && dst.Length <= MAX_BUCKETS && |m| < dst.Length
    requires InTransit(hash, keys[..], vals[..], src[..], dst[..], m, slot, at)
    requires key0 in m && m[key0] == val0 && key0 !in slot && key0 !in at
    requires Landing(hash, dst[..], key0, i0, s0) && i0 < src.Length && src[i0].Live()
    modifies keys, vals, src, dst
    ensures key == old(keys[i0]) && key in slot && m[key] == val && key != key0
    ensures InTransit(hash, keys[..], vals[..], src[..], dst[..], m, slot - {key}, at[key0 := s0])
    ensures Landing(hash, dst[..], key, i, s)
    ensures src[..] == old(src[..])[i0 := TOMBSTONE]
  {
    SwapDown(hash, keys[..], vals[..], src[..], dst[..], m, slot, at, key0, s0);
    key, val := Exchange(keys, vals, src, dst, i0, key0, val0);
    FewerPlaced(m, at[key0 := s0], key);
    i, s := FindEmpty(hash, dst, key);
  }

  /** Place one entry that was picked up, displacing further old entries until one lands in
      a bucket that no old entry holds. */
  method Settle<K(==), V>(hash: Hash<K>, keys: array<K>, vals: array<V>,
                          src: array<Flag>, dst: array<Flag>, key0: K, val0: V,
                          ghost m: map<K, V>, ghost slot0: map<K, nat>, ghost at0: map<K, nat>)
    returns (ghost slot: map<K, nat>, ghost at: map<K, nat>)
    requires Separate(keys, vals, src, dst)
    requires IsPrime(dst.Length) && dst.Length <= MAX_BUCKETS && |m| < dst.Length
    requires InTransit(hash, keys[..], vals[..], src[..], dst[..], m, slot0, at0)
    requires key0 in m && m[key0] == val0 && key0 !in slot0 && key0 !in at0
    modifies keys, vals, src, dst
    ensures InTransit(hash, keys[..], vals[..], src[..], dst[..], m, slot, at)
    ensures slot.Keys + at.Keys == Carried(slot0, at0, key0)
    ensures NoneRevived(old(src[..]), src[..])
  {
    ghost var src0 := src[..];
    var key, val := key0, val0;
    slot, at := slot0, at0;
    FewerPlaced(m, at, key);
    var i: nat, s: nat := FindEmpty(hash, dst, key);
    while i < src.Length && src[i].Live()
      invariant InTransit(hash, keys[..], vals[..], src[..], dst[..], m, slot, at)
      invariant key in m && m[key] == val && key !in slot && key !in at
      invariant Carried(slot, at, key) == Carried(slot0, at0, key0)
      invariant Landing(hash, dst[..], key, i, s)
      invariant NoneRevived(src0, src[..])
      decreases |slot.Keys|
    {
      ghost var key', s', i', before := key, s, i, src[..];
      i, key, val, s := Displace(hash, keys, vals, src, dst, i, key, val, s, m, slot, at);
      StillNoneRevived(src0, before, i');
      KeysExchanged(slot, at, key', key, s');
      slot, at := slot - {key}, at[key' := s'];
    }
    PutDown(hash, keys[..], vals[..], src[..], dst[..], m, slot, at, key, s);
    KeysPlaced(slot, at, key, s);
    at := at[key := s];
    Store(keys, vals, dst, i, key, val);
  }

  /** Move the entry of one old bucket, and whatever it displaces. */
  method MoveOne<K(==), V>(hash: Hash<K>, keys: array<K>, vals: array<V>,
                           src: array<Flag>, dst: array<Flag>, j: nat,
                           ghost m: map<K, V>, ghost slot0: map<K, nat>, ghost at0: map<K, nat>)
    returns (ghost slot: map<K, nat>, ghost at: map<K, nat>)
    requires Separate(keys, vals, src, dst)
    requires IsPrime(dst.Length) && dst.Length <= MAX_BUCKETS && |m| < dst.Length
    requires InTransit(hash, keys[..], vals[..], src[..], dst[..], m, slot0, at0)
    requires j < src.Length && src[j].Live()
    modifies keys, vals, src, dst
    ensures InTransit(hash, keys[..], vals[..], src[..], dst[..], m, slot, at)
    ensures slot.Keys + at.Keys == slot0.Keys + at0.Keys
    ensures NoneRevived(old(src[..]), src[..]) && !src[..][j].Live()
  {
    ghost var src0 := src[..];
    var key, val := keys[j], vals[j];
    PickUp(hash, keys[..], vals[..], src0, dst[..], m, slot0, at0, j);
    src[j] := TOMBSTONE;
    assert src[..] == src0[j := TOMBSTONE];
    KeysLifted(slot0, at0, key);
    slot, at := Settle(hash, keys, vals, src, dst, key, val, m, slot0 - {key}, at0);
  }

  ghost predicate Swept(src: seq<Flag>, j: nat)
  {
    j <= |src| && forall i :: 0 <= i < j ==> !src[i].Live()
  }

  lemma SweptNext(before: seq<Flag>, after: seq<Flag>, j: nat)
    requires Swept(before, j) && NoneRevived(before, after) && j < |after| && !after[j].Live()
    ensures Swept(after, j + 1)
  {
  }

  /** The whole rehash: every entry moves from the old flags to the new ones, inside the
      same key and value arrays. */
  method MoveAll<K(==), V>(hash: Hash<K>, keys: array<K>, vals: array<V>,
                           src: array<Flag>, dst: array<Flag>,
                           ghost m: map<K, V>, ghost at0: map<K, nat>) returns (ghost at: map<K, nat>)
    requires Separate(keys, vals, src, dst)
    requires IsPrime(dst.Length) && dst.Length <= MAX_BUCKETS && |m| < dst.Length
    requires Shape(keys[..], vals[..], dst[..]) && src.Length <= keys.Length && src.Length <= vals.Length
    requires forall i :: 0 <= i < dst.Length ==> dst[i] == EMPTY
    requires if src.Length == 0 then m == map[]
             else Shape(keys[..], vals[..], src[..]) && Represents(hash, keys[..], vals[..], src[..], m, at0)
    modifies keys, vals, src, dst
    ensures Represents(hash, keys[..], vals[..], dst[..], m, at)
    ensures NoTombstones(dst[..]) && |Occupied(dst[..])| == |m| && LiveSet(dst[..]) == Occupied(dst[..])
  {
    ghost var slot := StartMove(hash, keys[..], vals[..], src[..], dst[..], m, at0);
    at := map[];
    for j := 0 to src.Length
      invariant InTransit(hash, keys[..], vals[..], src[..], dst[..], m, slot, at)
      invariant slot.Keys + at.Keys == m.Keys
      invariant Swept(src[..], j)
    {
      ghost var before := src[..];
      if src[j].Live() {
        slot, at := MoveOne(hash, keys, vals, src, dst, j, m, slot, at);
      }
      SweptNext(before, src[..], j);
    }
    EndMove(hash, keys[..], vals[..], src[..], dst[..], m, slot, at);
  }

  lemma KeysLifted<K>(slot: map<K, nat>, at: map<K, nat>, k: K)
    requires k in slot
    ensures Carried(slot - {k}, at, k) == slot.Keys + at.Keys
  {
    assert (slot - {k}).Keys == slot.Keys - {k};
  }

  ghost function Carried<K>(slot: map<K, nat>, at: map<K, nat>, key: K): set<K>
  {
    slot.Keys + at.Keys + {key}
  }

  /** Store an entry in a bucket and pick up the old entry that was there. */
  method Exchange<K, V>(keys: array<K>, vals: array<V>, src: array<Flag>, dst: array<Flag>,
                        i: nat, key: K, val: V) returns (key': K, val': V)
    requires Separate(keys, vals, src, dst)
    requires i < keys.Length && i < vals.Length && i < src.Length && i < dst.Length
    requires src[i].Live() && dst[i] == EMPTY
    modifies keys, vals, src, dst
    ensures key' == old(keys[i]) && val' == old(vals[i])
    ensures keys[..] == old(keys[..])[i := key] && vals[..] == old(vals[..])[i := val]
    ensures src[..] == old(src[..])[i := TOMBSTONE] && dst[..] == old(dst[..])[i := LIVE]
  {
    dst[i] := Flag(false, dst[i].del);
    key', val' := keys[i], vals[i];
    keys[i], vals[i] := key, val;
    src[i] := Flag(src[i].empty, true);
  }

  /** Store an entry in a bucket that no old entry holds. */
  method Store<K, V>(keys: array<K>, vals: array<V>, dst: array<Flag>, i: nat, key: K, val: V)
    requires keys as object != vals && keys as object != dst && vals as object != dst
    requires i < keys.Length && i < vals.Length && i < dst.Length && dst[i] == EMPTY
    modifies keys, vals, dst
    ensures keys[..] == old(keys[..])[i := key] && vals[..] == old(vals[..])[i := val]
    ensures dst[..] == old(dst[..])[i := LIVE]
  {
    dst[i] := Flag(false, dst[i].del);
    keys[i], vals[i] := key, val;
  }

  /** Displacing one entry exchanges the carried key and loses none. */
  lemma KeysExchanged<K>(slot: map<K, nat>, at: map<K, nat>, key: K, k: K, s: nat)
    requires k in slot && slot.Keys !! at.Keys
    ensures Carried(slot - {k}, at[key := s], k) == Carried(slot, at, key)
    ensures |(slot - {k}).Keys| < |slot.Keys|
  {
    assert (slot - {k}).Keys == slot.Keys - {k} && at[key := s].Keys == at.Keys + {key};
  }

  lemma KeysPlaced<K>(slot: map<K, nat>, at: map<K, nat>, key: K, s: nat)
    ensures slot.Keys + at[key := s].Keys == Carried(slot, at, key)
  {
    assert at[key := s].Keys == at.Keys + {key};
  }

  lemma FewerPlaced<K, V>(m: map<K, V>, at: map<K, nat>, key: K)
    requires at.Keys <= m.Keys && key in m && key !in at
    ensures |at.Keys| < |m|
  {
    SubsetSize(at.Keys + {key}, m.Keys);
  }

  // ---------------------------------------------------------------- the table

  lemma PrimesAscend(i: nat, j: nat)
    requires i <= j < |PRIMES|
    ensures PRIMES[i] <= PRIMES[j]
    decreases j - i
  {
    if i < j {
      PrimesAscend(i + 1, j);
    }
  }

  /** The least listed size above the requested one. */
  method PickSize(wanted: nat) returns (p: nat)
    requires wanted < MAX_BUCKETS && SizesArePrime()
    ensures Listed(p) && IsPrime(p) && 3 <= p && wanted < p <= MAX_BUCKETS
    ensures forall q :: Listed(q) && wanted < q ==> p <= q
  {
    var t := 31;
    while PRIMES[t] > wanted
      invariant 0 <= t <= 31
      invariant t < 31 ==> wanted < PRIMES[t + 1]
      decreases t
    {
      t := t - 1;
    }
    assert t <= 28 by { assert PRIMES[29] == MAX_BUCKETS; if t >= 29 { PrimesAscend(29, t); } }
    p := PRIMES[t + 1];
    PrimesAscend(t + 1, 29);
    PrimesAscend(1, t + 1);
    assert 1 <= t + 1 <= 29 && PRIMES[t + 1] == p;
    forall q | Listed(q) && wanted < q ensures p <= q {
      var u :| 1 <= u <= 29 && PRIMES[u] == q;
      if u <= t { PrimesAscend(u, t); } else { PrimesAscend(t + 1, u); }
    }
  }

  /** The probe loop of a lookup: stop at an empty bucket or at the key, or after a full turn. */
  method Search<K(==)>(hash: Hash<K>, keys: array<K>, flags: array<Flag>, key: K)
    returns (i: nat, turned: bool, ghost s: nat)
    requires IsPrime(flags.Length) && flags.Length <= MAX_BUCKETS && flags.Length <= keys.Length
    ensures Passed(hash, keys[..], flags[..], key, s)
    ensures turned ==> s == flags.Length
    ensures !turned ==> s < flags.Length && i == Probe(flags.Length, hash(key), s)
    ensures !turned ==> flags[i].empty || (flags[i].Live() && keys[i] == key)
  {
    ghost var ks, fs := keys[..], flags[..];
    var n, k := flags.Length, hash(key);
    i := k % n;
    var inc, last := 1 + k % (n - 1), i;
    s := 0;
    turned := false;
    while !turned && !flags[i].empty && (flags[i].del || keys[i] != key)
      invariant i == Probe(n, k, s) && last == Probe(n, k, 0)
      invariant if turned then s == n else s < n
      invariant Passed(hash, ks, fs, key, s)
      decreases n - s
    {
      assert i + inc < 0x1_0000_0000;
      PassedNext(hash, ks, fs, key, s);
      ProbeNext(n, k, s);
      if i + inc >= n { i := i + inc - n; } else { i := i + inc; }
      s := s + 1;
      ProbeReturns(n, k, s);
      turned := i == last;
    }
  }

  /** The probe loop of an insertion: the key's own bucket, or else the last tombstone before
      the first empty bucket of its path, or else that empty bucket. */
  method FindSite<K(==)>(hash: Hash<K>, keys: array<K>, flags: array<Flag>, key: K)
    returns (x: nat, ghost s: nat, ghost e: nat)
    requires IsPrime(flags.Length) && flags.Length <= MAX_BUCKETS && flags.Length <= keys.Length
    requires |Occupied(flags[..])| < flags.Length
    ensures s < flags.Length && x == Probe(flags.Length, hash(key), s)
    ensures PathFull(hash, flags[..], key, s)
    ensures flags[x].Live() ==> keys[x] == key
    ensures !flags[x].Live() ==>
              Passed(hash, keys[..], flags[..], key, e) && flags[Probe(flags.Length, hash(key), e)].empty
  {
    ghost var ks, fs := keys[..], flags[..];
    var n, k := flags.Length, hash(key);
    ghost var hole := EmptyBucket(fs);
    ghost var u := ProbeSurjective(n, k, hole);
    var i := k % n;
    x := n;
    s, e := 0, 0;
    if flags[i].empty {
      x := i;
    } else {
      var site: nat, inc, last := n, 1 + k % (n - 1), i;
      ghost var siteStep: nat := 0;
      while !flags[i].empty && (flags[i].del || keys[i] != key)
        invariant x == n && e <= u && i == Probe(n, k, e) && last == Probe(n, k, 0)
        invariant Passed(hash, ks, fs, key, e)
        invariant site != n ==> siteStep < e && site == Probe(n, k, siteStep) && fs[site].del
        decreases u - e
      {
        assert i + inc < 0x1_0000_0000;
        if flags[i].del { site, siteStep := i, e; }
        PassedNext(hash, ks, fs, key, e);
        ProbeNext(n, k, e);
        if i + inc >= n { i := i + inc - n; } else { i := i + inc; }
        e := e + 1;
        ProbeReturns(n, k, e);
        if i == last { x := site; break; }
      }
      if x == n {
        if flags[i].empty && site != n { x, s := site, siteStep; } else { x, s := i, e; }
      }
    }
  }

  /** New flags for p buckets, and the entries of the old table moved under them. The arrays
      grow before the move or shrink after it. */
  method Rebuild<K(==, 0), V(0)>(hash: Hash<K>, keys: array<K>, vals: array<V>, flags: array<Flag>, p: nat,
                                 ghost m: map<K, V>, ghost at: map<K, nat>)
    returns (ks: array<K>, vs: array<V>, fs: array<Flag>, ghost at': map<K, nat>)
    requires IsPrime(p) && p <= MAX_BUCKETS && |m| < p
    requires flags.Length == keys.Length == vals.Length && flags.Length != 1
    requires flags as object != keys && flags as object != vals && keys as object != vals
    requires if flags.Length == 0 then m == map[] else Represents(hash, keys[..], vals[..], flags[..], m, at)
    modifies keys, vals, flags
    ensures ks.Length == vs.Length == fs.Length == p
    ensures (fs as object) != ks && (fs as object) != vs && (ks as object) != vs
    ensures fresh(fs) && ((ks == keys && vs == vals) || (fresh(ks) && fresh(vs)))
    ensures Represents(hash, ks[..], vs[..], fs[..], m, at')
    ensures NoTombstones(fs[..]) && |Occupied(fs[..])| == |m| && |LiveSet(fs[..])| == |m|
  {
    var n := flags.Length;
    fs := new Flag[p](_ => EMPTY);
    ks, vs := keys, vals;
    if n < p {
      ks := Realloc(keys, p);
      vs := Realloc(vals, p);
      if n != 0 { SamePrefix(hash, keys[..], vals[..], ks[..], vs[..], flags[..], m, at); }
    }
    at' := MoveAll(hash, ks, vs, flags, fs, m, at);
    if n > p {
      ghost var ks0, vs0 := ks[..], vs[..];
      ks := Realloc(ks, p);
      vs := Realloc(vs, p);
      SamePrefix(hash, ks0, vs0, ks[..], vs[..], fs[..], m, at');
    }
  }

  /** func returned true at the last of the entries when stopped, and nowhere else. */
  ghost predicate Stopping<K, V>(func: (K, V) -> bool, seen: seq<(K, V)>, stopped: bool)
  {
    && (stopped ==> seen != [])
    && forall j :: 0 <= j < |seen| ==> (func(seen[j].0, seen[j].1) <==> stopped && j == |seen| - 1)
  }

  lemma StoppingNext<K, V>(func: (K, V) -> bool, seen: seq<(K, V)>, k: K, v: V)
    requires Stopping(func, seen, false)
    ensures Stopping(func, seen + [(k, v)], func(k, v))
  {
  }

  /** Go through the buckets in order, calling func on the live ones until it returns true. */
  method Scan<K, V>(keys: array<K>, vals: array<V>, flags: array<Flag>, func: (K, V) -> bool)
    returns (seen: seq<(K, V)>, stopped: bool)
    requires flags.Length <= keys.Length && flags.Length <= vals.Length
    ensures var all := Entries(keys[..], vals[..], flags[..], flags.Length);
            seen <= all && (!stopped ==> seen == all)
    ensures Stopping(func, seen, stopped)
  {
    ghost var ks, vs, fs := keys[..], vals[..], flags[..];
    seen, stopped := [], false;
    for i := 0 to flags.Length
      invariant !stopped && seen == Entries(ks, vs, fs, i) && Stopping(func, seen, false)
    {
      if !(flags[i].empty || flags[i].del) {
        StoppingNext(func, seen, keys[i], vals[i]);
        seen := seen + [(keys[i], vals[i])];
        if func(keys[i], vals[i]) {
          EntriesPrefix(ks, vs, fs, i + 1, flags.Length);
          stopped := true;
          return;
        }
      }
    }
  }

  /** The counters and the arrays of a table that is in use agree with each other and with
      the map m. */
  ghost predicate Sound<K, V>(hash: Hash<K>, keys: seq<K>, vals: seq<V>, flags: seq<Flag>,
                              size: nat, nOccupied: nat, upperBound: nat, m: map<K, V>, at: map<K, nat>)
  {
    && IsPrime(|flags|) && 3 <= |flags| <= MAX_BUCKETS && |flags| == |keys| == |vals|
    && upperBound == Upper(|flags|)
    && size == |LiveSet(flags)|
    && nOccupied == |Occupied(flags)| <= upperBound
    && Represents(hash, keys, vals, flags, m, at)
  }

  class Table<K(==, 0), V(0)> {
    const hash: Hash<K>
    var nBuckets: nat
    var size: nat
    var nOccupied: nat
    var upperBound: nat
    var flags: array<Flag>
    var keys: array<K>
    var vals: array<V>
    /** The map the table stands for, and the number of probes to each key. */
    ghost var m: map<K, V>
    ghost var at: map<K, nat>

    ghost function Repr(): set<object>
      reads this
    {
      {this, flags, keys, vals}
    }

    ghost predicate Valid()
      reads this, flags, keys, vals
    {
      && Separate(this, flags, keys, vals)
      && nBuckets == flags.Length == keys.Length == vals.Length
      && size == |m|
      && if nBuckets == 0 then m == map[] && nOccupied == upperBound == 0
         else Sound(hash, keys[..], vals[..], flags[..], size, nOccupied, upperBound, m, at)
    }

    constructor (hash: Hash<K>)
      ensures Valid() && fresh(Repr()) && this.hash == hash && m == map[]
    {
      this.hash := hash;
      nBuckets, size, nOccupied, upperBound := 0, 0, 0, 0;
      flags := new Flag[0];
      keys := new K[0];
      vals := new V[0];
      m, at := map[], map[];
    }

    /** The bucket of the key, or the number of buckets when the key is absent. */
    method Get(key: K) returns (x: nat)
      requires Valid()
      ensures key in m ==> x < nBuckets && flags[x].Live() && keys[x] == key && vals[x] == m[key]
      ensures key !in m ==> x == nBuckets
    {
      if nBuckets == 0 { return 0; }
      var i, turned, s := Search(hash, keys, flags, key);
      if turned {
        MissIsAbsent(hash, keys[..], vals[..], flags[..], m, at, key, s);
        return nBuckets;
      }
      if flags[i].empty {
        MissIsAbsent(hash, keys[..], vals[..], flags[..], m, at, key, s);
      } else {
        HitIsPresent(hash, keys[..], vals[..], flags[..], m, at, i);
      }
      x := if flags[i].empty || flags[i].del then nBuckets else i;
    }

    /** Rebuild the table with p buckets. The map does not change and no tombstone is left. */
    method ResizeTo(p: nat)
      requires Valid() && IsPrime(p) && 3 <= p <= MAX_BUCKETS && |m| < Upper(p)
      modifies Repr()
      ensures Valid() && fresh(Repr() - old(Repr())) && m == old(m)
      ensures nBuckets == p && nOccupied == size && NoTombstones(flags[..])
    {
      UpperBelow(p);
      var ks, vs, fs, at' := Rebuild(hash, keys, vals, flags, p, m, at);
      Install(ks, vs, fs, at');
    }

    /** Make the given arrays, which hold the same map without tombstones, the table's own. */
    method Install(ks: array<K>, vs: array<V>, fs: array<Flag>, ghost at': map<K, nat>)
      requires Separate(this, fs, ks, vs) && size == |m|
      requires Sound(hash, ks[..], vs[..], fs[..], size, size, Upper(fs.Length), m, at')
      modifies this
      ensures Valid() && m == old(m) && size == old(size)
      ensures keys == ks && vals == vs && flags == fs && nBuckets == fs.Length && nOccupied == size
    {
      keys, vals, flags := ks, vs, fs;
      nBuckets, nOccupied, upperBound, at := fs.Length, size, Upper(fs.Length), at';
    }

    /** Rebuild the table with the least listed size above the wanted one, unless the
        entries would not fit under its load limit. */
    method Resize(wanted: nat) returns (p: nat)
      requires Valid() && SizesArePrime() && wanted < MAX_BUCKETS
      modifies Repr()
      ensures Valid() && fresh(Repr() - old(Repr())) && m == old(m)
      ensures wanted < p <= MAX_BUCKETS
      ensures if |m| < Upper(p) then nBuckets == p && nOccupied == size && NoTombstones(flags[..])
              else unchanged(this)
    {
      p := PickSize(wanted);
      if size < Upper(p) {
        ResizeTo(p);
      }
    }

    /** Before an insertion: grow a loaded table, or rebuild one that is full of tombstones. */
    method EnsureRoom()
      requires Valid() && SizesArePrime() && |m| <= MAX_ENTRIES
      modifies Repr()
      ensures Valid() && fresh(Repr() - old(Repr())) && m == old(m)
      ensures nOccupied < upperBound
    {
      if nOccupied >= upperBound {
        ghost var n := nBuckets;
        LiveAreOccupied(flags[..]);
        var p;
        if nBuckets > 2 * size {
          p := Resize(nBuckets - 1);
        } else {
          p := Resize(nBuckets + 1);
        }
        UpperGrows(n, p, size);
      }
    }

    /** The bucket for the key: ret is 0 when the key was there, 1 for an empty bucket taken
        and 2 for a tombstone reused. A new key gets whatever value the bucket held. */
    method Put(key: K) returns (x: nat, ret: int)
      requires Valid() && SizesArePrime() && |m| <= MAX_ENTRIES
      modifies Repr()
      ensures Valid() && fresh(Repr() - old(Repr()))
      ensures x < nBuckets && flags[x].Live() && keys[x] == key
      ensures key in old(m) ==> ret == 0 && m == old(m)
      ensures key !in old(m) ==> (ret == 1 || ret == 2) && m == old(m)[key := vals[x]]
    {
      EnsureRoom();
      UpperBelow(nBuckets);
      ghost var s: nat, e: nat;
      x, s, e := FindSite(hash, keys, flags, key);
      if flags[x].Live() {
        HitIsPresent(hash, keys[..], vals[..], flags[..], m, at, x);
        ret := 0;
      } else {
        MissIsAbsent(hash, keys[..], vals[..], flags[..], m, at, key, e);
        ret := Occupy(x, key, s);
      }
    }

    /** Take an empty bucket or a tombstone of the key's path for a key that is absent. */
    method Occupy(x: nat, key: K, ghost s: nat) returns (ret: int)
      requires Valid() && nBuckets != 0 && nOccupied < upperBound
      requires s < nBuckets && x == Probe(nBuckets, hash(key), s) && PathFull(hash, flags[..], key, s)
      requires key !in m && !flags[x].Live()
      modifies this, flags, keys
      ensures Valid() && Repr() == old(Repr()) && nBuckets == old(nBuckets)
      ensures flags[x].Live() && keys[x] == key
      ensures m == old(m)[key := vals[x]] && (ret == 1 || ret == 2)
    {
      InsertNew(hash, keys[..], vals[..], flags[..], m, at, key, s);
      CountPlace(flags[..], x);
      ghost var ks, fs := keys[..], flags[..];
      ret := if flags[x].empty then 1 else 2;
      keys[x] := key;
      flags[x] := LIVE;
      size := size + 1;
      if ret == 1 { nOccupied := nOccupied + 1; }
      m, at := m[key := vals[x]], at[key := s];
      assert keys[..] == ks[x := key] && flags[..] == fs[x := LIVE];
    }

    /** Turn a live bucket into a tombstone; anything else is left alone. */
    method Del(x: nat)
      requires Valid() && x <= nBuckets
      modifies this, flags
      ensures Valid() && Repr() == old(Repr()) && nBuckets == old(nBuckets)
      ensures if x < nBuckets && old(flags[x].Live()) then m == old(m) - {old(keys[x])} else m == old(m)
    {
      if x != nBuckets && !(flags[x].empty || flags[x].del) {
        DropKey(hash, keys[..], vals[..], flags[..], m, at, x);
        CountDrop(flags[..], x);
        ghost var key, fs := keys[x], flags[..];
        assert (m - {key}).Keys == m.Keys - {key};
        flags[x] := Flag(flags[x].empty, true);
        size := size - 1;
        m, at := m - {key}, at - {key};
        assert flags[..] == fs[x := TOMBSTONE];
      }
    }

    /** Store a value in a live bucket. */
    method SetVal(x: nat, v: V)
      requires Valid() && x < nBuckets && flags[x].Live()
      modifies this, vals
      ensures Valid() && Repr() == old(Repr())
      ensures m == old(m)[old(keys[x]) := v]
    {
      ReplaceValue(hash, keys[..], vals[..], flags[..], m, at, x, v);
      HitIsPresent(hash, keys[..], vals[..], flags[..], m, at, x);
      assert m[keys[x] := v].Keys == m.Keys;
      ghost var vs := vals[..];
      vals[x] := v;
      m := m[keys[x] := v];
      assert vals[..] == vs[x := v];
    }

    /** Remove the key if it is there. */
    method Remove(key: K)
      requires Valid()
      modifies this, flags
      ensures Valid() && Repr() == old(Repr()) && m == old(m) - {key}
    {
      var x := Get(key);
      if x != nBuckets {
        Del(x);
      }
    }

    /** Insert an absent key with its value; ret is never zero. */
    method Insert(key: K, v: V) returns (ret: int)
      requires Valid() && SizesArePrime() && |m| <= MAX_ENTRIES && key !in m
      modifies Repr()
      ensures Valid() && fresh(Repr() - old(Repr()))
      ensures m == old(m)[key := v] && ret != 0
    {
      var x;
      x, ret := Put(key);
      SetVal(x, v);
    }

    /** Set the value of a key: remove the key if present, then insert it. */
    method Replace(key: K, v: V) returns (ret: int)
      requires Valid() && SizesArePrime() && |m| <= MAX_ENTRIES
      modifies Repr()
      ensures Valid() && fresh(Repr() - old(Repr()))
      ensures m == old(m)[key := v] && ret != 0
    {
      ghost var m0, r0 := m, Repr();
      Remove(key);
      assert Repr() == r0;
      SubsetSize(m.Keys, m0.Keys);
      ret := Insert(key, v);
      assert m == m0[key := v];
    }

    /** Call func on the live buckets in order until it asks to stop. Unless stopped, every
        entry of the map is visited exactly once. */
    method Foreach(func: (K, V) -> bool) returns (seen: seq<(K, V)>, stopped: bool)
      requires Valid()
      ensures forall j :: 0 <= j < |seen| ==> seen[j].0 in m && m[seen[j].0] == seen[j].1
      ensures forall i, j :: 0 <= i < j < |seen| ==> seen[i].0 != seen[j].0
      ensures Stopping(func, seen, stopped)
      ensures !stopped ==> forall k :: k in m ==> (k, m[k]) in seen
    {
      seen, stopped := Scan(keys, vals, flags, func);
      if nBuckets != 0 { EntriesExact(hash, keys[..], vals[..], flags[..], m, at); }
    }
  }

  lemma UpperBelow(n: nat)
    requires n >= 3
    ensures Upper(n) < n
  {
  }

  lemma UpperGrows(n: nat, p: nat, size: nat)
    requires size <= Upper(n)
    requires (2 * size < n <= p && n >= 3) || p >= n + 2
    ensures size < Upper(p)
  {
  }
}
