/** What the arrays of an open-addressing table mean, on plain sequences.
    The table code in Khash works in place on arrays; every step it takes is one of the
    lemmas below. The quantified facts are instantiated by naming FoundAt or AtHome. */
module KhashTheory {
  import opened Common
  import opened Probing

  /** The two status bits of one bucket. A bucket is live when neither is set; a deleted
      bucket keeps its place in the probe paths that run through it. */
  datatype Flag = Flag(empty: bool, del: bool) {
    predicate Live() { !empty && !del }
  }

  const EMPTY := Flag(true, false)
  const TOMBSTONE := Flag(false, true)
  const LIVE := Flag(false, false)

  type Hash<!K> = K -> nat

  ghost predicate Shape<K, V>(keys: seq<K>, vals: seq<V>, flags: seq<Flag>)
  {
    2 <= |flags| <= |keys| && |flags| <= |vals|
  }

  /** No empty bucket among the first s probes of key k. */
  ghost predicate PathFull<K>(hash: Hash<K>, flags: seq<Flag>, k: K, s: nat)
    requires |flags| >= 2
  {
    forall t :: 0 <= t < s ==> !flags[Probe(|flags|, hash(k), t)].empty
  }

  /** Key k sits, with its value in m, in the live bucket it reaches after at[k] probes,
      with no empty bucket before it. */
  ghost predicate FoundAt<K, V>(hash: Hash<K>, keys: seq<K>, vals: seq<V>, flags: seq<Flag>,
                                m: map<K, V>, at: map<K, nat>, k: K)
    requires Shape(keys, vals, flags) && k in at
  {
    var i := Probe(|flags|, hash(k), at[k]);
    && k in m && at[k] < |flags| && PathFull(hash, flags, k, at[k])
    && flags[i].Live() && keys[i] == k && vals[i] == m[k]
  }

  /** Bucket i is the one where its own key is found. */
  ghost predicate AtHome<K>(hash: Hash<K>, keys: seq<K>, flags: seq<Flag>, at: map<K, nat>, i: nat)
    requires 2 <= |flags| <= |keys| && i < |flags|
  {
    keys[i] in at && Probe(|flags|, hash(keys[i]), at[keys[i]]) == i
  }

  /** The live buckets hold exactly the keys of at, with their values in m. */
  ghost predicate Holds<K, V>(hash: Hash<K>, keys: seq<K>, vals: seq<V>, flags: seq<Flag>,
                              m: map<K, V>, at: map<K, nat>)
    requires Shape(keys, vals, flags)
  {
    && (forall k {:trigger FoundAt(hash, keys, vals, flags, m, at, k)} ::
          k in at ==> FoundAt(hash, keys, vals, flags, m, at, k))
    && (forall i {:trigger AtHome(hash, keys, flags, at, i)} ::
          0 <= i < |flags| && flags[i].Live() ==> AtHome(hash, keys, flags, at, i))
  }

  /** The live buckets hold exactly the map m. */
  ghost predicate Represents<K, V>(hash: Hash<K>, keys: seq<K>, vals: seq<V>, flags: seq<Flag>,
                                   m: map<K, V>, at: map<K, nat>)
    requires Shape(keys, vals, flags)
  {
    m.Keys == at.Keys && Holds(hash, keys, vals, flags, m, at)
  }

  // ---------------------------------------------------------------- searching

  /** The first s probes of key k all met occupied buckets without the key. */
  ghost predicate Passed<K>(hash: Hash<K>, keys: seq<K>, flags: seq<Flag>, k: K, s: nat)
    requires 2 <= |flags| <= |keys|
  {
    forall t :: 0 <= t < s ==>
      var i := Probe(|flags|, hash(k), t);
      !flags[i].empty && (flags[i].del || keys[i] != k)
  }

  lemma PassedNext<K>(hash: Hash<K>, keys: seq<K>, flags: seq<Flag>, k: K, s: nat)
    requires 2 <= |flags| <= |keys| && Passed(hash, keys, flags, k, s)
    requires var i := Probe(|flags|, hash(k), s);
             !flags[i].empty && (flags[i].del || keys[i] != k)
    ensures Passed(hash, keys, flags, k, s + 1)
  {
  }

  /** A search that reaches an empty bucket, or has made a full turn, proves the key absent. */
  lemma MissIsAbsent<K, V>(hash: Hash<K>, keys: seq<K>, vals: seq<V>, flags: seq<Flag>,
                           m: map<K, V>, at: map<K, nat>, k: K, s: nat)
    requires Shape(keys, vals, flags) && Represents(hash, keys, vals, flags, m, at)
    requires Passed(hash, keys, flags, k, s)
    requires s == |flags| || flags[Probe(|flags|, hash(k), s)].empty
    ensures k !in m
  {
    assert k in at ==> FoundAt(hash, keys, vals, flags, m, at, k);
  }

  lemma HitIsPresent<K, V>(hash: Hash<K>, keys: seq<K>, vals: seq<V>, flags: seq<Flag>,
                           m: map<K, V>, at: map<K, nat>, i: nat)
    requires Shape(keys, vals, flags) && Represents(hash, keys, vals, flags, m, at)
    requires i < |flags| && flags[i].Live()
    ensures keys[i] in m && m[keys[i]] == vals[i]
  {
    assert AtHome(hash, keys, flags, at, i);
    assert FoundAt(hash, keys, vals, flags, m, at, keys[i]);
  }

  // ---------------------------------------------------------------- changing one bucket

  lemma PathFullMonotone<K>(hash: Hash<K>, flags: seq<Flag>, flags': seq<Flag>, k: K, s: nat)
    requires |flags| == |flags'| >= 2 && PathFull(hash, flags, k, s)
    requires forall i :: 0 <= i < |flags| && flags'[i].empty ==> flags[i].empty
    ensures PathFull(hash, flags', k, s)
  {
  }

  /** Storing a new key in a bucket that is not live and that its path reaches. */
  lemma PlaceKey<K, V>(hash: Hash<K>, keys: seq<K>, vals: seq<V>, flags: seq<Flag>,
                       m: map<K, V>, at: map<K, nat>, k: K, s: nat)
    requires Shape(keys, vals, flags) && Holds(hash, keys, vals, flags, m, at)
    requires k in m && k !in at && s < |flags| && PathFull(hash, flags, k, s)
    requires !flags[Probe(|flags|, hash(k), s)].Live()
    ensures var i := Probe(|flags|, hash(k), s);
            Holds(hash, keys[i := k], vals[i := m[k]], flags[i := LIVE], m, at[k := s])
  {
    var i := Probe(|flags|, hash(k), s);
    var keys', vals', flags', at' := keys[i := k], vals[i := m[k]], flags[i := LIVE], at[k := s];
    forall q | q in at' ensures FoundAt(hash, keys', vals', flags', m, at', q) {
      assert q != k ==> FoundAt(hash, keys, vals, flags, m, at, q);
      PathFullMonotone(hash, flags, flags', q, at'[q]);
    }
    forall j | 0 <= j < |flags'| && flags'[j].Live() ensures AtHome(hash, keys', flags', at', j) {
      assert j != i ==> AtHome(hash, keys, flags, at, j);
    }
  }

  /** Marking a live bucket as deleted. */
  lemma DropKey<K, V>(hash: Hash<K>, keys: seq<K>, vals: seq<V>, flags: seq<Flag>,
                      m: map<K, V>, at: map<K, nat>, i: nat)
    requires Shape(keys, vals, flags) && Represents(hash, keys, vals, flags, m, at)
    requires i < |flags| && flags[i].Live()
    ensures keys[i] in m
    ensures Represents(hash, keys, vals, flags[i := TOMBSTONE], m - {keys[i]}, at - {keys[i]})
  {
    var flags', m', at' := flags[i := TOMBSTONE], m - {keys[i]}, at - {keys[i]};
    assert AtHome(hash, keys, flags, at, i);
    forall q | q in at' ensures FoundAt(hash, keys, vals, flags', m', at', q) {
      assert FoundAt(hash, keys, vals, flags, m, at, q);
      PathFullMonotone(hash, flags, flags', q, at[q]);
    }
    forall j | 0 <= j < |flags'| && flags'[j].Live() ensures AtHome(hash, keys, flags', at', j) {
      assert AtHome(hash, keys, flags, at, j);
    }
  }

  /** Replacing the value of a live bucket. */
  lemma ReplaceValue<K, V>(hash: Hash<K>, keys: seq<K>, vals: seq<V>, flags: seq<Flag>,
                           m: map<K, V>, at: map<K, nat>, i: nat, v: V)
    requires Shape(keys, vals, flags) && Represents(hash, keys, vals, flags, m, at)
    requires i < |flags| && flags[i].Live()
    ensures Represents(hash, keys, vals[i := v], flags, m[keys[i] := v], at)
  {
    var vals', m' := vals[i := v], m[keys[i] := v];
    assert AtHome(hash, keys, flags, at, i);
    forall q | q in at ensures FoundAt(hash, keys, vals', flags, m', at, q) {
      assert FoundAt(hash, keys, vals, flags, m, at, q);
    }
    assert m'.Keys == m.Keys;
  }

  lemma WiderMap<K, V>(hash: Hash<K>, keys: seq<K>, vals: seq<V>, flags: seq<Flag>,
                       m: map<K, V>, at: map<K, nat>, k: K, v: V)
    requires Shape(keys, vals, flags) && Holds(hash, keys, vals, flags, m, at) && k !in at
    ensures Holds(hash, keys, vals, flags, m[k := v], at)
  {
    forall q | q in at ensures FoundAt(hash, keys, vals, flags, m[k := v], at, q) {
      assert FoundAt(hash, keys, vals, flags, m, at, q);
    }
  }

  /** Inserting an absent key at a bucket of its path; the bucket's value stays. */
  lemma InsertNew<K, V>(hash: Hash<K>, keys: seq<K>, vals: seq<V>, flags: seq<Flag>,
                        m: map<K, V>, at: map<K, nat>, k: K, s: nat)
    requires Shape(keys, vals, flags) && Represents(hash, keys, vals, flags, m, at)
    requires k !in m && s < |flags| && PathFull(hash, flags, k, s)
    requires !flags[Probe(|flags|, hash(k), s)].Live()
    ensures var i := Probe(|flags|, hash(k), s);
            && Represents(hash, keys[i := k], vals, flags[i := LIVE], m[k := vals[i]], at[k := s])
            && |m[k := vals[i]]| == |m| + 1
  {
    var i := Probe(|flags|, hash(k), s);
    var m' := m[k := vals[i]];
    WiderMap(hash, keys, vals, flags, m, at, k, vals[i]);
    PlaceKey(hash, keys, vals, flags, m', at, k, s);
    assert vals[i := vals[i]] == vals;
    assert m'.Keys == m.Keys + {k} && at[k := s].Keys == at.Keys + {k};
  }

  /** Only the buckets that have a flag matter: the arrays may be longer. */
  lemma SamePrefix<K, V>(hash: Hash<K>, keys: seq<K>, vals: seq<V>, keys': seq<K>, vals': seq<V>,
                         flags: seq<Flag>, m: map<K, V>, at: map<K, nat>)
    requires Shape(keys, vals, flags) && Shape(keys', vals', flags)
    requires Represents(hash, keys, vals, flags, m, at)
    requires forall i :: 0 <= i < |flags| ==> keys'[i] == keys[i] && vals'[i] == vals[i]
    ensures Represents(hash, keys', vals', flags, m, at)
  {
    forall k | k in at ensures FoundAt(hash, keys', vals', flags, m, at, k) {
      assert FoundAt(hash, keys, vals, flags, m, at, k);
    }
    forall i | 0 <= i < |flags| && flags[i].Live() ensures AtHome(hash, keys', flags, at, i) {
      assert AtHome(hash, keys, flags, at, i);
    }
  }

  // ---------------------------------------------------------------- counting buckets

  ghost function Occupied(flags: seq<Flag>): set<nat>
  {
    set i | 0 <= i < |flags| && !flags[i].empty
  }

  ghost function LiveSet(flags: seq<Flag>): set<nat>
  {
    set i | 0 <= i < |flags| && flags[i].Live()
  }

  lemma {:induction false} AllOccupied(flags: seq<Flag>)
    requires forall i :: 0 <= i < |flags| ==> !flags[i].empty
    ensures |Occupied(flags)| == |flags|
    decreases |flags|
  {
    if |flags| > 0 {
      var n := |flags| - 1;
      AllOccupied(flags[..n]);
      assert Occupied(flags) == Occupied(flags[..n]) + {n};
    }
  }

  lemma EmptyBucket(flags: seq<Flag>) returns (i: nat)
    requires |Occupied(flags)| < |flags|
    ensures i < |flags| && flags[i].empty
  {
    if forall j :: 0 <= j < |flags| ==> !flags[j].empty { AllOccupied(flags); assert false; }
    i :| 0 <= i < |flags| && flags[i].empty;
  }

  lemma CountPlace(flags: seq<Flag>, i: nat)
    requires i < |flags| && !flags[i].Live()
    ensures |LiveSet(flags[i := LIVE])| == |LiveSet(flags)| + 1
    ensures |Occupied(flags[i := LIVE])| == |Occupied(flags)| + if flags[i].empty then 1 else 0
  {
    assert LiveSet(flags[i := LIVE]) == LiveSet(flags) + {i};
    assert Occupied(flags[i := LIVE]) == Occupied(flags) + {i};
    assert i in Occupied(flags) <==> !flags[i].empty;
    assert i in Occupied(flags) ==> Occupied(flags) + {i} == Occupied(flags);
  }

  lemma CountDrop(flags: seq<Flag>, i: nat)
    requires i < |flags| && flags[i].Live()
    ensures |LiveSet(flags[i := TOMBSTONE])| == |LiveSet(flags)| - 1
    ensures Occupied(flags[i := TOMBSTONE]) == Occupied(flags)
  {
    assert LiveSet(flags[i := TOMBSTONE]) == LiveSet(flags) - {i};
  }

  lemma LiveAreOccupied(flags: seq<Flag>)
    ensures |LiveSet(flags)| <= |Occupied(flags)|
  {
    SubsetSize(LiveSet(flags), Occupied(flags));
  }

  // ---------------------------------------------------------------- visiting the entries

  /** The live buckets below n, in order. */
  ghost function LiveBuckets(flags: seq<Flag>, n: nat): (bs: seq<nat>)
    requires n <= |flags|
    ensures forall j :: 0 <= j < |bs| ==> bs[j] < n && flags[bs[j]].Live()
    ensures forall i, j :: 0 <= i < j < |bs| ==> bs[i] < bs[j]
    ensures forall i :: 0 <= i < n && flags[i].Live() ==> i in bs
  {
    if n == 0 then []
    else LiveBuckets(flags, n - 1) + if flags[n - 1].Live() then [n - 1] else []
  }

  /** The entries in the live buckets below n, in order. */
  ghost function Entries<K, V>(keys: seq<K>, vals: seq<V>, flags: seq<Flag>, n: nat): seq<(K, V)>
    requires n <= |flags| && |flags| <= |keys| && |flags| <= |vals|
  {
    if n == 0 then []
    else Entries(keys, vals, flags, n - 1) + if flags[n - 1].Live() then [(keys[n - 1], vals[n - 1])] else []
  }

  lemma {:induction false} EntriesAt<K, V>(keys: seq<K>, vals: seq<V>, flags: seq<Flag>, n: nat)
    requires n <= |flags| && |flags| <= |keys| && |flags| <= |vals|
    ensures var es, bs := Entries(keys, vals, flags, n), LiveBuckets(flags, n);
            |es| == |bs| && forall j :: 0 <= j < |bs| ==> es[j] == (keys[bs[j]], vals[bs[j]])
  {
    if n > 0 { EntriesAt(keys, vals, flags, n - 1); }
  }

  lemma {:induction false} EntriesPrefix<K, V>(keys: seq<K>, vals: seq<V>, flags: seq<Flag>, i: nat, n: nat)
    requires i <= n <= |flags| && |flags| <= |keys| && |flags| <= |vals|
    ensures Entries(keys, vals, flags, i) <= Entries(keys, vals, flags, n)
    decreases n - i
  {
    if i < n {
      EntriesPrefix(keys, vals, flags, i + 1, n);
    }
  }

  /** Going through all buckets meets every entry of the map exactly once. */
  lemma EntriesExact<K, V>(hash: Hash<K>, keys: seq<K>, vals: seq<V>, flags: seq<Flag>,
                           m: map<K, V>, at: map<K, nat>)
    requires Shape(keys, vals, flags) && Represents(hash, keys, vals, flags, m, at)
    ensures var es := Entries(keys, vals, flags, |flags|);
            && (forall j :: 0 <= j < |es| ==> es[j].0 in m && m[es[j].0] == es[j].1)
            && (forall i, j :: 0 <= i < j < |es| ==> es[i].0 != es[j].0)
            && (forall k :: k in m ==> (k, m[k]) in es)
  {
    var bs, es := LiveBuckets(flags, |flags|), Entries(keys, vals, flags, |flags|);
    EntriesAt(keys, vals, flags, |flags|);
    forall j | 0 <= j < |es| ensures es[j].0 in m && m[es[j].0] == es[j].1 {
      HitIsPresent(hash, keys, vals, flags, m, at, bs[j]);
    }
    forall i, j | 0 <= i < j < |es| ensures es[i].0 != es[j].0 {
      assert AtHome(hash, keys, flags, at, bs[i]) && AtHome(hash, keys, flags, at, bs[j]);
    }
    forall k | k in m ensures (k, m[k]) in es {
      assert FoundAt(hash, keys, vals, flags, m, at, k);
      var j :| 0 <= j < |bs| && bs[j] == Probe(|flags|, hash(k), at[k]);
      assert es[j] == (k, m[k]);
    }
  }

  // ---------------------------------------------------------------- rehashing in place

  /** Key k is still in the old live bucket slot[k]. */
  ghost predicate LeftAt<K, V>(keys: seq<K>, vals: seq<V>, src: seq<Flag>,
                               m: map<K, V>, slot: map<K, nat>, k: K)
    requires |src| <= |keys| && |src| <= |vals| && k in slot
  {
    var i := slot[k];
    k in m && i < |src| && src[i].Live() && keys[i] == k && vals[i] == m[k]
  }

  ghost predicate OldHome<K>(keys: seq<K>, src: seq<Flag>, slot: map<K, nat>, i: nat)
    requires |src| <= |keys| && i < |src|
  {
    keys[i] in slot && slot[keys[i]] == i
  }

  /** What is still to be moved: the live buckets of the old flags hold exactly the keys
      of slot, with their values in m. */
  ghost predicate OldHolds<K, V>(keys: seq<K>, vals: seq<V>, src: seq<Flag>,
                                 m: map<K, V>, slot: map<K, nat>)
    requires |src| <= |keys| && |src| <= |vals|
  {
    && (forall k {:trigger LeftAt(keys, vals, src, m, slot, k)} ::
          k in slot ==> LeftAt(keys, vals, src, m, slot, k))
    && (forall i {:trigger OldHome(keys, src, slot, i)} ::
          0 <= i < |src| && src[i].Live() ==> OldHome(keys, src, slot, i))
  }

  ghost predicate NoTombstones(flags: seq<Flag>)
  {
    forall i :: 0 <= i < |flags| ==> flags[i] == EMPTY || flags[i] == LIVE
  }

  /** The keys left under the old flags (slot) and those placed under the new flags (at)
      share the arrays and are different keys of m. */
  ghost predicate InTransit<K, V>(hash: Hash<K>, keys: seq<K>, vals: seq<V>, src: seq<Flag>,
                                  dst: seq<Flag>, m: map<K, V>, slot: map<K, nat>, at: map<K, nat>)
  {
    && Shape(keys, vals, dst) && |src| <= |keys| && |src| <= |vals|
    && OldHolds(keys, vals, src, m, slot)
    && Holds(hash, keys, vals, dst, m, at)
    && slot.Keys !! at.Keys && slot.Keys <= m.Keys && at.Keys <= m.Keys
    && NoTombstones(dst)
    && |Occupied(dst)| == |at.Keys|
  }

  /** No bucket is at once still to be moved and already placed. */
  lemma SidesDisjoint<K, V>(hash: Hash<K>, keys: seq<K>, vals: seq<V>, src: seq<Flag>,
                            dst: seq<Flag>, m: map<K, V>, slot: map<K, nat>, at: map<K, nat>, i: nat)
    requires InTransit(hash, keys, vals, src, dst, m, slot, at)
    requires i < |src| && i < |dst| && src[i].Live()
    ensures dst[i].empty
  {
    assert OldHome(keys, src, slot, i);
    assert dst[i].Live() ==> AtHome(hash, keys, dst, at, i);
  }

  lemma PickUp<K, V>(hash: Hash<K>, keys: seq<K>, vals: seq<V>, src: seq<Flag>,
                     dst: seq<Flag>, m: map<K, V>, slot: map<K, nat>, at: map<K, nat>, j: nat)
    requires InTransit(hash, keys, vals, src, dst, m, slot, at)
    requires j < |src| && src[j].Live()
    ensures keys[j] in slot && m[keys[j]] == vals[j]
    ensures InTransit(hash, keys, vals, src[j := TOMBSTONE], dst, m, slot - {keys[j]}, at)
  {
    var src', slot' := src[j := TOMBSTONE], slot - {keys[j]};
    assert OldHome(keys, src, slot, j);
    assert LeftAt(keys, vals, src, m, slot, keys[j]);
    forall i | 0 <= i < |src'| && src'[i].Live() ensures OldHome(keys, src', slot', i) {
      assert OldHome(keys, src, slot, i);
    }
    forall k | k in slot' ensures LeftAt(keys, vals, src', m, slot', k) {
      assert LeftAt(keys, vals, src, m, slot, k);
    }
  }

  lemma OverwriteOld<K, V>(keys: seq<K>, vals: seq<V>, src: seq<Flag>, m: map<K, V>,
                           slot: map<K, nat>, i: nat, k: K, v: V)
    requires |src| <= |keys| && |src| <= |vals| && OldHolds(keys, vals, src, m, slot)
    requires i < |keys| && i < |vals| && (i < |src| ==> !src[i].Live())
    ensures OldHolds(keys[i := k], vals[i := v], src, m, slot)
  {
    var keys', vals' := keys[i := k], vals[i := v];
    forall j | 0 <= j < |src| && src[j].Live() ensures OldHome(keys', src, slot, j) {
      assert OldHome(keys, src, slot, j);
    }
    forall q | q in slot ensures LeftAt(keys', vals', src, m, slot, q) {
      assert LeftAt(keys, vals, src, m, slot, q);
    }
  }

  lemma PutDown<K, V>(hash: Hash<K>, keys: seq<K>, vals: seq<V>, src: seq<Flag>,
                      dst: seq<Flag>, m: map<K, V>, slot: map<K, nat>, at: map<K, nat>, k: K, s: nat)
    requires InTransit(hash, keys, vals, src, dst, m, slot, at)
    requires k in m && k !in slot && k !in at
    requires s < |dst| && PathFull(hash, dst, k, s)
    requires dst[Probe(|dst|, hash(k), s)].empty
    requires Probe(|dst|, hash(k), s) < |src| ==> !src[Probe(|dst|, hash(k), s)].Live()
    ensures var i := Probe(|dst|, hash(k), s);
            InTransit(hash, keys[i := k], vals[i := m[k]], src, dst[i := LIVE], m, slot, at[k := s])
  {
    var i := Probe(|dst|, hash(k), s);
    PlaceKey(hash, keys, vals, dst, m, at, k, s);
    OverwriteOld(keys, vals, src, m, slot, i, k, m[k]);
    assert at[k := s].Keys == at.Keys + {k};
    CountPlace(dst, i);
  }

  /** Putting the carried key down in a bucket that an old entry holds, which becomes the
      carried entry. */
  lemma SwapDown<K, V>(hash: Hash<K>, keys: seq<K>, vals: seq<V>, src: seq<Flag>,
                       dst: seq<Flag>, m: map<K, V>, slot: map<K, nat>, at: map<K, nat>, k: K, s: nat)
    requires InTransit(hash, keys, vals, src, dst, m, slot, at)
    requires k in m && k !in slot && k !in at
    requires s < |dst| && PathFull(hash, dst, k, s)
    requires dst[Probe(|dst|, hash(k), s)].empty
    requires Probe(|dst|, hash(k), s) < |src| && src[Probe(|dst|, hash(k), s)].Live()
    ensures var i := Probe(|dst|, hash(k), s);
            && keys[i] in slot && m[keys[i]] == vals[i] && keys[i] != k
            && InTransit(hash, keys[i := k], vals[i := m[k]], src[i := TOMBSTONE], dst[i := LIVE],
                         m, slot - {keys[i]}, at[k := s])
  {
    var i := Probe(|dst|, hash(k), s);
    PickUp(hash, keys, vals, src, dst, m, slot, at, i);
    PutDown(hash, keys, vals, src[i := TOMBSTONE], dst, m, slot - {keys[i]}, at, k, s);
  }

  /** Before the first move everything is still under the old flags. */
  lemma StartMove<K, V>(hash: Hash<K>, keys: seq<K>, vals: seq<V>, src: seq<Flag>,
                        dst: seq<Flag>, m: map<K, V>, at0: map<K, nat>) returns (slot: map<K, nat>)
    requires Shape(keys, vals, dst) && |src| <= |keys| && |src| <= |vals|
    requires forall i :: 0 <= i < |dst| ==> dst[i] == EMPTY
    requires if src == [] then m == map[] else Shape(keys, vals, src) && Represents(hash, keys, vals, src, m, at0)
    ensures slot.Keys == m.Keys
    ensures InTransit(hash, keys, vals, src, dst, m, slot, map[])
  {
    if src == [] {
      slot := map[];
    } else {
      slot := map k | k in at0 :: Probe(|src|, hash(k), at0[k]);
      forall k | k in slot ensures LeftAt(keys, vals, src, m, slot, k) {
        assert FoundAt(hash, keys, vals, src, m, at0, k);
      }
      forall i | 0 <= i < |src| && src[i].Live() ensures OldHome(keys, src, slot, i) {
        assert AtHome(hash, keys, src, at0, i);
      }
    }
    assert Occupied(dst) == {};
  }

  /** When no old bucket is live any more, the new flags hold the whole map. */
  lemma EndMove<K, V>(hash: Hash<K>, keys: seq<K>, vals: seq<V>, src: seq<Flag>,
                      dst: seq<Flag>, m: map<K, V>, slot: map<K, nat>, at: map<K, nat>)
    requires InTransit(hash, keys, vals, src, dst, m, slot, at)
    requires slot.Keys + at.Keys == m.Keys
    requires forall i :: 0 <= i < |src| ==> !src[i].Live()
    ensures Represents(hash, keys, vals, dst, m, at)
    ensures |Occupied(dst)| == |m| && LiveSet(dst) == Occupied(dst)
  {
    assert forall k :: k in slot ==> LeftAt(keys, vals, src, m, slot, k);
    assert slot.Keys == {};
    assert at.Keys == m.Keys;
  }
}
