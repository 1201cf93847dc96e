/** The map from addresses to values: buckets of four slots and a list that grows. A slot whose value
    is 0 is free. */
module AddrMap {
  import opened Addresses
  import AddrHash

  const SIZE: nat := 1024
  const ARRAY: nat := 4

  datatype Elem = Elem(key: Addr, value: nat)
  type List = seq<Elem>
  type Hash = Addr -> nat

  predicate Matches(e: Elem, key: Addr) { e.value != 0 && AddrEq(e.key, key) }

  /** The first slot for a key, from an index on, or -1. */
  function Find(l: List, key: Addr, from: nat): (r: int)
    requires from <= |l|
    ensures r == -1 || (from <= r < |l| && Matches(l[r], key))
    ensures forall j :: from <= j < (if r == -1 then |l| else r) ==> !Matches(l[j], key)
    decreases |l| - from
  {
    if from == |l| then -1 else if Matches(l[from], key) then from else Find(l, key, from + 1)
  }

  /** The value of a key in a list, 0 if there is none. */
  function ValueIn(l: List, key: Addr): nat
  {
    var i := Find(l, key, 0);
    if i == -1 then 0 else l[i].value
  }

  /** Live slots have different keys, each of a known family and in its bucket. */
  ghost predicate ListOk(l: List, b: nat, hash: Hash)
  {
    && |l| >= ARRAY
    && (forall j :: 0 <= j < |l| && l[j].value != 0 ==> l[j].key.Decoded() && hash(l[j].key) == b)
    && (forall j, k :: 0 <= j < k < |l| && l[j].value != 0 && l[k].value != 0 ==> l[j].key != l[k].key)
  }

  /** A live slot is what its key is found at. */
  lemma LiveIsFound(l: List, b: nat, hash: Hash, j: nat)
    requires ListOk(l, b, hash) && j < |l| && l[j].value != 0
    ensures Find(l, l[j].key, 0) == j
  {
    assert Matches(l[j], l[j].key);
    var i := Find(l, l[j].key, 0);
    assert i != -1 && i <= j;
    assert l[i].key == l[j].key;
  }

  /** A key is written over itself or into a free slot, or added at the end. */
  predicate IsWrite(l: List, key: Addr, at: nat, value: nat, l': List)
  {
    && at <= |l|
    && (Find(l, key, 0) == -1 ==> at == |l| || l[at].value == 0)
    && (Find(l, key, 0) != -1 ==> at == Find(l, key, 0))
    && (at == |l| ==> value != 0)
    && l' == if at == |l| then l + [Elem(key, value)] else l[at := Elem(key, value)]
  }

  lemma WriteKeepsOk(l: List, b: nat, hash: Hash, at: nat, key: Addr, value: nat, l': List)
    requires ListOk(l, b, hash) && key.Decoded() && hash(key) == b && IsWrite(l, key, at, value, l')
    ensures ListOk(l', b, hash)
    ensures forall j :: 0 <= j < |l'| && j != at ==> j < |l| && l'[j] == l[j]
    ensures forall j :: 0 <= j < |l| && j != at && l[j].value != 0 ==> l[j].key != key
  {
    forall j | 0 <= j < |l| && j != at && l[j].value != 0 ensures l[j].key != key {
      LiveIsFound(l, b, hash, j);
    }
  }

  /** Writing a slot changes the value of its key alone. */
  lemma WriteSlot(l: List, b: nat, hash: Hash, at: nat, key: Addr, value: nat, l': List, other: Addr)
    requires ListOk(l, b, hash) && key.Decoded() && hash(key) == b && IsWrite(l, key, at, value, l')
    ensures ValueIn(l', other) == (if AddrEq(other, key) then value else ValueIn(l, other))
  {
    WriteKeepsOk(l, b, hash, at, key, value, l');
    var i, i' := Find(l, other, 0), Find(l', other, 0);
    if AddrEq(other, key) {
      assert value != 0 ==> Matches(l'[at], other);
      assert i' != -1 ==> i' == at;
    } else {
      assert !Matches(l'[at], other);
      assert at < |l| ==> !Matches(l[at], other);
    }
  }

  /** No slot is free. */
  predicate Full(l: List) { forall j :: 0 <= j < |l| ==> l[j].value != 0 }

  // ---------------------------------------------------------------- the table

  ghost predicate TableOk(lists: seq<List>, hash: Hash)
  {
    && |lists| == SIZE
    && (forall a :: hash(a) < SIZE)
    && (forall b :: 0 <= b < SIZE ==> ListOk(lists[b], b, hash))
  }

  ghost function Value(lists: seq<List>, hash: Hash, key: Addr): nat
    requires TableOk(lists, hash)
  {
    ValueIn(lists[hash(key)], key)
  }

  /** The table holds exactly this map. */
  ghost predicate Represents(lists: seq<List>, hash: Hash, m: map<Addr, nat>)
    requires TableOk(lists, hash)
  {
    && (forall k :: k in m ==> k.Decoded() && m[k] != 0)
    && (forall k {:trigger Value(lists, hash, k)} :: Value(lists, hash, k) == if k in m then m[k] else 0)
  }

  /** What a put or a delete makes of the map: the value 0 means absent. */
  function Update(m: map<Addr, nat>, key: Addr, value: nat): map<Addr, nat>
  {
    if value == 0 then m - {key} else m[key := value]
  }

  lemma WriteValue(lists: seq<List>, hash: Hash, m: map<Addr, nat>, at: nat, key: Addr, value: nat, l': List, k: Addr)
    requires TableOk(lists, hash) && Represents(lists, hash, m) && key.Decoded()
    requires IsWrite(lists[hash(key)], key, at, value, l')
    ensures ValueIn(lists[hash(key) := l'][hash(k)], k) == if k in Update(m, key, value) then Update(m, key, value)[k] else 0
  {
    assert Value(lists, hash, k) == if k in m then m[k] else 0;
    if hash(k) == hash(key) { WriteSlot(lists[hash(key)], hash(key), hash, at, key, value, l', k); }
  }

  lemma WriteOk(lists: seq<List>, hash: Hash, at: nat, key: Addr, value: nat, l': List)
    requires TableOk(lists, hash) && key.Decoded() && IsWrite(lists[hash(key)], key, at, value, l')
    ensures TableOk(lists[hash(key) := l'], hash)
  {
    WriteKeepsOk(lists[hash(key)], hash(key), hash, at, key, value, l');
  }

  lemma WriteTable(lists: seq<List>, hash: Hash, m: map<Addr, nat>, at: nat, key: Addr, value: nat, l': List)
    requires TableOk(lists, hash) && Represents(lists, hash, m) && key.Decoded()
    requires IsWrite(lists[hash(key)], key, at, value, l')
    ensures var lists' := lists[hash(key) := l'];
            TableOk(lists', hash) && Represents(lists', hash, Update(m, key, value))
  {
    var lists', m' := lists[hash(key) := l'], Update(m, key, value);
    WriteOk(lists, hash, at, key, value, l');
    forall k ensures Value(lists', hash, k) == if k in m' then m'[k] else 0 {
      WriteValue(lists, hash, m, at, key, value, l', k);
    }
  }

  lemma Untouched(m: map<Addr, nat>, key: Addr)
    requires key !in m
    ensures Update(m, key, 0) == m
  {
  }

  class Map {
    const hash: Hash
    var lists: seq<List>
    ghost var m: map<Addr, nat>

    ghost predicate Valid()
      reads this
    {
      TableOk(lists, hash) && Represents(lists, hash, m)
    }

    constructor (hash: Hash)
      requires forall a :: hash(a) < SIZE
      ensures Valid() && m == map[] && this.hash == hash
    {
      this.hash := hash;
      lists := seq(SIZE, i => [Elem(Unspec, 0), Elem(Unspec, 0), Elem(Unspec, 0), Elem(Unspec, 0)]);
      m := map[];
    }

    /** The slot of a key, or -1. */
    method Slot(b: nat, key: Addr) returns (at: int)
      requires b < |lists|
      ensures at == Find(lists[b], key, 0)
    {
      var i: nat := 0;
      while i < |lists[b]|
        invariant i <= |lists[b]| && Find(lists[b], key, 0) == Find(lists[b], key, i)
      {
        if Matches(lists[b][i], key) { return i; }
        i := i + 1;
      }
      return -1;
    }

    method FreeSlot(b: nat) returns (at: nat)
      requires b < |lists|
      ensures at <= |lists[b]| && (at < |lists[b]| ==> lists[b][at].value == 0)
      ensures forall j :: 0 <= j < at ==> lists[b][j].value != 0
    {
      at := 0;
      while at < |lists[b]|
        invariant at <= |lists[b]| && forall j :: 0 <= j < at ==> lists[b][j].value != 0
      {
        if lists[b][at].value == 0 { return; }
        at := at + 1;
      }
    }

    method Put(key: Addr, value: nat)
      requires Valid() && key.Decoded()
      modifies this
      ensures Valid() && m == Update(old(m), key, value)
      ensures forall b :: 0 <= b < SIZE ==> |lists[b]| == |old(lists)[b]| || (b == hash(key) && Full(old(lists)[b]))
    {
      var b := hash(key);
      var l := lists[b];
      assert Value(lists, hash, key) == if key in m then m[key] else 0;
      var at := Slot(b, key);
      if at != -1 {
        assert l[at].key == key;
        WriteTable(lists, hash, m, at, key, value, l[at := l[at].(value := value)]);
        lists := lists[b := l[at := l[at].(value := value)]];
      } else if value != 0 {
        var free := FreeSlot(b);
        var l' := if free == |l| then l + [Elem(key, value)] else l[free := Elem(key, value)];
        WriteTable(lists, hash, m, free, key, value, l');
        lists := lists[b := l'];
      } else {
        Untouched(m, key);
      }
      m := Update(m, key, value);
    }

    method Get(key: Addr) returns (found: bool, value: nat)
      requires Valid()
      ensures found == (key in m) && (found ==> value == m[key])
    {
      var at := Slot(hash(key), key);
      assert Value(lists, hash, key) == if key in m then m[key] else 0;
      found, value := at != -1, if at == -1 then 0 else lists[hash(key)][at].value;
    }

    /** Frees every slot with the key, of which there is at most one. */
    method Del(key: Addr) returns (found: bool)
      requires Valid() && key.Decoded()
      modifies this
      ensures Valid() && found == (key in old(m)) && m == Update(old(m), key, 0)
    {
      var b := hash(key);
      var l := lists[b];
      ghost var at := Find(l, key, 0);
      assert Value(lists, hash, key) == if key in m then m[key] else 0;
      var i: nat, l' := 0, l;
      found := false;
      while i < |l|
        invariant i <= |l| && found == (at != -1 && at < i)
        invariant l' == if found then l[at := l[at].(value := 0)] else l
      {
        if Matches(l'[i], key) {
          assert i == at by {
            assert l'[i] == l[i];
            LiveIsFound(l, b, hash, i);
            assert l[i].key == key;
          }
          l' := l'[i := l'[i].(value := 0)];
          found := true;
        }
        i := i + 1;
      }
      if found {
        assert l[at].key == key;
        WriteTable(lists, hash, m, at, key, 0, l');
        lists := lists[b := l'];
      } else {
        Untouched(m, key);
      }
      m := Update(m, key, 0);
    }
  
    /** The number of live slots is the number of keys. */
    method NumElements() returns (n: nat)
      requires Valid()
      ensures n == |m|
    {
      n := 0;
      var b: nat := 0;
      while b < SIZE
        invariant b <= SIZE && n == |Keys(lists, b, 0)|
      {
        var j: nat := 0;
        while j < |lists[b]|
          invariant j <= |lists[b]| && n == |Keys(lists, b, j)|
        {
          NextKey(lists, hash, b, j);
          if lists[b][j].value != 0 { n := n + 1; }
          j := j + 1;
        }
        NextList(lists, b);
        b := b + 1;
      }
      KeysAre(lists, hash, m);
    }
  }

  // ---------------------------------------------------------------- counting

  predicate LiveKey(lists: seq<List>, i: nat, j: nat, k: Addr)
  {
    i < |lists| && j < |lists[i]| && lists[i][j].value != 0 && lists[i][j].key == k
  }

  predicate Before(i: nat, j: nat, b: nat, n: nat) { i < b || (i == b && j < n) }

  /** The live keys in the lists before b and in the first n slots of list b. */
  ghost function Keys(lists: seq<List>, b: nat, n: nat): set<Addr>
  {
    set i: nat, j: nat | i < |lists| && j < |lists[i]| && Before(i, j, b, n) && LiveKey(lists, i, j, lists[i][j].key) :: lists[i][j].key
  }

  lemma NextKey(lists: seq<List>, hash: Hash, b: nat, n: nat)
    requires TableOk(lists, hash) && b < SIZE && n < |lists[b]|
    ensures |Keys(lists, b, n + 1)| == |Keys(lists, b, n)| + if lists[b][n].value != 0 then 1 else 0
  {
    var e := lists[b][n];
    var s, s' := Keys(lists, b, n), Keys(lists, b, n + 1);
    if e.value != 0 {
      assert LiveKey(lists, b, n, e.key) && Before(b, n, b, n + 1);
      forall i: nat, j: nat | i < |lists| && j < |lists[i]| && Before(i, j, b, n) && LiveKey(lists, i, j, lists[i][j].key)
        ensures lists[i][j].key != e.key
      {
        assert ListOk(lists[i], i, hash) && ListOk(lists[b], b, hash);
      }
      assert s' == s + {e.key};
    } else {
      assert s' == s;
    }
  }

  lemma NextList(lists: seq<List>, b: nat)
    requires b < |lists|
    ensures Keys(lists, b, |lists[b]|) == Keys(lists, b + 1, 0)
  {
  }

  lemma KeysAre(lists: seq<List>, hash: Hash, m: map<Addr, nat>)
    requires TableOk(lists, hash) && Represents(lists, hash, m)
    ensures Keys(lists, SIZE, 0) == m.Keys
  {
    forall k | k in Keys(lists, SIZE, 0) ensures k in m {
      var i: nat, j: nat :| i < |lists| && j < |lists[i]| && LiveKey(lists, i, j, lists[i][j].key) && lists[i][j].key == k;
      LiveIsFound(lists[i], i, hash, j);
      assert Value(lists, hash, k) == if k in m then m[k] else 0;
    }
    forall k | k in m ensures k in Keys(lists, SIZE, 0) {
      assert Value(lists, hash, k) == m[k];
      var b := hash(k);
      var j := Find(lists[b], k, 0);
      assert LiveKey(lists, b, j, k) && Before(b, j, SIZE, 0);
    }
  }

  // ---------------------------------------------------------------- whole runs

  datatype Op = PutOp(key: Addr, value: nat) | GetOp(key: Addr) | DelOp(key: Addr) | CountOp

  datatype Answer = Done | Found(found: bool, value: nat) | Count(n: nat)

  function Step(m: map<Addr, nat>, op: Op): (map<Addr, nat>, Answer)
  {
    match op
    case PutOp(k, v) => (Update(m, k, v), Done)
    case GetOp(k) => (m, if k in m then Found(true, m[k]) else Found(false, 0))
    case DelOp(k) => (Update(m, k, 0), Found(k in m, 0))
    case CountOp => (m, Count(|m|))
  }

  function Answers(m: map<Addr, nat>, ops: seq<Op>): seq<Answer>
    decreases |ops|
  {
    if ops == [] then [] else [Step(m, ops[0]).1] + Answers(Step(m, ops[0]).0, ops[1..])
  }

  predicate OfFamily(op: Op) { (op.PutOp? || op.DelOp?) ==> op.key.Decoded() }

  method Perform(t: Map, op: Op) returns (a: Answer)
    requires t.Valid() && OfFamily(op)
    modifies t
    ensures t.Valid() && (t.m, a) == Step(old(t.m), op)
  {
    match op
    case PutOp(k, v) =>
      t.Put(k, v);
      a := Done;
    case GetOp(k) =>
      var found, v := t.Get(k);
      a := Found(found, if found then v else 0);
    case DelOp(k) =>
      var found := t.Del(k);
      a := Found(found, 0);
    case CountOp =>
      var n := t.NumElements();
      a := Count(n);
  }

  /** Any run over addresses of a known family is answered as a finite map of non-zero values would. */
  method RunOn(t: Map, ops: seq<Op>) returns (answers: seq<Answer>)
    requires t.Valid() && forall i :: 0 <= i < |ops| ==> OfFamily(ops[i])
    modifies t
    ensures answers == Answers(old(t.m), ops)
    decreases |ops|
  {
    if ops == [] { return []; }
    var a := Perform(t, ops[0]);
    var rest := RunOn(t, ops[1..]);
    answers := [a] + rest;
  }

  method Run(ops: seq<Op>) returns (answers: seq<Answer>)
    requires forall i :: 0 <= i < |ops| ==> OfFamily(ops[i])
    ensures answers == Answers(map[], ops)
  {
    var t := new Map(a => AddrHash.Index(a, SIZE));
    answers := RunOn(t, ops);
  }
}
