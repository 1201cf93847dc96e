/** The map over the hash table: unsigned 64-bit keys to values. */
module UrMap {
  import opened Common
  import Khash

  newtype Uint64 = x: int | 0 <= x < 0x1_0000_0000_0000_0000

  type Key = Uint64
  type Value = Uint64

  const MAGIC_HASH: nat := 0x90ABCDEF

  /** The integer hash, cut to 32 bits. */
  function Int64Hash(key: Key): nat
  {
    var k := key as bv64;
    (((k >> 33) ^ k ^ (k << 11)) & 0xFFFF_FFFF) as nat
  }

  class UrMap {
    var h: Khash.Table?<Key, Value>
    var magic: nat

    /** What the map contains; empty when it has been freed. */
    ghost function M(): map<Key, Value>
      reads this, h
    {
      if h == null then map[] else h.m
    }

    predicate IsValid()
      reads this
    {
      h != null && magic == MAGIC_HASH
    }

    ghost function Repr(): set<object>
      reads this, h
    {
      if h == null then {this} else {this} + h.Repr()
    }

    ghost predicate Consistent()
      reads this, Repr()
    {
      (h == null <==> magic != MAGIC_HASH) && (h != null ==> this !in h.Repr() && h.Valid())
    }

    constructor ()
      ensures Consistent() && IsValid() && fresh(Repr()) && M() == map[]
    {
      h := new Khash.Table(Int64Hash);
      magic := MAGIC_HASH;
    }

    /** Zero on success, minus one on a map that is not valid. */
    method Put(key: Key, value: Value) returns (ret: int)
      requires Consistent() && Khash.SizesArePrime() && |M()| <= Khash.MAX_ENTRIES
      modifies Repr()
      ensures Consistent() && fresh(Repr() - old(Repr())) && h == old(h) && magic == old(magic)
      ensures IsValid() ==> ret == 0 && M() == old(M())[key := value]
      ensures !IsValid() ==> ret == -1 && M() == old(M())
    {
      if !IsValid() { return -1; }
      var r := h.Replace(key, value);
      return if r == 0 then -1 else 0;
    }

    /** One and the value when the key is present, zero otherwise. */
    method Get(key: Key) returns (ret: int, value: Option<Value>)
      requires Consistent()
      ensures value == if key in M() then Some(M()[key]) else None
      ensures ret == if key in M() then 1 else 0
    {
      if !IsValid() { return 0, None; }
      var k := h.Get(key);
      if k != h.nBuckets && h.flags[k].Live() {
        return 1, Some(h.vals[k]);
      }
      return 0, None;
    }

    /** Remove the key; the value that the deletion callback would receive is returned. */
    method Del(key: Key) returns (ret: int, freed: Option<Value>)
      requires Consistent()
      modifies Repr()
      ensures Consistent() && Repr() == old(Repr()) && h == old(h) && magic == old(magic)
      ensures M() == old(M()) - {key}
      ensures freed == if key in old(M()) then Some(old(M())[key]) else None
      ensures ret == if key in old(M()) then 1 else 0
    {
      if !IsValid() { return 0, None; }
      var k := h.Get(key);
      if k != h.nBuckets && h.flags[k].Live() {
        ret, freed := 1, Some(h.vals[k]);
        h.Del(k);
      } else {
        ret, freed := 0, None;
        assert M() == old(M()) - {key};
      }
    }

    method Size() returns (n: nat)
      requires Consistent()
      ensures n == |M()|
    {
      n := if IsValid() then h.size else 0;
    }

    /** Call func on the entries until it returns true; every entry is visited exactly once
        unless func stops the traversal. */
    method Foreach(func: (Key, Value) -> bool) returns (ret: int, seen: seq<(Key, Value)>)
      requires Consistent()
      ensures forall j :: 0 <= j < |seen| ==> seen[j].0 in M() && M()[seen[j].0] == seen[j].1
      ensures forall i, j :: 0 <= i < j < |seen| ==> seen[i].0 != seen[j].0
      ensures ret == 0 || ret == 1
      ensures ret == 0 ==> forall k :: k in M() ==> (k, M()[k]) in seen
      ensures Khash.Stopping(func, seen, ret == 1)
    {
      if !IsValid() { return 0, []; }
      var stopped;
      seen, stopped := h.Foreach(func);
      ret := if stopped then 1 else 0;
    }
  }

  // ---------------------------------------------------------------- whole runs

  datatype Op = PutOp(key: Key, value: Value) | GetOp(key: Key) | DelOp(key: Key) | SizeOp

  datatype Answer = Code(ret: int) | Found(ret: int, value: Option<Value>) | Count(n: nat)

  /** What a mathematical map does and answers. */
  function Step(m: map<Key, Value>, op: Op): (map<Key, Value>, Answer)
  {
    match op
    case PutOp(k, v) => (m[k := v], Code(0))
    case GetOp(k) => (m, if k in m then Found(1, Some(m[k])) else Found(0, None))
    case DelOp(k) => (m - {k}, if k in m then Found(1, Some(m[k])) else Found(0, None))
    case SizeOp => (m, Count(|m|))
  }

  function Answers(m: map<Key, Value>, ops: seq<Op>): seq<Answer>
    decreases |ops|
  {
    if ops == [] then [] else [Step(m, ops[0]).1] + Answers(Step(m, ops[0]).0, ops[1..])
  }

  /** No key is put into a map that holds as many as the table can grow to. There is no bound on the
      number of operations. */
  predicate Within(m: map<Key, Value>, ops: seq<Op>)
    decreases |ops|
  {
    ops != [] ==> (ops[0].PutOp? ==> |m| <= Khash.MAX_ENTRIES) && Within(Step(m, ops[0]).0, ops[1..])
  }

  method Perform(u: UrMap, op: Op) returns (a: Answer)
    requires u.Consistent() && u.IsValid() && Khash.SizesArePrime() && (op.PutOp? ==> |u.M()| <= Khash.MAX_ENTRIES)
    modifies u.Repr()
    ensures u.Consistent() && u.IsValid() && fresh(u.Repr() - old(u.Repr()))
    ensures (u.M(), a) == Step(old(u.M()), op)
  {
    match op
    case PutOp(k, v) =>
      var r := u.Put(k, v);
      a := Code(r);
    case GetOp(k) =>
      var r, v := u.Get(k);
      a := Found(r, v);
    case DelOp(k) =>
      var r, v := u.Del(k);
      a := Found(r, v);
    case SizeOp =>
      var n := u.Size();
      a := Count(n);
  }

  /** Any sequence of operations is answered exactly as a mathematical map would answer it,
      through every tombstone, reuse and rehash on the way. */
  method RunOn(u: UrMap, ops: seq<Op>) returns (answers: seq<Answer>)
    requires u.Consistent() && u.IsValid() && Khash.SizesArePrime()
    requires Within(u.M(), ops)
    modifies u.Repr()
    ensures answers == Answers(old(u.M()), ops)
    decreases |ops|
  {
    if ops == [] { return []; }
    var a := Perform(u, ops[0]);
    var rest := RunOn(u, ops[1..]);
    answers := [a] + rest;
  }

  method Run(ops: seq<Op>) returns (answers: seq<Answer>)
    requires Khash.SizesArePrime() && Within(map[], ops)
    ensures answers == Answers(map[], ops)
  {
    var u := new UrMap();
    answers := RunOn(u, ops);
  }
}
