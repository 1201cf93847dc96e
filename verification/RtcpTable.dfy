/** The reservation map as it stands on the hash table: the table leads from a token to the number of a
    record, and the walk of the sweep is the traversal of the table. */
module RtcpTable {
  import opened Common
  import opened RtcpMap
  import UrMap
  import Khash

  const WIDTH: nat := 0x1_0000_0000_0000_0000

  type Pointers = map<UrMap.Key, UrMap.Value>

  ghost predicate InRange(m: Pointers, records: seq<Entry>)
  {
    forall k :: k in m ==> m[k] as nat < |records|
  }

  ghost predicate Has(m: Pointers, t: Token) { t < WIDTH && (t as UrMap.Key) in m }

  /** What is reserved under each token. */
  ghost function EntriesOf(m: Pointers, records: seq<Entry>): map<Token, Entry>
    requires InRange(m, records)
  {
    map t: nat | t < WIDTH && Has(m, t) :: records[m[t as UrMap.Key] as nat]
  }

  lemma EntriesPut(m: Pointers, records: seq<Entry>, k: UrMap.Key, v: UrMap.Value, e: Entry)
    requires InRange(m, records) && v as nat == |records|
    ensures InRange(m[k := v], records + [e])
    ensures EntriesOf(m[k := v], records + [e]) == EntriesOf(m, records)[k as nat := e]
  {
    var m' := m[k := v];
    forall t: nat | t < WIDTH ensures Has(m', t) <==> t == k as nat || Has(m, t) {
      assert t as UrMap.Key == k <==> t == k as nat;
    }
  }

  lemma EntriesDel(m: Pointers, records: seq<Entry>, k: UrMap.Key)
    requires InRange(m, records)
    ensures InRange(m - {k}, records)
    ensures EntriesOf(m - {k}, records) == EntriesOf(m, records) - {k as nat}
  {
    forall t: nat | t < WIDTH ensures Has(m - {k}, t) <==> t != k as nat && Has(m, t) {
      assert t as UrMap.Key == k <==> t == k as nat;
    }
  }

  type Seen = seq<(UrMap.Key, UrMap.Value)>

  /** A traversal: every entry of the table, once. */
  ghost predicate Traversal(m: Pointers, seen: Seen)
  {
    && (forall j :: 0 <= j < |seen| ==> seen[j].0 in m && m[seen[j].0] == seen[j].1)
    && (forall i, j :: 0 <= i < j < |seen| ==> seen[i].0 != seen[j].0)
    && (forall k :: k in m ==> (k, m[k]) in seen)
  }

  function Tokens(seen: Seen): (ts: seq<Token>)
    ensures |ts| == |seen|
  {
    seq(|seen|, i requires 0 <= i < |seen| => seen[i].0 as nat)
  }

  /** The traversal of the table is a walk over what is reserved. */
  lemma TraversalIsWalk(m: Pointers, records: seq<Entry>, seen: Seen)
    requires InRange(m, records) && Traversal(m, seen)
    ensures WalkOf(Tokens(seen), EntriesOf(m, records))
  {
    var ts, es := Tokens(seen), EntriesOf(m, records);
    forall t | t in ts ensures t in es {
      var i :| 0 <= i < |ts| && ts[i] == t;
      assert seen[i].0 in m && t as UrMap.Key == seen[i].0;
      assert Has(m, t);
    }
    forall t | t in es ensures t in ts {
      var k := t as UrMap.Key;
      var i :| 0 <= i < |seen| && seen[i] == (k, m[k]);
      assert ts[i] == t;
    }
  }

  class Table {
    const tokens: UrMap.UrMap
    /** The records, each under its number, which is never used again. */
    var records: seq<Entry>

    ghost function Repr(): set<object>
      reads tokens, tokens.h
    {
      {this} + tokens.Repr()
    }

    ghost predicate Valid()
      reads this, tokens, tokens.Repr()
    {
      this !in tokens.Repr() && tokens.Consistent() && tokens.IsValid() && InRange(tokens.M(), records)
    }

    ghost function Entries(): map<Token, Entry>
      requires Valid()
      reads this, tokens, tokens.Repr()
    {
      EntriesOf(tokens.M(), records)
    }

    constructor ()
      ensures Valid() && fresh(Repr()) && Entries() == map[]
    {
      tokens := new UrMap.UrMap();
      records := [];
    }

    method Put(token: UrMap.Key, socket: Socket, now: nat) returns (ret: int)
      requires Valid() && Khash.SizesArePrime() && |tokens.M()| <= Khash.MAX_ENTRIES && |records| < WIDTH
      modifies Repr()
      ensures Valid() && fresh(Repr() - old(Repr())) && ret == 0
      ensures Entries() == old(Entries())[token as nat := Entry(socket, now + TIMEOUT)]
    {
      ghost var m := tokens.M();
      var value, e := |records| as UrMap.Value, Entry(socket, now + TIMEOUT);
      EntriesPut(m, records, token, value, e);
      records := records + [e];
      ret := tokens.Put(token, value);
    }

    /** Takes a token out of the table, if it is there. */
    method Remove(token: UrMap.Key)
      requires Valid()
      modifies tokens.Repr()
      ensures Valid() && Repr() == old(Repr()) && records == old(records)
      ensures Entries() == old(Entries()) - {token as nat}
    {
      EntriesDel(tokens.M(), records, token);
      var ret, freed := tokens.Del(token);
    }

    method Find(token: UrMap.Key) returns (s: Option<Socket>)
      requires Valid()
      ensures s == if token as nat in Entries() then Some(Entries()[token as nat].socket) else None
    {
      assert token as nat in Entries() <==> Has(tokens.M(), token as nat);
      var found, value := tokens.Get(token);
      s := if found == 0 then None else Some(records[value.value as nat].socket);
    }

    method Get(token: UrMap.Key) returns (s: Option<Socket>)
      requires Valid()
      modifies tokens.Repr()
      ensures Valid() && Repr() == old(Repr())
      ensures s == if token as nat in old(Entries()) then Some(old(Entries())[token as nat].socket) else None
      ensures Entries() == old(Entries()) - {token as nat}
    {
      s := Find(token);
      if s.Some? { Remove(token); }
    }

    method Traverse() returns (seen: Seen)
      requires Valid()
      ensures Traversal(tokens.M(), seen)
    {
      var func := (k: UrMap.Key, v: UrMap.Value) => false;
      var ret;
      ret, seen := tokens.Foreach(func);
      NeverStops(func, seen, ret == 1);
    }

    /** The collecting half of a sweep. */
    method Collect(now: nat) returns (ts: seq<UrMap.Key>, ghost walk: seq<Token>)
      requires Valid()
      ensures WalkOf(walk, Entries()) && Numbers(ts) == Collected(Entries(), walk, now, |walk|)
    {
      var seen := Traverse();
      TraversalIsWalk(tokens.M(), records, seen);
      walk := Tokens(seen);
      ts := Expired(tokens.M(), records, seen, now);
    }

    /** The deleting half. */
    method RemoveAll(ts: seq<UrMap.Key>)
      requires Valid()
      modifies tokens.Repr()
      ensures Valid() && Repr() == old(Repr())
      ensures Entries() == old(Entries()) - SetOf(Numbers(ts))
    {
      ghost var es := Entries();
      assert es - SetOf(Numbers(ts[..0])) == es;
      for i := 0 to |ts|
        invariant Valid() && Repr() == old(Repr())
        invariant Entries() == es - SetOf(Numbers(ts[..i]))
      {
        Remove(ts[i]);
        OneMore(es, ts, i);
      }
      assert ts[..|ts|] == ts;
    }

    /** A whole sweep of the table keeps what has not expired, and leaves nothing expired exactly when that
        was no more than the array holds. */
    method Sweep(now: nat)
      requires Valid()
      modifies tokens.Repr()
      ensures Valid() && Repr() == old(Repr())
      ensures SweptTo(old(Entries()), Entries(), now)
    {
      ghost var es := Entries();
      var ts, walk := Collect(now);
      RemoveAll(ts);
      SweptWalk(es, Entries(), walk, ts, now);
    }
  }

  /** What a sweep makes of the reservations. */
  ghost predicate SweptTo(es: map<Token, Entry>, es': map<Token, Entry>, now: nat)
  {
    && (forall t :: t in es' ==> t in es && es'[t] == es[t])
    && (forall t :: t in es && es[t].expiry >= now ==> t in es')
    && (ExpiredIn(es', now) == {} <==> |ExpiredIn(es, now)| <= MAX_TOKENS)
  }

  lemma SweptWalk(es: map<Token, Entry>, es': map<Token, Entry>, walk: seq<Token>, ts: seq<UrMap.Key>, now: nat)
    requires WalkOf(walk, es) && Numbers(ts) == Collected(es, walk, now, |walk|) && es' == es - SetOf(Numbers(ts))
    ensures SweptTo(es, es', now)
  {
    Swept(es, es', walk, now);
  }

  lemma OneMore(es: map<Token, Entry>, ts: seq<UrMap.Key>, i: nat)
    requires i < |ts|
    ensures (es - SetOf(Numbers(ts[..i]))) - {ts[i] as nat} == es - SetOf(Numbers(ts[..i + 1]))
  {
    assert ts[..i + 1] == ts[..i] + [ts[i]];
    assert Numbers(ts[..i + 1]) == Numbers(ts[..i]) + [ts[i] as nat];
    assert SetOf(Numbers(ts[..i + 1])) == SetOf(Numbers(ts[..i])) + {ts[i] as nat};
  }

  /** The expired tokens that a traversal meets, as far as the array holds them. */
  method Expired(ghost m: Pointers, records: seq<Entry>, seen: Seen, now: nat) returns (ts: seq<UrMap.Key>)
    requires InRange(m, records) && Traversal(m, seen)
    ensures Numbers(ts) == Collected(EntriesOf(m, records), Tokens(seen), now, |seen|)
  {
    ghost var es, walk := EntriesOf(m, records), Tokens(seen);
    ts := [];
    for n := 0 to |seen|
      invariant Numbers(ts) == Collected(es, walk, now, n)
    {
      SeenIsHeld(m, records, seen, n);
      if records[seen[n].1 as nat].expiry < now && |ts| < MAX_TOKENS {
        assert Numbers(ts + [seen[n].0]) == Numbers(ts) + [walk[n]];
        ts := ts + [seen[n].0];
      }
    }
  }

  function Numbers(ts: seq<UrMap.Key>): (ns: seq<Token>)
    ensures |ns| == |ts|
  {
    seq(|ts|, i requires 0 <= i < |ts| => ts[i] as nat)
  }

  lemma NeverStops(func: (UrMap.Key, UrMap.Value) -> bool, seen: Seen, stopped: bool)
    requires Khash.Stopping(func, seen, stopped) && forall k, v :: !func(k, v)
    ensures !stopped
  {
    if seen != [] {
      var (k, v) := seen[|seen| - 1];
      assert !func(k, v);
    }
  }

  lemma SeenIsHeld(m: Pointers, records: seq<Entry>, seen: Seen, n: nat)
    requires InRange(m, records) && Traversal(m, seen) && n < |seen|
    ensures seen[n].1 as nat < |records|
    ensures var es, t := EntriesOf(m, records), Tokens(seen)[n];
            t in es && es[t] == records[seen[n].1 as nat]
  {
    assert Has(m, seen[n].0 as nat);
  }
}
