/** Reserved RTP/RTCP sockets (section 14.9 of RFC 5766): a socket is put under a token, is handed
    out to whoever presents the token, and is closed when nobody does so in time. The sweep collects
    expired tokens under the mutex and deletes them one by one later, so that other operations come
    in between. Times do not wrap around. */
module RtcpMap {
  import opened Common

  type Token = nat
  type Socket = nat

  const TIMEOUT: nat := 300
  const MAX_TOKENS: nat := 1024

  datatype Entry = Entry(socket: Socket, expiry: nat)
  datatype Closing = Closing(socket: Socket, expiry: nat, at: nat)

  // ---------------------------------------------------------------- the map

  /** The tokens of expired entries, in the order of the walk, as far as the array holds them. */
  function Collected(entries: map<Token, Entry>, order: seq<Token>, now: nat, n: nat): (ts: seq<Token>)
    requires n <= |order|
    ensures |ts| <= MAX_TOKENS
    ensures forall t :: t in ts ==> t in order[..n] && t in entries && entries[t].expiry < now
  {
    if n == 0 then []
    else
      var ts := Collected(entries, order, now, n - 1);
      var t := order[n - 1];
      if t in entries && entries[t].expiry < now && |ts| < MAX_TOKENS then ts + [t] else ts
  }

  /** Below the size of the array no expired entry is left out. */
  lemma {:induction false} CollectedAll(entries: map<Token, Entry>, order: seq<Token>, now: nat, n: nat)
    requires n <= |order| && |Collected(entries, order, now, n)| < MAX_TOKENS
    ensures forall i :: 0 <= i < n && order[i] in entries && entries[order[i]].expiry < now ==>
                          order[i] in Collected(entries, order, now, n)
  {
    if n != 0 {
      CollectedAll(entries, order, now, n - 1);
      var ts, ts' := Collected(entries, order, now, n - 1), Collected(entries, order, now, n);
      assert forall t :: t in ts ==> t in ts';
      if order[n - 1] in entries && entries[order[n - 1]].expiry < now { assert ts'[|ts|] == order[n - 1]; }
    }
  }

  /** A walk over the map: every token, once. */
  ghost predicate WalkOf(order: seq<Token>, entries: map<Token, Entry>)
  {
    && (forall i, j :: 0 <= i < j < |order| ==> order[i] != order[j])
    && (forall t :: t in order <==> t in entries)
  }

  function ExpiredIn(entries: map<Token, Entry>, now: nat): set<Token>
  {
    set t | t in entries && entries[t].expiry < now
  }

  /** No token is collected twice. */
  lemma {:induction false} CollectedOnce(entries: map<Token, Entry>, order: seq<Token>, now: nat, n: nat)
    requires n <= |order| && forall i, j :: 0 <= i < j < |order| ==> order[i] != order[j]
    ensures |SetOf(Collected(entries, order, now, n))| == |Collected(entries, order, now, n)|
  {
    if n != 0 {
      CollectedOnce(entries, order, now, n - 1);
      var ts, ts' := Collected(entries, order, now, n - 1), Collected(entries, order, now, n);
      assert order[n - 1] !in SetOf(ts);
      if ts' != ts { assert SetOf(ts') == SetOf(ts) + {order[n - 1]}; }
    }
  }

  /** What is left when the collected tokens are gone: nothing unexpired is missing, and nothing expired
      is left exactly when the array holds all the tokens that have expired. */
  lemma Swept(before: map<Token, Entry>, after: map<Token, Entry>, order: seq<Token>, now: nat)
    requires WalkOf(order, before)
    requires forall t :: t in after <==> t in before && t !in Collected(before, order, now, |order|)
    requires forall t :: t in after ==> after[t] == before[t]
    ensures forall t :: t in before && before[t].expiry >= now ==> t in after
    ensures ExpiredIn(after, now) == {} <==> |ExpiredIn(before, now)| <= MAX_TOKENS
  {
    var ts, expired := Collected(before, order, now, |order|), ExpiredIn(before, now);
    CollectedOnce(before, order, now, |order|);
    assert ExpiredIn(after, now) == expired - SetOf(ts);
    SubsetSize(SetOf(ts), expired);
    if |ts| < MAX_TOKENS {
      CollectedAll(before, order, now, |order|);
      forall t | t in expired ensures t in SetOf(ts) { assert t in order; }
      assert expired == SetOf(ts);
    } else if |expired| == MAX_TOKENS {
      SubsetSame(SetOf(ts), expired);
    } else {
      assert expired != SetOf(ts);
    }
  }

  /** The map as the program has it, with what it did to sockets: those it handed out and those it
      closed, and those that were put out of the map by a later put under the same token. */
  class ReservationMap {
    var entries: map<Token, Entry>
    var handed: seq<Socket>
    var closed: seq<Closing>
    var lost: seq<Socket>

    function Now(): Sockets
      reads this
    {
      Sockets(entries, handed, closed, lost)
    }

    constructor ()
      ensures Now() == Sockets(map[], [], [], [])
    {
      entries, handed, closed, lost := map[], [], [], [];
    }

    method Put(token: Token, socket: Socket, now: nat)
      modifies this
      ensures Now() == old(Now()).Put(token, socket, now)
    {
      if token in entries { lost := lost + [entries[token].socket]; }
      entries := entries[token := Entry(socket, now + TIMEOUT)];
    }

    method Get(token: Token) returns (s: Option<Socket>)
      modifies this
      ensures Now() == old(Now()).Get(token)
      ensures s == if token in old(entries) then Some(old(entries)[token].socket) else None
    {
      s := None;
      if token in entries {
        s := Some(entries[token].socket);
        handed := handed + [entries[token].socket];
        entries := entries - {token};
      }
    }

    method Collect(order: seq<Token>, now: nat) returns (ts: seq<Token>)
      ensures ts == Collected(entries, order, now, |order|)
    {
      var m := entries;
      ts := [];
      for n := 0 to |order|
        invariant ts == Collected(m, order, now, n)
      {
        var t := order[n];
        if t in m && m[t].expiry < now && |ts| < MAX_TOKENS { ts := ts + [t]; }
      }
    }

    method Delete(token: Token, now: nat)
      modifies this
      ensures Now() == old(Now()).Delete(token, now)
    {
      if token in entries {
        closed := closed + [Closing(entries[token].socket, entries[token].expiry, now)];
        entries := entries - {token};
      }
    }

    /** A sweep that nothing comes in between of: it removes what has expired, all of it exactly when
        that is no more than the array holds. */
    method Sweep(order: seq<Token>, now: nat, ghost reserved: set<Socket>)
      requires WalkOf(order, entries) && Conserved(Now(), reserved)
      modifies this
      ensures Conserved(Now(), reserved)
      ensures handed == old(handed) && lost == old(lost)
      ensures forall t :: t in entries ==> t in old(entries) && entries[t] == old(entries)[t]
      ensures forall t :: t in old(entries) && old(entries)[t].expiry >= now ==> t in entries
      ensures ExpiredIn(entries, now) == {} <==> |ExpiredIn(old(entries), now)| <= MAX_TOKENS
    {
      ghost var before := entries;
      var ts := Collect(order, now);
      var i: nat := 0;
      while i < |ts|
        invariant i <= |ts| && handed == old(handed) && lost == old(lost) && Conserved(Now(), reserved)
        invariant entries == before - SetOf(ts[..i])
      {
        DeleteOne(ts[i], now, reserved);
        assert ts[..i + 1] == ts[..i] + [ts[i]];
        i := i + 1;
      }
      assert ts[..i] == ts;
      Swept(before, entries, order, now);
    }

    method DeleteOne(token: Token, now: nat, ghost reserved: set<Socket>)
      requires Conserved(Now(), reserved)
      modifies this
      ensures Conserved(Now(), reserved)
      ensures entries == old(entries) - {token} && handed == old(handed) && lost == old(lost)
    {
      DeleteConserves(Now(), reserved, token, now);
      Delete(token, now);
    }
  }

  datatype Sockets = Sockets(entries: map<Token, Entry>, handed: seq<Socket>, closed: seq<Closing>, lost: seq<Socket>) {

    function Put(token: Token, socket: Socket, now: nat): Sockets
    {
      var lost' := if token in entries then lost + [entries[token].socket] else lost;
      this.(entries := entries[token := Entry(socket, now + TIMEOUT)], lost := lost')
    }

    function Get(token: Token): Sockets
    {
      if token in entries then this.(entries := entries - {token}, handed := handed + [entries[token].socket]) else this
    }

    function Delete(token: Token, now: nat): Sockets
    {
      if token in entries then
        var e := entries[token];
        this.(entries := entries - {token}, closed := closed + [Closing(e.socket, e.expiry, now)])
      else this
    }
  }

  // ---------------------------------------------------------------- every socket has one fate

  function Held(entries: map<Token, Entry>): set<Socket> { set t | t in entries :: entries[t].socket }

  function Closed(cs: seq<Closing>): set<Socket> { set i | 0 <= i < |cs| :: cs[i].socket }

  predicate Distinct(entries: map<Token, Entry>)
  {
    forall t, u :: t in entries && u in entries && t != u ==> entries[t].socket != entries[u].socket
  }

  predicate NoRepeats(s: seq<Socket>) { forall i, j :: 0 <= i < j < |s| ==> s[i] != s[j] }

  predicate ClosedOnce(cs: seq<Closing>) { forall i, j :: 0 <= i < j < |cs| ==> cs[i].socket != cs[j].socket }

  function SetOf(s: seq<Socket>): set<Socket> { set x | x in s }

  /** Each reserved socket is exactly one of held, handed out once, closed once, or lost once. */
  ghost predicate Conserved(s: Sockets, reserved: set<Socket>)
  {
    && Distinct(s.entries) && NoRepeats(s.handed) && ClosedOnce(s.closed) && NoRepeats(s.lost)
    && Held(s.entries) !! SetOf(s.handed) !! Closed(s.closed) !! SetOf(s.lost)
    && reserved == Held(s.entries) + SetOf(s.handed) + Closed(s.closed) + SetOf(s.lost)
  }

  lemma HeldRemove(m: map<Token, Entry>, t: Token)
    requires t in m && Distinct(m)
    ensures Held(m - {t}) == Held(m) - {m[t].socket} && Distinct(m - {t})
  {
    forall x | x in Held(m) - {m[t].socket} ensures x in Held(m - {t}) {
      var u :| u in m && m[u].socket == x;
      assert u in m - {t} && (m - {t})[u].socket == x;
    }
  }

  lemma HeldAdd(m: map<Token, Entry>, t: Token, e: Entry)
    requires t !in m && Distinct(m) && e.socket !in Held(m)
    ensures Held(m[t := e]) == Held(m) + {e.socket} && Distinct(m[t := e])
  {
    var m' := m[t := e];
    assert t in m' && m'[t] == e;
    forall x | x in Held(m) ensures x in Held(m') {
      var u :| u in m && m[u].socket == x;
      assert u in m' && m'[u].socket == x;
    }
    forall u | u in m ensures m[u].socket != e.socket { assert m[u].socket in Held(m); }
  }

  lemma SetOfSnoc(s: seq<Socket>, x: Socket)
    ensures SetOf(s + [x]) == SetOf(s) + {x}
    ensures NoRepeats(s) && x !in SetOf(s) ==> NoRepeats(s + [x])
  {
  }

  lemma ClosedSnoc(cs: seq<Closing>, c: Closing)
    ensures Closed(cs + [c]) == Closed(cs) + {c.socket}
    ensures ClosedOnce(cs) && c.socket !in Closed(cs) ==> ClosedOnce(cs + [c])
  {
    var cs' := cs + [c];
    assert cs'[|cs|] == c;
    forall x | x in Closed(cs) ensures x in Closed(cs') {
      var i :| 0 <= i < |cs| && cs[i].socket == x;
      assert cs'[i].socket == x;
    }
  }

  lemma PutConserves(s: Sockets, reserved: set<Socket>, t: Token, x: Socket, now: nat)
    requires Conserved(s, reserved) && x !in reserved
    ensures Conserved(s.Put(t, x, now), reserved + {x})
  {
    var e := Entry(x, now + TIMEOUT);
    if t in s.entries {
      var y := s.entries[t].socket;
      assert y in Held(s.entries);
      HeldRemove(s.entries, t);
      HeldAdd(s.entries - {t}, t, e);
      assert (s.entries - {t})[t := e] == s.entries[t := e];
      SetOfSnoc(s.lost, y);
    } else {
      HeldAdd(s.entries, t, e);
    }
  }

  lemma GetConserves(s: Sockets, reserved: set<Socket>, t: Token)
    requires Conserved(s, reserved)
    ensures Conserved(s.Get(t), reserved)
  {
    if t in s.entries {
      assert s.entries[t].socket in Held(s.entries);
      HeldRemove(s.entries, t);
      SetOfSnoc(s.handed, s.entries[t].socket);
    }
  }

  lemma DeleteConserves(s: Sockets, reserved: set<Socket>, t: Token, now: nat)
    requires Conserved(s, reserved)
    ensures Conserved(s.Delete(t, now), reserved)
  {
    if t in s.entries {
      var e := s.entries[t];
      assert e.socket in Held(s.entries);
      HeldRemove(s.entries, t);
      ClosedSnoc(s.closed, Closing(e.socket, e.expiry, now));
    }
  }

  // ---------------------------------------------------------------- runs

  /** Put, get, the collecting half of a sweep and each single deletion of its other half are atomic;
      they interleave in any order. */
  datatype Event = Tick(seconds: nat) | Put(token: Token, socket: Socket) | Get(token: Token)
                 | Collect(order: seq<Token>) | Delete

  datatype State = State(s: Sockets, now: nat, pending: seq<Token>, reserved: set<Socket>)

  const START := State(Sockets(map[], [], [], []), 0, [], {})

  /** A socket is reserved once, a sweep starts when the one before has ended, and its walk is one
      over the map. */
  ghost predicate Enabled(st: State, e: Event)
  {
    match e
    case Put(_, x) => x !in st.reserved
    case Collect(order) => st.pending == [] && WalkOf(order, st.s.entries)
    case Delete => st.pending != []
    case _ => true
  }

  function Step(st: State, e: Event): State
  {
    match e
    case Tick(d) => st.(now := st.now + d)
    case Put(t, x) => st.(s := st.s.Put(t, x, st.now), reserved := st.reserved + {x})
    case Get(t) => st.(s := st.s.Get(t))
    case Collect(order) => st.(pending := Collected(st.s.entries, order, st.now, |order|))
    case Delete =>
      if st.pending == [] then st
      else st.(s := st.s.Delete(st.pending[0], st.now), pending := st.pending[1..])
  }

  function Run(es: seq<Event>, n: nat): State
    requires n <= |es|
  {
    if n == 0 then START else Step(Run(es, n - 1), es[n - 1])
  }

  ghost predicate EnabledAt(es: seq<Event>, i: nat)
    requires i < |es|
  {
    Enabled(Run(es, i), es[i])
  }

  ghost predicate IsRun(es: seq<Event>)
  {
    forall i: nat {:trigger EnabledAt(es, i)} :: i < |es| ==> EnabledAt(es, i)
  }

  lemma StepConserves(st: State, e: Event)
    requires Conserved(st.s, st.reserved) && Enabled(st, e)
    ensures Conserved(Step(st, e).s, Step(st, e).reserved)
  {
    match e
    case Put(t, x) => PutConserves(st.s, st.reserved, t, x, st.now);
    case Get(t) => GetConserves(st.s, st.reserved, t);
    case Delete => DeleteConserves(st.s, st.reserved, st.pending[0], st.now);
    case _ =>
  }

  /** In every state of every run each reserved socket has exactly one fate. */
  lemma {:induction false} RunConserves(es: seq<Event>, n: nat)
    requires IsRun(es) && n <= |es|
    ensures Conserved(Run(es, n).s, Run(es, n).reserved)
  {
    if n == 0 {
      assert Held(map[]) == {};
    } else {
      RunConserves(es, n - 1);
      assert EnabledAt(es, n - 1);
      StepConserves(Run(es, n - 1), es[n - 1]);
    }
  }

  /** A token that nothing is held under and that no sweep is about to delete. */
  predicate Unused(st: State, t: Token) { t !in st.s.entries && t !in st.pending }

  ghost predicate UnusedAt(es: seq<Event>, i: nat)
    requires i < |es|
  {
    es[i].Put? ==> Unused(Run(es, i), es[i].token)
  }

  ghost predicate UnusedTokens(es: seq<Event>)
  {
    forall i: nat {:trigger UnusedAt(es, i)} :: i < |es| ==> UnusedAt(es, i)
  }

  /** Nothing is lost, and what the sweep has closed or is about to close had expired. */
  ghost predicate Orderly(st: State)
  {
    && st.s.lost == []
    && (forall t :: t in st.pending && t in st.s.entries ==> st.s.entries[t].expiry < st.now)
    && (forall i :: 0 <= i < |st.s.closed| ==> st.s.closed[i].expiry < st.s.closed[i].at)
  }

  lemma StepOrderly(st: State, e: Event)
    requires Orderly(st) && Enabled(st, e) && (e.Put? ==> Unused(st, e.token))
    ensures Orderly(Step(st, e))
  {
    match e
    case Delete =>
      var st' := Step(st, e);
      assert st.pending[0] in st.pending;
      forall i | 0 <= i < |st'.s.closed| ensures st'.s.closed[i].expiry < st'.s.closed[i].at {
        if i < |st.s.closed| { assert st'.s.closed[i] == st.s.closed[i]; }
      }
    case _ =>
  }

  lemma {:induction false} RunOrderly(es: seq<Event>, n: nat)
    requires IsRun(es) && UnusedTokens(es) && n <= |es|
    ensures Orderly(Run(es, n))
  {
    if n != 0 {
      RunOrderly(es, n - 1);
      assert EnabledAt(es, n - 1) && UnusedAt(es, n - 1);
      StepOrderly(Run(es, n - 1), es[n - 1]);
    }
  }

  /** With unused tokens each reserved socket is held, or handed out once, or closed once and not
      before it expired. */
  lemma UnusedRunConserves(es: seq<Event>)
    requires IsRun(es) && UnusedTokens(es)
    ensures var st := Run(es, |es|);
            && st.reserved == Held(st.s.entries) + SetOf(st.s.handed) + Closed(st.s.closed)
            && Held(st.s.entries) !! SetOf(st.s.handed) !! Closed(st.s.closed)
            && NoRepeats(st.s.handed) && ClosedOnce(st.s.closed)
            && forall i :: 0 <= i < |st.s.closed| ==> st.s.closed[i].expiry < st.s.closed[i].at
  {
    RunConserves(es, |es|);
    RunOrderly(es, |es|);
  }

  // ---------------------------------------------------------------- used tokens

  function Deletes(st: State, n: nat): State
    decreases n
  {
    if n == 0 then st else Deletes(Step(st, Delete), n - 1)
  }

  /** A put under a token in use goes wrong: what was held is lost, or the new reservation is closed
      when the sweep comes to it, with its whole time still to run. */
  lemma {:induction false} UsedTokenFails(st: State, t: Token, x: Socket, k: nat)
    requires !Unused(st, t)
    requires t in st.pending ==> k < |st.pending| && st.pending[k] == t && t !in st.pending[..k]
    ensures t in st.s.entries ==> Step(st, Put(t, x)).s.lost == st.s.lost + [st.s.entries[t].socket]
    ensures t in st.pending ==> Closing(x, st.now + TIMEOUT, st.now) in Deletes(Step(st, Put(t, x)), k + 1).s.closed
  {
    if t in st.pending { ClosedSoon(Step(st, Put(t, x)), t, k); }
  }

  lemma {:induction false} ClosedSoon(st: State, t: Token, k: nat)
    requires k < |st.pending| && st.pending[k] == t && t !in st.pending[..k] && t in st.s.entries
    ensures Closing(st.s.entries[t].socket, st.s.entries[t].expiry, st.now) in Deletes(st, k + 1).s.closed
    decreases k
  {
    var st' := Step(st, Delete);
    if k == 0 {
      assert Deletes(st, 1) == Deletes(st', 0) == st';
      assert st'.s.closed[|st.s.closed|] == Closing(st.s.entries[t].socket, st.s.entries[t].expiry, st.now);
    } else {
      assert st.pending[0] == st.pending[..k][0] && st.pending[0] != t;
      assert st'.pending[..k - 1] == st.pending[1..k];
      assert forall u :: u in st.pending[1..k] ==> u in st.pending[..k];
      ClosedSoon(st', t, k - 1);
    }
  }

  // ---------------------------------------------------------------- more than the array holds

  const MANY: nat := MAX_TOKENS + 1

  predicate Counts(ts: seq<Token>, n: nat) { |ts| == n && forall i :: 0 <= i < n ==> ts[i] == i }

  function Upto(n: nat): (ts: seq<Token>)
    ensures Counts(ts, n)
  {
    if n == 0 then [] else Upto(n - 1) + [n - 1]
  }

  /** So many sockets are put under different tokens, all of them expire, and a sweep goes over them. */
  function ManyAt(walk: seq<Token>, i: nat): Event
  {
    if i < MANY then Put(i, i) else if i == MANY then Tick(TIMEOUT + 1) else if i == MANY + 1 then Collect(walk) else Delete
  }

  ghost predicate Many(es: seq<Event>, walk: seq<Token>)
  {
    && Counts(walk, MANY)
    && |es| == MANY + 2 + MAX_TOKENS
    && forall i :: 0 <= i < |es| ==> es[i] == ManyAt(walk, i)
  }

  function ManyEvents(walk: seq<Token>, n: nat): (es: seq<Event>)
    ensures |es| == n && forall i :: 0 <= i < n ==> es[i] == ManyAt(walk, i)
  {
    if n == 0 then [] else ManyEvents(walk, n - 1) + [ManyAt(walk, n - 1)]
  }

  function EntriesIn(from: nat, to: nat): map<Token, Entry> { map i: nat | from <= i < to :: Entry(i, TIMEOUT) }

  lemma {:induction false} ManyPut(es: seq<Event>, walk: seq<Token>, n: nat)
    requires Many(es, walk) && n <= MANY
    ensures var st := Run(es, n);
            && st.s.entries == EntriesIn(0, n) && st.now == 0 && st.pending == []
            && forall x :: x in st.reserved ==> x < n
  {
    if n != 0 {
      ManyPut(es, walk, n - 1);
      assert es[n - 1] == Put(n - 1, n - 1);
      assert EntriesIn(0, n - 1)[n - 1 := Entry(n - 1, TIMEOUT)] == EntriesIn(0, n);
    }
  }

  /** When everything has expired, the walk is collected as far as the array holds it. */
  lemma {:induction false} AllCollected(entries: map<Token, Entry>, order: seq<Token>, now: nat, n: nat)
    requires n <= |order| && forall t :: t in order ==> t in entries && entries[t].expiry < now
    ensures Collected(entries, order, now, n) == order[..if n < MAX_TOKENS then n else MAX_TOKENS]
  {
    if n != 0 {
      AllCollected(entries, order, now, n - 1);
      var t := order[n - 1];
      assert t in order;
      if n <= MAX_TOKENS { assert order[..n] == order[..n - 1] + [t]; }
    }
  }

  lemma {:induction false} ManyDeleted(es: seq<Event>, walk: seq<Token>, k: nat)
    requires Many(es, walk) && k <= MAX_TOKENS
    ensures var st := Run(es, MANY + 2 + k);
            st.s.entries == EntriesIn(k, MANY) && st.now == TIMEOUT + 1 && st.pending == walk[k..MAX_TOKENS]
  {
    if k == 0 {
      ManyPut(es, walk, MANY);
      AllCollected(EntriesIn(0, MANY), walk, TIMEOUT + 1, MANY);
      assert es[MANY] == Tick(TIMEOUT + 1) && es[MANY + 1] == Collect(walk);
      assert Run(es, MANY + 1) == Step(Run(es, MANY), es[MANY]);
    } else {
      ManyDeleted(es, walk, k - 1);
      var st := Run(es, MANY + 2 + (k - 1));
      assert es[MANY + 1 + k] == Delete && Run(es, MANY + 2 + k) == Step(st, Delete);
      assert st.pending[0] == walk[k - 1] == k - 1 && st.pending[1..] == walk[k..MAX_TOKENS];
      assert EntriesIn(k - 1, MANY) - {k - 1} == EntriesIn(k, MANY);
    }
  }

  lemma WalkOfMany(walk: seq<Token>)
    requires Counts(walk, MANY)
    ensures WalkOf(walk, EntriesIn(0, MANY))
  {
    forall t | t in EntriesIn(0, MANY) ensures t in walk { assert walk[t] == t; }
  }

  lemma ManyEnabled(es: seq<Event>, walk: seq<Token>, i: nat)
    requires Many(es, walk) && i < |es|
    ensures EnabledAt(es, i)
  {
    if i < MANY {
      ManyPut(es, walk, i);
    } else if i == MANY + 1 {
      ManyPut(es, walk, MANY);
      assert es[MANY] == Tick(TIMEOUT + 1);
      WalkOfMany(walk);
    } else if i > MANY + 1 {
      ManyDeleted(es, walk, i - MANY - 2);
    }
  }

  /** A run of 1025 puts under different tokens, the time in which they all expire and one whole sweep: the
      last of them is left in the map, expired. */
  lemma OneLeftBehind() returns (es: seq<Event>, walk: seq<Token>)
    ensures Many(es, walk) && IsRun(es)
    ensures var st := Run(es, |es|);
            st.pending == [] && st.s.entries == map[1024 := Entry(1024, 300)] && st.now == 301
  {
    walk := Upto(MANY);
    es := ManyEvents(walk, MANY + 2 + MAX_TOKENS);
    forall i: nat | i < |es| ensures EnabledAt(es, i) { ManyEnabled(es, walk, i); }
    ManyDeleted(es, walk, MAX_TOKENS);
    assert EntriesIn(MAX_TOKENS, MANY) == map[1024 := Entry(1024, 300)];
  }
}
