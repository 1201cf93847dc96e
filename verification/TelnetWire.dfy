/** The negotiation of TelnetProtocol as bytes: two trackers, each of which receives what the other has
    sent, in pieces of any size. */
module TelnetWire {
  import opened Addresses
  import opened TelnetMachine
  import opened TelnetNegotiation
  import opened TelnetRoundTrip
  import opened TelnetProtocol
  import opened Telnet

  // ---------------------------------------------------------------- commands on the wire

  function Bytes(m: Msg): seq<Byte> { [IAC, VerbFor(m.verb), m.telopt] }

  /** A request that arrives as its three bytes is negotiated, and nothing else happens. */
  lemma RequestArrives(c: Config, s: Logged, m: Msg)
    requires s.m.mode == InData
    ensures var (q, evs) := Negotiate(c, ModeFor(m.verb), s.m.q, m.telopt);
            Run(c, s, Bytes(m)) == Logged(s.m.(q := q), s.log + evs)
  {
    var verb := VerbFor(m.verb);
    RunTwo(c, s, IAC, verb);
    var s2 := Run(c, s, [IAC, verb]);
    assert s.log + [] == s.log;
    RunOne(c, s2, m.telopt);
    RunAppend(c, s, [IAC, verb], [m.telopt]);
    assert [IAC, verb] + [m.telopt] == Bytes(m);
  }

  /** Any other command is reported. */
  lemma CommandArrives(c: Config, s: Logged, b: Byte)
    requires s.m.mode == InData && b !in {SB, WILL, WONT, DO, DONT, IAC}
    ensures Run(c, s, [IAC, b]) == s.(log := s.log + [Command(b)])
  {
    RunTwo(c, s, IAC, b);
    assert s.log + [] == s.log;
  }

  /** A proxy reports every request as it is, and answers none. */
  lemma ProxyReports(c: Config, s: Logged, m: Msg)
    requires c.proxy && s.m.mode == InData
    ensures Run(c, s, Bytes(m)) == s.(log := s.log + [Negotiated(VerbFor(m.verb), m.telopt)])
  {
    RequestArrives(c, s, m);
  }

  /** The request codes of RFC 854, and a subnegotiation of option 24 with the byte 1. */
  lemma Codes()
    ensures Bytes(Msg(Will, 1)) == [255, 251, 1] && Bytes(Msg(Wont, 1)) == [255, 252, 1]
    ensures Bytes(Msg(Do, 1)) == [255, 253, 1] && Bytes(Msg(Dont, 1)) == [255, 254, 1]
    ensures Framed(24, [1]) == [255, 250, 24, 1, 255, 240]
  {
    assert Escaped([1], 0) == [] && Escaped([1], 1) == [1];
  }

  /** A new tracker without options refuses WILL ECHO: it receives FF FB 01 and sends FF FE 01. */
  lemma EchoRefused(c: Config)
    requires !c.proxy && c.telopts == []
    ensures var r := Run(c, Logged(Machine(InData, [], [], 0), []), [0xFF, 0xFB, 0x01]);
            r.m == Machine(InData, [], [], 0) && SentBytes(r.log) == [0xFF, 0xFE, 0x01]
  {
    var s := Logged(Machine(InData, [], [], 0), []);
    RequestArrives(c, s, Msg(Will, 1));
    assert [] + [Reply(DONT, 1)] == [Reply(DONT, 1)];
    SentOne(Reply(DONT, 1));
  }

  // ---------------------------------------------------------------- two ends

  /** Two trackers, and how much each has heard of what the other has sent. */
  datatype Ends = Ends(a: Logged, b: Logged, heardA: nat, heardB: nat)

  /** A tracker is told to start a request, or one more byte arrives at it. */
  datatype WireAct = TellA(cmd: Verb, telopt: Byte) | TellB(cmd: Verb, telopt: Byte) | HearA | HearB

  function Told(c: Config, s: Logged, cmd: Verb, telopt: Byte): Logged
  {
    var (q, evs) := Begin(c, VerbFor(cmd), s.m.q, telopt);
    Logged(s.m.(q := q), s.log + evs)
  }

  function WireStep(ca: Config, cb: Config, e: Ends, w: WireAct): Ends
  {
    match w
    case TellA(cmd, t) => e.(a := Told(ca, e.a, cmd, t))
    case TellB(cmd, t) => e.(b := Told(cb, e.b, cmd, t))
    case HearA =>
      var sent := SentBytes(e.b.log);
      if e.heardA >= |sent| then e else e.(a := LogStep(ca, e.a, sent[e.heardA]), heardA := e.heardA + 1)
    case HearB =>
      var sent := SentBytes(e.a.log);
      if e.heardB >= |sent| then e else e.(b := LogStep(cb, e.b, sent[e.heardB]), heardB := e.heardB + 1)
  }

  function WireAfter(ca: Config, cb: Config, e: Ends, ws: seq<WireAct>): Ends
    decreases |ws|
  {
    if ws == [] then e else WireAfter(ca, cb, WireStep(ca, cb, e, ws[0]), ws[1..])
  }

  // ---------------------------------------------------------------- bytes and requests

  /** The part of a request that has arrived. */
  function Partial(mode: Mode): seq<Byte>
  {
    match mode
    case InIac => [IAC]
    case InWill => [IAC, WILL]
    case InWont => [IAC, WONT]
    case InDo => [IAC, DO]
    case InDont => [IAC, DONT]
    case _ => []
  }

  const LAST_BYTE: set<Mode> := {InWill, InWont, InDo, InDont}
  const NEGOTIATING: set<Mode> := {InData, InIac} + LAST_BYTE

  function WireOf(ms: seq<Msg>): seq<Byte>
  {
    if ms == [] then [] else Bytes(ms[0]) + WireOf(ms[1..])
  }

  lemma {:induction false} WirePosted(ms: seq<Msg>, r: Request, telopt: Byte)
    ensures WireOf(Posted(ms, r, telopt)) == WireOf(ms) + if r == Nothing then [] else Bytes(Msg(r, telopt))
  {
    if r != Nothing {
      var m := Msg(r, telopt);
      if ms == [] {
        assert [m][1..] == [];
      } else {
        assert (ms + [m])[1..] == ms[1..] + [m];
        WirePosted(ms[1..], r, telopt);
      }
    }
  }

  /** What a tracker hears is the requests under way to it: the rest of one that has begun to arrive, and
      whole ones. */
  predicate Hears(to: Logged, from: Logged, heard: nat, ms: seq<Msg>)
  {
    && to.m.mode in NEGOTIATING
    && heard <= |SentBytes(from.log)|
    && Partial(to.m.mode) + SentBytes(from.log)[heard..] == WireOf(ms)
  }

  predicate Matches(e: Ends, s: System)
  {
    e.a.m.q == s.qa && e.b.m.q == s.qb && Hears(e.a, e.b, e.heardA, s.toA) && Hears(e.b, e.a, e.heardB, s.toB)
  }

  lemma {:induction false} SentAppend(log: seq<Event>, evs: seq<Event>)
    ensures SentBytes(log + evs) == SentBytes(log) + SentBytes(evs)
  {
    if evs == [] {
      assert log + evs == log;
    } else {
      var front, last := evs[..|evs| - 1], evs[|evs| - 1];
      SentAppend(log, front);
      SentSnoc(log + front, last);
      SentSnoc(front, last);
      assert evs == front + [last];
      Regroup(log, front, [last]);
      if last.Send? { Regroup(SentBytes(log), SentBytes(front), last.bytes); }
    }
  }

  /** The bytes that a command or an answer sends are those of the request it makes. */
  predicate SendsRequest(evs: seq<Event>, telopt: Byte)
  {
    SentBytes(evs) == if SentBy(evs) == Nothing then [] else Bytes(Msg(SentBy(evs), telopt))
  }

  lemma SentOne(x: Event)
    ensures SentBytes([x]) == if x.Send? then x.bytes else []
  {
    assert [x] == [] + [x];
    SentSnoc([], x);
  }

  lemma SentTwo(x: Event, y: Event)
    requires !y.Send?
    ensures SentBytes([x, y]) == if x.Send? then x.bytes else []
  {
    assert [x, y] == [x] + [y];
    SentSnoc([x], y);
    SentOne(x);
  }

  lemma BeginSends(c: Config, cmd: Verb, q: seq<Option>, telopt: Byte)
    ensures SendsRequest(Begin(c, VerbFor(cmd), q, telopt).1, telopt)
  {
    SentOne(Reply(VerbFor(cmd), telopt));
  }

  /** At most one request, and before anything else. */
  predicate AtMostOne(evs: seq<Event>, telopt: Byte)
  {
    || evs == []
    || (&& |evs| <= 2 && (|evs| == 2 ==> !evs[1].Send?)
        && (evs[0].Send? ==> SentBy(evs) != Nothing && evs[0].bytes == Bytes(Msg(SentBy(evs), telopt))))
  }

  lemma AnswerAtMostOne(c: Config, mode: Mode, o: Option)
    requires mode in LAST_BYTE
    ensures AtMostOne(Answer(c, mode, o).1, o.telopt)
  {
  }

  lemma AnswerSends(evs: seq<Event>, telopt: Byte)
    requires AtMostOne(evs, telopt)
    ensures SendsRequest(evs, telopt)
  {
    if |evs| == 1 {
      SentOne(evs[0]);
      assert evs == [evs[0]];
    } else if |evs| == 2 {
      SentTwo(evs[0], evs[1]);
      assert evs == [evs[0], evs[1]];
    }
  }

  lemma NegotiateSends(c: Config, mode: Mode, q: seq<Option>, telopt: Byte)
    requires mode in LAST_BYTE
    ensures SendsRequest(Negotiate(c, mode, q, telopt).1, telopt)
  {
    if c.proxy {
      SentOne(Negotiated(VerbOf(mode), telopt));
    } else {
      IndexMeans(q, telopt);
      AnswerAtMostOne(c, mode, GetOption(q, telopt));
      AnswerSends(Answer(c, mode, GetOption(q, telopt)).1, telopt);
    }
  }

  /** More sent at one end is more to hear at the other. */
  lemma HearsMore(to: Logged, from: Logged, heard: nat, ms: seq<Msg>, m: Machine, evs: seq<Event>, telopt: Byte)
    requires Hears(to, from, heard, ms) && SendsRequest(evs, telopt)
    ensures Hears(to, Logged(m, from.log + evs), heard, Posted(ms, SentBy(evs), telopt))
  {
    SentAppend(from.log, evs);
    WirePosted(ms, SentBy(evs), telopt);
    var sent := SentBytes(from.log);
    assert (sent + SentBytes(evs))[heard..] == sent[heard..] + SentBytes(evs);
    Regroup(Partial(to.m.mode), sent[heard..], SentBytes(evs));
  }

  /** The next byte begins or goes on with the first request. */
  lemma NextByte(to: Logged, from: Logged, heard: nat, ms: seq<Msg>)
    requires Hears(to, from, heard, ms) && heard < |SentBytes(from.log)|
    ensures ms != [] && |Partial(to.m.mode)| < 3 && Partial(to.m.mode) == Bytes(ms[0])[..|Partial(to.m.mode)|]
    ensures SentBytes(from.log)[heard] == Bytes(ms[0])[|Partial(to.m.mode)|]
  {
    var part, rest := Partial(to.m.mode), SentBytes(from.log)[heard..];
    assert (part + rest)[|part|] == rest[0];
    assert part == (part + rest)[..|part|] && WireOf(ms)[..|part|] == Bytes(ms[0])[..|part|];
  }

  lemma Shifted(part: seq<Byte>, sent: seq<Byte>, heard: nat)
    requires heard < |sent|
    ensures part + sent[heard..] == (part + [sent[heard]]) + sent[heard + 1..]
  {
    assert sent[heard..] == [sent[heard]] + sent[heard + 1..];
    Regroup(part, [sent[heard]], sent[heard + 1..]);
  }

  /** A byte that does not complete a request. */
  lemma HearsBegin(c: Config, to: Logged, from: Logged, heard: nat, ms: seq<Msg>)
    requires Hears(to, from, heard, ms) && heard < |SentBytes(from.log)| && to.m.mode !in LAST_BYTE
    ensures var to' := LogStep(c, to, SentBytes(from.log)[heard]);
            Hears(to', from, heard + 1, ms) && to'.m.q == to.m.q && to'.log == to.log
  {
    NextByte(to, from, heard, ms);
    Shifted(Partial(to.m.mode), SentBytes(from.log), heard);
    assert to.log + [] == to.log;
  }

  /** A byte that completes one. */
  lemma HearsEnd(c: Config, to: Logged, from: Logged, heard: nat, ms: seq<Msg>)
    requires Hears(to, from, heard, ms) && heard < |SentBytes(from.log)| && to.m.mode in LAST_BYTE
    ensures ms != []
    ensures var to' := LogStep(c, to, SentBytes(from.log)[heard]);
            var (q, evs) := Negotiate(c, ModeFor(ms[0].verb), to.m.q, ms[0].telopt);
            Hears(to', from, heard + 1, ms[1..]) && to' == Logged(to.m.(mode := InData, q := q), to.log + evs)
  {
    NextByte(to, from, heard, ms);
    Shifted(Partial(to.m.mode), SentBytes(from.log), heard);
    var part, sent := Partial(to.m.mode), SentBytes(from.log);
    assert part + [sent[heard]] == Bytes(ms[0]);
    assert part[1] == VerbFor(ms[0].verb);
    assert to.m.mode == ModeFor(ms[0].verb);
    SameRest(Bytes(ms[0]), sent[heard + 1..], WireOf(ms[1..]));
  }

  lemma SameRest(a: seq<Byte>, b: seq<Byte>, c: seq<Byte>)
    requires a + b == a + c
    ensures b == c && [] + b == b
  {
    assert (a + b)[|a|..] == b && (a + c)[|a|..] == c;
  }

  // ---------------------------------------------------------------- the run of requests in a run of bytes

  /** What an act on the wire is between the trackers. */
  function ActOf(e: Ends, w: WireAct): seq<Act>
  {
    match w
    case TellA(cmd, t) => [BeginA(cmd, t)]
    case TellB(cmd, t) => [BeginB(cmd, t)]
    case HearA => if e.heardA < |SentBytes(e.b.log)| && e.a.m.mode in LAST_BYTE then [ArriveA] else []
    case HearB => if e.heardB < |SentBytes(e.a.log)| && e.b.m.mode in LAST_BYTE then [ArriveB] else []
  }

  function ActsOf(ca: Config, cb: Config, e: Ends, ws: seq<WireAct>): seq<Act>
    decreases |ws|
  {
    if ws == [] then [] else ActOf(e, ws[0]) + ActsOf(ca, cb, WireStep(ca, cb, e, ws[0]), ws[1..])
  }

  lemma TellAFollows(ca: Config, cb: Config, e: Ends, s: System, cmd: Verb, t: Byte)
    requires Matches(e, s)
    ensures Matches(WireStep(ca, cb, e, TellA(cmd, t)), TelnetProtocol.Step(ca, cb, s, BeginA(cmd, t)))
  {
    var (q, evs) := Begin(ca, VerbFor(cmd), e.a.m.q, t);
    BeginSends(ca, cmd, e.a.m.q, t);
    HearsMore(e.b, e.a, e.heardB, s.toB, e.a.m.(q := q), evs, t);
  }

  lemma TellBFollows(ca: Config, cb: Config, e: Ends, s: System, cmd: Verb, t: Byte)
    requires Matches(e, s)
    ensures Matches(WireStep(ca, cb, e, TellB(cmd, t)), TelnetProtocol.Step(ca, cb, s, BeginB(cmd, t)))
  {
    var (q, evs) := Begin(cb, VerbFor(cmd), e.b.m.q, t);
    BeginSends(cb, cmd, e.b.m.q, t);
    HearsMore(e.a, e.b, e.heardA, s.toA, e.b.m.(q := q), evs, t);
  }

  lemma ArriveAFollows(ca: Config, cb: Config, e: Ends, s: System)
    requires Matches(e, s) && e.heardA < |SentBytes(e.b.log)| && e.a.m.mode in LAST_BYTE
    ensures Matches(WireStep(ca, cb, e, HearA), TelnetProtocol.Step(ca, cb, s, ArriveA))
  {
    HearsEnd(ca, e.a, e.b, e.heardA, s.toA);
    var m := s.toA[0];
    var (q, evs) := Negotiate(ca, ModeFor(m.verb), e.a.m.q, m.telopt);
    NegotiateSends(ca, ModeFor(m.verb), e.a.m.q, m.telopt);
    HearsMore(e.b, e.a, e.heardB, s.toB, e.a.m.(mode := InData, q := q), evs, m.telopt);
  }

  lemma ArriveBFollows(ca: Config, cb: Config, e: Ends, s: System)
    requires Matches(e, s) && e.heardB < |SentBytes(e.a.log)| && e.b.m.mode in LAST_BYTE
    ensures Matches(WireStep(ca, cb, e, HearB), TelnetProtocol.Step(ca, cb, s, ArriveB))
  {
    HearsEnd(cb, e.b, e.a, e.heardB, s.toB);
    var m := s.toB[0];
    var (q, evs) := Negotiate(cb, ModeFor(m.verb), e.b.m.q, m.telopt);
    NegotiateSends(cb, ModeFor(m.verb), e.b.m.q, m.telopt);
    HearsMore(e.a, e.b, e.heardA, s.toA, e.b.m.(mode := InData, q := q), evs, m.telopt);
  }

  /** A byte that does not complete a request changes nothing between the trackers. */
  lemma PartialFollows(ca: Config, cb: Config, e: Ends, s: System, w: WireAct)
    requires Matches(e, s) && (w.HearA? || w.HearB?) && ActOf(e, w) == []
    ensures Matches(WireStep(ca, cb, e, w), s)
  {
    if w.HearA? && e.heardA < |SentBytes(e.b.log)| { HearsBegin(ca, e.a, e.b, e.heardA, s.toA); }
    if w.HearB? && e.heardB < |SentBytes(e.a.log)| { HearsBegin(cb, e.b, e.a, e.heardB, s.toB); }
  }

  lemma AfterOne(ca: Config, cb: Config, s: System, act: Act)
    ensures After(ca, cb, s, [act]) == TelnetProtocol.Step(ca, cb, s, act)
  {
    assert [act][1..] == [];
  }

  lemma WireFollows(ca: Config, cb: Config, e: Ends, s: System, w: WireAct)
    requires Matches(e, s)
    ensures Matches(WireStep(ca, cb, e, w), After(ca, cb, s, ActOf(e, w)))
  {
    match w
    case TellA(cmd, t) => TellAFollows(ca, cb, e, s, cmd, t); AfterOne(ca, cb, s, BeginA(cmd, t));
    case TellB(cmd, t) => TellBFollows(ca, cb, e, s, cmd, t); AfterOne(ca, cb, s, BeginB(cmd, t));
    case HearA =>
      if ActOf(e, w) == [] {
        PartialFollows(ca, cb, e, s, w);
      } else {
        ArriveAFollows(ca, cb, e, s);
        AfterOne(ca, cb, s, ArriveA);
      }
    case HearB =>
      if ActOf(e, w) == [] {
        PartialFollows(ca, cb, e, s, w);
      } else {
        ArriveBFollows(ca, cb, e, s);
        AfterOne(ca, cb, s, ArriveB);
      }
  }

  lemma {:induction false} AfterAppend(ca: Config, cb: Config, s: System, xs: seq<Act>, ys: seq<Act>)
    ensures After(ca, cb, s, xs + ys) == After(ca, cb, After(ca, cb, s, xs), ys)
    decreases |xs|
  {
    if xs == [] {
      assert xs + ys == ys;
    } else {
      assert (xs + ys)[1..] == xs[1..] + ys;
      AfterAppend(ca, cb, TelnetProtocol.Step(ca, cb, s, xs[0]), xs[1..], ys);
    }
  }

  /** Every run of bytes between two trackers is a run of requests between them. */
  lemma {:induction false} WireRefines(ca: Config, cb: Config, e: Ends, s: System, ws: seq<WireAct>)
    requires Matches(e, s)
    ensures Matches(WireAfter(ca, cb, e, ws), After(ca, cb, s, ActsOf(ca, cb, e, ws)))
    decreases |ws|
  {
    if ws != [] {
      var e1 := WireStep(ca, cb, e, ws[0]);
      WireFollows(ca, cb, e, s, ws[0]);
      WireRefines(ca, cb, e1, After(ca, cb, s, ActOf(e, ws[0])), ws[1..]);
      AfterAppend(ca, cb, s, ActOf(e, ws[0]), ActsOf(ca, cb, e1, ws[1..]));
    }
  }

  const NEW: Logged := Logged(Machine(InData, [], [], 0), [])
  const FRESH: Ends := Ends(NEW, NEW, 0, 0)

  predicate TellsAmong(ws: seq<WireAct>, all: set<Byte>)
  {
    forall i :: 0 <= i < |ws| && (ws[i].TellA? || ws[i].TellB?) ==> ws[i].telopt in all
  }

  lemma {:induction false} ActsAreAmong(ca: Config, cb: Config, e: Ends, ws: seq<WireAct>, all: set<Byte>)
    requires TellsAmong(ws, all)
    ensures ActsAmong(ActsOf(ca, cb, e, ws), all)
    decreases |ws|
  {
    if ws != [] { ActsAreAmong(ca, cb, WireStep(ca, cb, e, ws[0]), ws[1..], all); }
  }

  /** Everything that was sent has been heard. */
  predicate Quiet(e: Ends) { e.heardA == |SentBytes(e.b.log)| && e.heardB == |SentBytes(e.a.log)| }

  lemma QuietMeans(to: Logged, from: Logged, heard: nat, ms: seq<Msg>)
    requires Hears(to, from, heard, ms) && heard == |SentBytes(from.log)|
    ensures ms == [] && to.m.mode == InData
  {
    assert SentBytes(from.log)[heard..] == [];
  }

  /** Two new trackers that are told about at most 63 options, whose bytes have all arrived: each is ready
      for data, and about every option, in each direction, they agree exactly when no request was dropped. */
  lemma WireAgrees(ca: Config, cb: Config, ws: seq<WireAct>, all: set<Byte>, telopt: Byte)
    requires !ca.proxy && !cb.proxy && |all| <= 63 && TellsAmong(ws, all)
    requires Quiet(WireAfter(ca, cb, FRESH, ws))
    ensures var e, acts := WireAfter(ca, cb, FRESH, ws), ActsOf(ca, cb, FRESH, ws);
            var a, b := GetOption(e.a.m.q, telopt), GetOption(e.b.m.q, telopt);
            && e.a.m.mode == e.b.m.mode == InData
            && (a.him == b.us && a.him in {No, Yes} <==> !Dropped(ca, cb, START, acts, telopt))
            && (b.him == a.us && b.him in {No, Yes} <==> !Dropped(cb, ca, START, MirrorAll(acts), telopt))
  {
    var e, acts := WireAfter(ca, cb, FRESH, ws), ActsOf(ca, cb, FRESH, ws);
    WireRefines(ca, cb, FRESH, START, ws);
    var s := After(ca, cb, START, acts);
    QuietMeans(e.a, e.b, e.heardA, s.toA);
    QuietMeans(e.b, e.a, e.heardB, s.toB);
    ActsAreAmong(ca, cb, FRESH, ws, all);
    FewAgree(ca, cb, acts, all, telopt);
  }

  // ---------------------------------------------------------------- trackers

  function Seen(t: Telnet.Tracker): Logged
    reads t
  {
    Logged(t.Now(), t.log)
  }

  /** A tracker is told, or bytes arrive at it in one buffer: a number of them, or as many as there are. */
  datatype Play = TellToA(cmd: Verb, telopt: Byte) | TellToB(cmd: Verb, telopt: Byte) | ArriveAtA(n: nat) | ArriveAtB(n: nat)

  function Times(w: WireAct, n: nat): seq<WireAct> { if n == 0 then [] else Times(w, n - 1) + [w] }

  function ActsFor(move: Play): seq<WireAct>
  {
    match move
    case TellToA(cmd, t) => [TellA(cmd, t)]
    case TellToB(cmd, t) => [TellB(cmd, t)]
    case ArriveAtA(n) => Times(HearA, n)
    case ArriveAtB(n) => Times(HearB, n)
  }

  function WireActs(moves: seq<Play>, n: nat): seq<WireAct>
    requires n <= |moves|
  {
    if n == 0 then [] else WireActs(moves, n - 1) + ActsFor(moves[n - 1])
  }

  lemma {:induction false} WireAppend(ca: Config, cb: Config, e: Ends, xs: seq<WireAct>, ys: seq<WireAct>)
    ensures WireAfter(ca, cb, e, xs + ys) == WireAfter(ca, cb, WireAfter(ca, cb, e, xs), ys)
    decreases |xs|
  {
    if xs == [] {
      assert xs + ys == ys;
    } else {
      assert (xs + ys)[1..] == xs[1..] + ys;
      WireAppend(ca, cb, WireStep(ca, cb, e, xs[0]), xs[1..], ys);
    }
  }

  lemma WireOne(ca: Config, cb: Config, e: Ends, w: WireAct)
    ensures WireAfter(ca, cb, e, [w]) == WireStep(ca, cb, e, w)
  {
    assert [w][1..] == [];
  }

  /** The bytes that arrive, of those that were sent and not heard. */
  function Arriving(sent: seq<Byte>, heard: nat, n: nat): (bs: seq<Byte>)
    requires heard <= |sent|
    ensures |bs| <= n && heard + |bs| <= |sent|
  {
    if n <= |sent| - heard then sent[heard..heard + n] else sent[heard..]
  }

  /** One byte received after some others. */
  lemma OneMoreByte(c: Config, s: Logged, bs: seq<Byte>, x: Byte)
    ensures LogStep(c, Run(c, s, bs), x) == Run(c, s, bs + [x])
  {
    RunAppend(c, s, bs, [x]);
    RunOne(c, Run(c, s, bs), x);
  }

  lemma ArrivingNext(sent: seq<Byte>, heard: nat, n: nat)
    requires heard <= |sent|
    ensures var bs, bs' := Arriving(sent, heard, n), Arriving(sent, heard, n + 1);
            bs' == if heard + |bs| == |sent| then bs else bs + [sent[heard + |bs|]]
  {
  }

  lemma HearANext(ca: Config, cb: Config, e: Ends, n: nat, bs: seq<Byte>, e1: Ends)
    requires e.heardA <= |SentBytes(e.b.log)| && bs == Arriving(SentBytes(e.b.log), e.heardA, n)
    requires e1 == e.(a := Run(ca, e.a, bs), heardA := e.heardA + |bs|)
    ensures var bs' := Arriving(SentBytes(e.b.log), e.heardA, n + 1);
            WireStep(ca, cb, e1, HearA) == e.(a := Run(ca, e.a, bs'), heardA := e.heardA + |bs'|)
  {
    var sent := SentBytes(e.b.log);
    ArrivingNext(sent, e.heardA, n);
    if e1.heardA < |sent| { OneMoreByte(ca, e.a, bs, sent[e1.heardA]); }
  }

  lemma HearBNext(ca: Config, cb: Config, e: Ends, n: nat, bs: seq<Byte>, e1: Ends)
    requires e.heardB <= |SentBytes(e.a.log)| && bs == Arriving(SentBytes(e.a.log), e.heardB, n)
    requires e1 == e.(b := Run(cb, e.b, bs), heardB := e.heardB + |bs|)
    ensures var bs' := Arriving(SentBytes(e.a.log), e.heardB, n + 1);
            WireStep(ca, cb, e1, HearB) == e.(b := Run(cb, e.b, bs'), heardB := e.heardB + |bs'|)
  {
    var sent := SentBytes(e.a.log);
    ArrivingNext(sent, e.heardB, n);
    if e1.heardB < |sent| { OneMoreByte(cb, e.b, bs, sent[e1.heardB]); }
  }

  /** One buffer is its bytes one after another. */
  lemma {:induction false} BufferToA(ca: Config, cb: Config, e: Ends, n: nat)
    requires e.heardA <= |SentBytes(e.b.log)|
    ensures var bs := Arriving(SentBytes(e.b.log), e.heardA, n);
            WireAfter(ca, cb, e, Times(HearA, n)) == e.(a := Run(ca, e.a, bs), heardA := e.heardA + |bs|)
  {
    if n != 0 {
      BufferToA(ca, cb, e, n - 1);
      var e1 := WireAfter(ca, cb, e, Times(HearA, n - 1));
      WireAppend(ca, cb, e, Times(HearA, n - 1), [HearA]);
      WireOne(ca, cb, e1, HearA);
      HearANext(ca, cb, e, n - 1, Arriving(SentBytes(e.b.log), e.heardA, n - 1), e1);
    }
  }

  lemma {:induction false} BufferToB(ca: Config, cb: Config, e: Ends, n: nat)
    requires e.heardB <= |SentBytes(e.a.log)|
    ensures var bs := Arriving(SentBytes(e.a.log), e.heardB, n);
            WireAfter(ca, cb, e, Times(HearB, n)) == e.(b := Run(cb, e.b, bs), heardB := e.heardB + |bs|)
  {
    if n != 0 {
      BufferToB(ca, cb, e, n - 1);
      var e1 := WireAfter(ca, cb, e, Times(HearB, n - 1));
      WireAppend(ca, cb, e, Times(HearB, n - 1), [HearB]);
      WireOne(ca, cb, e1, HearB);
      HearBNext(ca, cb, e, n - 1, Arriving(SentBytes(e.a.log), e.heardB, n - 1), e1);
    }
  }

  method PlayOne(a: Telnet.Tracker, b: Telnet.Tracker, heardA: nat, heardB: nat, move: Play) returns (heardA': nat, heardB': nat)
    requires a != b && a.Valid() && b.Valid() && heardA <= |SentBytes(b.log)| && heardB <= |SentBytes(a.log)|
    modifies a, b
    ensures a.Valid() && b.Valid()
    ensures Ends(Seen(a), Seen(b), heardA', heardB')
         == WireAfter(a.config, b.config, old(Ends(Seen(a), Seen(b), heardA, heardB)), ActsFor(move))
  {
    ghost var e := Ends(Seen(a), Seen(b), heardA, heardB);
    heardA', heardB' := heardA, heardB;
    match move
    case TellToA(cmd, t) =>
      a.Begin(VerbFor(cmd), t);
      WireOne(a.config, b.config, e, TellA(cmd, t));
    case TellToB(cmd, t) =>
      b.Begin(VerbFor(cmd), t);
      WireOne(a.config, b.config, e, TellB(cmd, t));
    case ArriveAtA(n) =>
      BufferToA(a.config, b.config, e, n);
      var bs := Arriving(SentBytes(b.log), heardA, n);
      a.Recv(bs);
      heardA' := heardA + |bs|;
    case ArriveAtB(n) =>
      BufferToB(a.config, b.config, e, n);
      var bs := Arriving(SentBytes(a.log), heardB, n);
      b.Recv(bs);
      heardB' := heardB + |bs|;
  }

  lemma {:induction false} HeardInRange(ca: Config, cb: Config, e: Ends, ws: seq<WireAct>)
    requires e.heardA <= |SentBytes(e.b.log)| && e.heardB <= |SentBytes(e.a.log)|
    ensures var e' := WireAfter(ca, cb, e, ws);
            e'.heardA <= |SentBytes(e'.b.log)| && e'.heardB <= |SentBytes(e'.a.log)|
    decreases |ws|
  {
    if ws != [] {
      var e1 := WireStep(ca, cb, e, ws[0]);
      OnlyMoreSent(ca, cb, e, ws[0]);
      HeardInRange(ca, cb, e1, ws[1..]);
    }
  }

  lemma OnlyMoreSent(ca: Config, cb: Config, e: Ends, w: WireAct)
    ensures var e1 := WireStep(ca, cb, e, w);
            |SentBytes(e1.a.log)| >= |SentBytes(e.a.log)| && |SentBytes(e1.b.log)| >= |SentBytes(e.b.log)|
  {
    match w
    case TellA(cmd, t) => SentAppend(e.a.log, Begin(ca, VerbFor(cmd), e.a.m.q, t).1);
    case TellB(cmd, t) => SentAppend(e.b.log, Begin(cb, VerbFor(cmd), e.b.m.q, t).1);
    case HearA =>
      var sent := SentBytes(e.b.log);
      if e.heardA < |sent| { SentAppend(e.a.log, TelnetMachine.Step(ca, e.a.m, sent[e.heardA]).1); }
    case HearB =>
      var sent := SentBytes(e.a.log);
      if e.heardB < |sent| { SentAppend(e.b.log, TelnetMachine.Step(cb, e.b.m, sent[e.heardB]).1); }
  }

  /** Two new trackers do as the two ends do: every buffer one of them receives holds bytes that the other
      has sent, in their order, however they are cut. */
  method PlayAll(ca: Config, cb: Config, moves: seq<Play>)
    returns (a: Telnet.Tracker, b: Telnet.Tracker, heardA: nat, heardB: nat)
    ensures a.config == ca && b.config == cb
    ensures Ends(Seen(a), Seen(b), heardA, heardB) == WireAfter(ca, cb, FRESH, WireActs(moves, |moves|))
  {
    a := new Telnet.Tracker(ca);
    b := new Telnet.Tracker(cb);
    heardA, heardB := 0, 0;
    for n := 0 to |moves|
      invariant fresh(a) && fresh(b) && a != b && a.Valid() && b.Valid() && a.config == ca && b.config == cb
      invariant Ends(Seen(a), Seen(b), heardA, heardB) == WireAfter(ca, cb, FRESH, WireActs(moves, n))
    {
      HeardInRange(ca, cb, FRESH, WireActs(moves, n));
      heardA, heardB := PlayOne(a, b, heardA, heardB, moves[n]);
      WireAppend(ca, cb, FRESH, WireActs(moves, n), ActsFor(moves[n]));
    }
  }
}
