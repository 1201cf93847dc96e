/** Two trackers negotiating one option: the asker's queue, which records the remote end, the
    answerer's queue, which records its own end, and the one request that is under way between them. */
module TelnetNegotiation {
  import opened Addresses
  import opened TelnetMachine

  datatype Request = Nothing | Will | Wont | Do | Dont

  function ModeFor(r: Request): Mode
  {
    match r case Will => InWill case Wont => InWont case Do => InDo case _ => InDont
  }

  function RequestFor(verb: Byte): Request
  {
    if verb == WILL then Will else if verb == WONT then Wont else if verb == DO then Do
    else if verb == DONT then Dont else Nothing
  }

  /** The request among the events of an answer. */
  function SentBy(evs: seq<Event>): Request
  {
    if evs != [] && evs[0].Send? && |evs[0].bytes| == 3 then RequestFor(evs[0].bytes[1]) else Nothing
  }

  datatype Talk = Talk(asker: seq<Option>, answerer: seq<Option>, request: Request)

  /** The request arrives and is answered: WILL and WONT by the asker, DO and DONT by the answerer. */
  function Exchange(asking: Config, answering: Config, telopt: Byte, t: Talk): Talk
  {
    match t.request
    case Nothing => t
    case Will | Wont =>
      var (q, evs) := Negotiate(asking, ModeFor(t.request), t.asker, telopt);
      Talk(q, t.answerer, SentBy(evs))
    case Do | Dont =>
      var (q, evs) := Negotiate(answering, ModeFor(t.request), t.answerer, telopt);
      Talk(t.asker, q, SentBy(evs))
  }

  function Exchanges(asking: Config, answering: Config, telopt: Byte, t: Talk, n: nat): Talk
    decreases n
  {
    if n == 0 then t else Exchanges(asking, answering, telopt, Exchange(asking, answering, telopt, t), n - 1)
  }

  // ---------------------------------------------------------------- what matters of a queue

  /** One side: the state of the option, and whether storing a new one would wrap the queue. */
  datatype Side = Side(q: Q, wraps: bool)

  /** How a side is set up: whether it passes requests on, and whether it supports the option. */
  datatype Setup = Setup(proxy: bool, supports: bool)

  datatype View = View(asker: Side, answerer: Side, request: Request)

  function ViewOf(t: Talk, telopt: Byte): View
  {
    View(Side(GetOption(t.asker, telopt).him, Wraps(t.asker, telopt)),
         Side(GetOption(t.answerer, telopt).us, Wraps(t.answerer, telopt)), t.request)
  }

  function SetupOf(c: Config, telopt: Byte, us: bool): Setup { Setup(c.proxy, Supports(c.telopts, telopt, us)) }

  /** The answer to an offer: the state it computes and the request it sends. */
  datatype Move = Move(q: Q, sends: Request)

  function OnOffer(positive: bool, q: Q, supported: bool, yes: Request, no: Request, again: Request): Move
  {
    if positive then
      match q
      case No => if supported then Move(Yes, yes) else Move(No, no)
      case WantNo => Move(No, Nothing)
      case WantYesOp => Move(WantNo, no)
      case _ => Move(Yes, Nothing)
    else
      match q
      case Yes => Move(No, no)
      case WantNoOp => Move(WantYes, again)
      case _ => Move(No, Nothing)
  }

  /** A state that is stored, unless storing it empties the queue. */
  function Stored(s: Side, q: Q): Side
  {
    if q == s.q then s else if s.wraps then Side(No, false) else Side(q, false)
  }

  /** In the state WantNoOp an asker sends nothing after WONT, where an answerer sends WILL after DONT. */
  function Turn(asking: Setup, answering: Setup, v: View): View
  {
    match v.request
    case Nothing => v
    case Will | Wont =>
      if asking.proxy then v.(request := Nothing)
      else
        var m := OnOffer(v.request == Will, v.asker.q, asking.supports, Do, Dont, Nothing);
        View(Stored(v.asker, m.q), v.answerer, m.sends)
    case Do | Dont =>
      if answering.proxy then v.(request := Nothing)
      else
        var m := OnOffer(v.request == Do, v.answerer.q, answering.supports, Will, Wont, Will);
        View(v.asker, Stored(v.answerer, m.q), m.sends)
  }

  lemma AskerMoves(c: Config, r: Request, o: Option)
    requires r in {Will, Wont}
    ensures var m := OnOffer(r == Will, o.him, Supports(c.telopts, o.telopt, false), Do, Dont, Nothing);
            var (o', evs) := Answer(c, ModeFor(r), o);
            o' == o.(him := m.q) && SentBy(evs) == m.sends
  {
  }

  lemma AnswererMoves(c: Config, r: Request, o: Option)
    requires r in {Do, Dont}
    ensures var m := OnOffer(r == Do, o.us, Supports(c.telopts, o.telopt, true), Will, Wont, Will);
            var (o', evs) := Answer(c, ModeFor(r), o);
            o' == o.(us := m.q) && SentBy(evs) == m.sends
  {
  }

  /** A queue that has stored an option has it or is empty. */
  lemma SetNeverWraps(q: seq<Option>, telopt: Byte, us: Q, him: Q)
    ensures !Wraps(SetOption(q, telopt, us, him), telopt)
  {
    var q' := SetOption(q, telopt, us, him);
    IndexMeans(q, telopt);
    IndexMeans(q', telopt);
    if IndexOf(q, telopt) <= |q'| - 1 { assert q'[IndexOf(q, telopt)].telopt == telopt; }
  }

  /** An exchange between the queues is a turn between the views of them. */
  lemma ExchangeIsTurn(asking: Config, answering: Config, telopt: Byte, t: Talk)
    ensures ViewOf(Exchange(asking, answering, telopt, t), telopt)
         == Turn(SetupOf(asking, telopt, false), SetupOf(answering, telopt, true), ViewOf(t, telopt))
  {
    match t.request
    case Nothing =>
    case Will | Wont =>
      var o := GetOption(t.asker, telopt);
      IndexMeans(t.asker, telopt);
      AskerMoves(asking, t.request, o);
      var (o', evs) := Answer(asking, ModeFor(t.request), o);
      SetThenGet(t.asker, telopt, o'.us, o'.him, telopt);
      SetNeverWraps(t.asker, telopt, o'.us, o'.him);
    case Do | Dont =>
      var o := GetOption(t.answerer, telopt);
      IndexMeans(t.answerer, telopt);
      AnswererMoves(answering, t.request, o);
      var (o', evs) := Answer(answering, ModeFor(t.request), o);
      SetThenGet(t.answerer, telopt, o'.us, o'.him, telopt);
      SetNeverWraps(t.answerer, telopt, o'.us, o'.him);
  }

  lemma {:induction false} ExchangesAreTurns(asking: Config, answering: Config, telopt: Byte, t: Talk, n: nat)
    ensures ViewOf(Exchanges(asking, answering, telopt, t, n), telopt)
         == Turns(SetupOf(asking, telopt, false), SetupOf(answering, telopt, true), ViewOf(t, telopt), n)
    decreases n
  {
    if n != 0 {
      ExchangeIsTurn(asking, answering, telopt, t);
      ExchangesAreTurns(asking, answering, telopt, Exchange(asking, answering, telopt, t), n - 1);
    }
  }

  function Turns(asking: Setup, answering: Setup, v: View, n: nat): View
    decreases n
  {
    if n == 0 then v else Turns(asking, answering, Turn(asking, answering, v), n - 1)
  }

  /** A queue that would wrap does not have the option. */
  predicate Sound(v: View) { (v.asker.wraps ==> v.asker.q == No) && (v.answerer.wraps ==> v.answerer.q == No) }

  /** Both sides forget their first yes. */
  predicate BothForget(asking: Setup, answering: Setup, v: View)
  {
    && v.request in {Will, Do}
    && v.asker.wraps && v.answerer.wraps
    && asking.supports && answering.supports && !asking.proxy && !answering.proxy
  }

  function FourTurns(a: Setup, b: Setup, v: View): View { Turn(a, b, Turn(a, b, Turn(a, b, Turn(a, b, v)))) }

  lemma TurnsAreFour(a: Setup, b: Setup, v: View)
    ensures Turns(a, b, v, 4) == FourTurns(a, b, v)
  {
    var v1 := Turn(a, b, v);
    var v2 := Turn(a, b, v1);
    var v3 := Turn(a, b, v2);
    assert Turns(a, b, v3, 1) == Turns(a, b, Turn(a, b, v3), 0);
    assert Turns(a, b, v2, 2) == Turns(a, b, v3, 1);
    assert Turns(a, b, v1, 3) == Turns(a, b, v2, 2);
  }

  lemma WillSettles(a: Setup, b: Setup, v: View)
    requires Sound(v) && v.request == Will
    ensures FourTurns(a, b, v).request == Nothing <==> !BothForget(a, b, v)
    ensures Turn(a, b, FourTurns(a, b, v)).request == Nothing
  {
  }

  lemma WontSettles(a: Setup, b: Setup, v: View)
    requires Sound(v) && v.request in {Nothing, Wont}
    ensures FourTurns(a, b, v).request == Nothing
  {
  }

  lemma DoSettles(a: Setup, b: Setup, v: View)
    requires Sound(v) && v.request == Do
    ensures FourTurns(a, b, v).request == Nothing <==> !BothForget(a, b, v)
    ensures Turn(a, b, FourTurns(a, b, v)).request == Nothing
  {
  }

  lemma DontSettles(a: Setup, b: Setup, v: View)
    requires Sound(v) && v.request == Dont
    ensures FourTurns(a, b, v).request == Nothing
  {
  }

  lemma ViewSettles(a: Setup, b: Setup, v: View)
    requires Sound(v)
    ensures FourTurns(a, b, v).request == Nothing <==> !BothForget(a, b, v)
    ensures Turn(a, b, FourTurns(a, b, v)).request == Nothing
  {
    match v.request
    case Will => WillSettles(a, b, v);
    case Do => DoSettles(a, b, v);
    case Dont => DontSettles(a, b, v);
    case _ => WontSettles(a, b, v);
  }

  lemma ViewIsSound(t: Talk, telopt: Byte)
    ensures Sound(ViewOf(t, telopt))
  {
    IndexMeans(t.asker, telopt);
    IndexMeans(t.answerer, telopt);
  }

  lemma {:induction false} TurnLast(a: Setup, b: Setup, v: View, n: nat)
    ensures Turns(a, b, v, n + 1) == Turn(a, b, Turns(a, b, v, n))
    decreases n
  {
    if n != 0 { TurnLast(a, b, Turn(a, b, v), n - 1); }
  }

  // ---------------------------------------------------------------- settling

  /** A yes that each of the two sides computes, supporting the option, and loses in its queue. */
  predicate Forgetful(asking: Config, answering: Config, telopt: Byte, t: Talk)
  {
    && t.request in {Will, Do}
    && Wraps(t.asker, telopt) && Wraps(t.answerer, telopt)
    && Supports(asking.telopts, telopt, false) && Supports(answering.telopts, telopt, true)
    && !asking.proxy && !answering.proxy
  }

  /** With any queues on the two sides one request leads to at most four more, and to at most three
      exactly when not both queues forget. There is no negotiation loop. */
  lemma RequestSettles(asking: Config, answering: Config, telopt: Byte, t: Talk)
    ensures Exchanges(asking, answering, telopt, t, 5).request == Nothing
    ensures Exchanges(asking, answering, telopt, t, 4).request == Nothing <==> !Forgetful(asking, answering, telopt, t)
  {
    var a, b, v := SetupOf(asking, telopt, false), SetupOf(answering, telopt, true), ViewOf(t, telopt);
    ViewIsSound(t, telopt);
    ViewSettles(a, b, v);
    TurnsAreFour(a, b, v);
    TurnLast(a, b, v, 4);
    ExchangesAreTurns(asking, answering, telopt, t, 4);
    ExchangesAreTurns(asking, answering, telopt, t, 5);
  }

  // ---------------------------------------------------------------- agreement

  predicate Agree(v: View) { v.asker.q == v.answerer.q && v.asker.q in {No, Yes} }

  /** One side takes the request to heart, and the other one, a proxy or a queue that forgets, does not. */
  predicate Strays(a: Setup, b: Setup, v: View)
  {
    match v.request
    case Will =>
      v.asker.q == No && !a.proxy && a.supports && !v.asker.wraps && (b.proxy || (b.supports && v.answerer.wraps))
    case Do =>
      v.answerer.q == No && !b.proxy && b.supports && !v.answerer.wraps && (a.proxy || (a.supports && v.asker.wraps))
    case Wont => v.asker.q == Yes && !a.proxy && b.proxy
    case Dont => v.answerer.q == Yes && !b.proxy && a.proxy
    case Nothing => false
  }

  lemma WillAgrees(a: Setup, b: Setup, v: View)
    requires Sound(v) && Agree(v) && v.request in {Will, Nothing}
    ensures Agree(Turn(a, b, FourTurns(a, b, v))) <==> !Strays(a, b, v)
  {
  }

  lemma WontAgrees(a: Setup, b: Setup, v: View)
    requires Sound(v) && Agree(v) && v.request == Wont
    ensures Agree(Turn(a, b, FourTurns(a, b, v))) <==> !Strays(a, b, v)
  {
  }

  lemma DoAgrees(a: Setup, b: Setup, v: View)
    requires Sound(v) && Agree(v) && v.request == Do
    ensures Agree(Turn(a, b, FourTurns(a, b, v))) <==> !Strays(a, b, v)
  {
  }

  lemma DontAgrees(a: Setup, b: Setup, v: View)
    requires Sound(v) && Agree(v) && v.request == Dont
    ensures Agree(Turn(a, b, FourTurns(a, b, v))) <==> !Strays(a, b, v)
  {
  }

  lemma ViewAgrees(a: Setup, b: Setup, v: View)
    requires Sound(v) && Agree(v)
    ensures Agree(Turn(a, b, FourTurns(a, b, v))) <==> !Strays(a, b, v)
  {
    match v.request
    case Wont => WontAgrees(a, b, v);
    case Do => DoAgrees(a, b, v);
    case Dont => DontAgrees(a, b, v);
    case _ => WillAgrees(a, b, v);
  }

  predicate Agreed(t: Talk, telopt: Byte)
  {
    GetOption(t.asker, telopt).him == GetOption(t.answerer, telopt).us && GetOption(t.asker, telopt).him in {No, Yes}
  }

  /** A stray request, which neither side has on record: from agreement it leads back to agreement, with
      nothing left to say, exactly when neither side strays. */
  lemma StrayAgrees(asking: Config, answering: Config, telopt: Byte, t: Talk)
    requires Agreed(t, telopt)
    ensures var end := Exchanges(asking, answering, telopt, t, 5);
            && end.request == Nothing
            && (Agreed(end, telopt) <==>
                  !Strays(SetupOf(asking, telopt, false), SetupOf(answering, telopt, true), ViewOf(t, telopt)))
  {
    var a, b, v := SetupOf(asking, telopt, false), SetupOf(answering, telopt, true), ViewOf(t, telopt);
    RequestSettles(asking, answering, telopt, t);
    ViewIsSound(t, telopt);
    ViewAgrees(a, b, v);
    TurnsAreFour(a, b, v);
    TurnLast(a, b, v, 4);
    ExchangesAreTurns(asking, answering, telopt, t, 5);
  }

  /** Without proxies and with room in the queues a stray request is settled after at most three more
      requests, and agreement always returns. */
  lemma StrayRoom(asking: Config, answering: Config, telopt: Byte, t: Talk)
    requires !asking.proxy && !answering.proxy && !Wraps(t.asker, telopt) && !Wraps(t.answerer, telopt)
    ensures var end := Exchanges(asking, answering, telopt, t, 4);
            end.request == Nothing && (Agreed(t, telopt) ==> Agreed(end, telopt))
  {
    var a, b, v := SetupOf(asking, telopt, false), SetupOf(answering, telopt, true), ViewOf(t, telopt);
    RequestSettles(asking, answering, telopt, t);
    ViewIsSound(t, telopt);
    if Agreed(t, telopt) {
      ViewAgrees(a, b, v);
      ViewSettles(a, b, v);
      TurnsAreFour(a, b, v);
      ExchangesAreTurns(asking, answering, telopt, t, 4);
    }
  }

  // ---------------------------------------------------------------- requests that a tracker starts

  function VerbFor(r: Request): Byte
  {
    match r case Will => WILL case Wont => WONT case Do => DO case Dont => DONT case Nothing => 0
  }

  /** One side is told to start a request: DO and DONT are the asker's, WILL and WONT the answerer's. */
  function Begun(asking: Config, answering: Config, telopt: Byte, t: Talk, cmd: Request): Talk
  {
    match cmd
    case Nothing => t
    case Will | Wont =>
      var (q, evs) := Begin(answering, VerbFor(cmd), t.answerer, telopt);
      Talk(t.asker, q, SentBy(evs))
    case Do | Dont =>
      var (q, evs) := Begin(asking, VerbFor(cmd), t.asker, telopt);
      Talk(q, t.answerer, SentBy(evs))
  }

  function BeginSide(setup: Setup, s: Side, cmd: Request): (Side, Request)
  {
    if setup.proxy then (s, cmd)
    else
      var (q, sends) := Want(s.q, cmd in {Will, Do});
      (Stored(s, q), if sends then cmd else Nothing)
  }

  function BeginView(a: Setup, b: Setup, v: View, cmd: Request): View
  {
    match cmd
    case Nothing => v
    case Will | Wont =>
      var (s, r) := BeginSide(b, v.answerer, cmd);
      View(v.asker, s, r)
    case Do | Dont =>
      var (s, r) := BeginSide(a, v.asker, cmd);
      View(s, v.answerer, r)
  }

  /** Starting a request from the queues is starting it from the views of them. */
  lemma BegunIsView(asking: Config, answering: Config, telopt: Byte, t: Talk, cmd: Request)
    ensures ViewOf(Begun(asking, answering, telopt, t, cmd), telopt)
         == BeginView(SetupOf(asking, telopt, false), SetupOf(answering, telopt, true), ViewOf(t, telopt), cmd)
  {
    match cmd
    case Nothing =>
    case Will | Wont =>
      var o := GetOption(t.answerer, telopt);
      IndexMeans(t.answerer, telopt);
      var w := Want(o.us, cmd == Will).0;
      SetThenGet(t.answerer, telopt, w, o.him, telopt);
      SetNeverWraps(t.answerer, telopt, w, o.him);
    case Do | Dont =>
      var o := GetOption(t.asker, telopt);
      IndexMeans(t.asker, telopt);
      var w := Want(o.him, cmd == Do).0;
      SetThenGet(t.asker, telopt, o.us, w, telopt);
      SetNeverWraps(t.asker, telopt, o.us, w);
  }

  lemma BegunViewSettles(a: Setup, b: Setup, v: View, cmd: Request)
    requires Sound(v) && v.request == Nothing
    ensures Sound(BeginView(a, b, v, cmd)) && !BothForget(a, b, BeginView(a, b, v, cmd))
  {
  }

  /** A request that one of two trackers starts, in any states of theirs, leads to at most three more. */
  lemma BegunSettles(asking: Config, answering: Config, telopt: Byte, t: Talk, cmd: Request)
    requires t.request == Nothing
    ensures Exchanges(asking, answering, telopt, Begun(asking, answering, telopt, t, cmd), 4).request == Nothing
  {
    var a, b, v := SetupOf(asking, telopt, false), SetupOf(answering, telopt, true), ViewOf(t, telopt);
    ViewIsSound(t, telopt);
    BegunIsView(asking, answering, telopt, t, cmd);
    BegunViewSettles(a, b, v, cmd);
    RequestSettles(asking, answering, telopt, Begun(asking, answering, telopt, t, cmd));
  }

  /** Stray requests come from trackers: one that forgets its own request, or passes it on as a proxy, has
      sent a request that neither side has on record. */
  lemma StrayArises(asking: Config, answering: Config, telopt: Byte, t: Talk)
    requires Agreed(t, telopt) && GetOption(t.answerer, telopt).us == No
    requires answering.proxy || Wraps(t.answerer, telopt)
    ensures var begun := Begun(asking, answering, telopt, t, Will); Agreed(begun, telopt) && begun.request == Will
  {
    BegunIsView(asking, answering, telopt, t, Will);
  }

  /** The sender records the request and the receiver does not, or the other way round: one of them is a
      proxy, or the receiver turns the option on in a queue that forgets it. */
  predicate Parts(a: Setup, b: Setup, v: View, cmd: Request)
  {
    match cmd
    case Will => v.asker.q == No && PartsOn(b, v.answerer, a, v.asker)
    case Do => v.asker.q == No && PartsOn(a, v.asker, b, v.answerer)
    case Wont | Dont => v.asker.q == Yes && a.proxy != b.proxy
    case Nothing => false
  }

  predicate PartsOn(sender: Setup, from: Side, receiver: Setup, to: Side)
  {
    if sender.proxy then !receiver.proxy && receiver.supports && !to.wraps
    else !from.wraps && (receiver.proxy || (receiver.supports && to.wraps))
  }

  lemma BegunViewAgrees(a: Setup, b: Setup, v: View, cmd: Request)
    requires Sound(v) && Agree(v) && v.request == Nothing
    ensures Agree(FourTurns(a, b, BeginView(a, b, v, cmd))) <==> !Parts(a, b, v, cmd)
  {
    match cmd
    case Will =>
    case Wont =>
    case Do =>
    case Dont =>
    case Nothing =>
  }

  /** Two trackers that agree about an option agree again, after a request that one of them starts has been
      settled, exactly when they do not part. */
  lemma BegunAgrees(asking: Config, answering: Config, telopt: Byte, t: Talk, cmd: Request)
    requires Agreed(t, telopt) && t.request == Nothing
    ensures var end := Exchanges(asking, answering, telopt, Begun(asking, answering, telopt, t, cmd), 4);
            && end.request == Nothing
            && (Agreed(end, telopt) <==>
                  !Parts(SetupOf(asking, telopt, false), SetupOf(answering, telopt, true), ViewOf(t, telopt), cmd))
  {
    var a, b, v := SetupOf(asking, telopt, false), SetupOf(answering, telopt, true), ViewOf(t, telopt);
    var begun := Begun(asking, answering, telopt, t, cmd);
    ViewIsSound(t, telopt);
    BegunIsView(asking, answering, telopt, t, cmd);
    BegunSettles(asking, answering, telopt, t, cmd);
    BegunViewAgrees(a, b, v, cmd);
    TurnsAreFour(a, b, ViewOf(begun, telopt));
    ExchangesAreTurns(asking, answering, telopt, begun, 4);
  }

  // ---------------------------------------------------------------- queues that forget

  /** A tracker that supports every option from 1 to n, on both ends. */
  function Supporting(n: nat): seq<Support>
    requires n < 256
  {
    if n == 0 then [] else [Support(n, true, true)] + Supporting(n - 1)
  }

  lemma {:induction false} SupportsAll(n: nat, telopt: Byte, us: bool)
    requires 1 <= telopt <= n < 256
    ensures Supports(Supporting(n), telopt, us)
  {
    assert Supporting(n)[1..] == Supporting(n - 1);
    if telopt < n { SupportsAll(n - 1, telopt, us); }
  }

  function Tracker(): Config { Config(false, Supporting(64), (t, bs) => ([], false)) }

  /** The queue after DO for the options 1 to n, one after another, from an empty one. */
  function Filled(n: nat): seq<Option>
    requires n < 64
  {
    if n == 0 then [] else Negotiate(Tracker(), InDo, Filled(n - 1), n).0
  }

  lemma DoStores(c: Config, q: seq<Option>, telopt: Byte)
    requires !c.proxy && Supports(c.telopts, telopt, true) && IndexOf(q, telopt) == |q| && |q| < 252
    ensures Negotiate(c, InDo, q, telopt).0 == q + [Option(telopt, Yes, No), Option(0, No, No), Option(0, No, No), Option(0, No, No)]
  {
    IndexMeans(q, telopt);
  }

  predicate Upto(q: seq<Option>, n: nat) { |q| == 4 * n && forall i :: 0 <= i < |q| ==> q[i].telopt <= n }

  lemma UptoNext(q: seq<Option>, n: Byte)
    requires 0 < n < 64 && Upto(q, n - 1)
    ensures var q' := Negotiate(Tracker(), InDo, q, n).0;
            Upto(q', n) && GetOption(q', n) == Option(n, Yes, No)
  {
    IndexMeans(q, n);
    SupportsAll(64, n, true);
    DoStores(Tracker(), q, n);
    SetThenGet(q, n, Yes, No, n);
  }

  lemma {:induction false} FilledIs(n: nat)
    requires n < 64
    ensures Upto(Filled(n), n) && (n > 0 ==> GetOption(Filled(n), n) == Option(n, Yes, No))
  {
    if n != 0 {
      FilledIs(n - 1);
      UptoNext(Filled(n - 1), n);
    }
  }

  lemma FilledWraps()
    ensures Wraps(Filled(63), 64)
  {
    FilledIs(63);
    IndexMeans(Filled(63), 64);
  }

  /** The sixty-fourth option is answered with WILL, and then it and all others are off again. */
  lemma SixtyFourthForgets()
    ensures GetOption(Filled(63), 63).us == Yes
    ensures var (q, evs) := Negotiate(Tracker(), InDo, Filled(63), 64);
            && SentBy(evs) == Will
            && GetOption(q, 64).us == No
            && GetOption(q, 63).us == No
  {
    FilledIs(63);
    FilledWraps();
    SupportsAll(64, 64, true);
    WrapForgets(Tracker(), Filled(63), 64, 64);
    WrapForgets(Tracker(), Filled(63), 64, 63);
  }

  lemma WrapForgets(c: Config, q: seq<Option>, telopt: Byte, other: Byte)
    requires !c.proxy && Supports(c.telopts, telopt, true) && Wraps(q, telopt)
    ensures var (q', evs) := Negotiate(c, InDo, q, telopt);
            SentBy(evs) == Will && GetOption(q', other).us == No
  {
    IndexMeans(q, telopt);
    SetThenGet(q, telopt, Yes, No, other);
  }

  /** Two trackers that support option 64 and have 63 others: a stray WILL leads to four more requests. */
  lemma StrayFourMore()
    ensures Exchanges(Tracker(), Tracker(), 64, Talk(Filled(63), Filled(63), Will), 4).request != Nothing
  {
    FilledWraps();
    SupportsAll(64, 64, true);
    SupportsAll(64, 64, false);
    RequestSettles(Tracker(), Tracker(), 64, Talk(Filled(63), Filled(63), Will));
  }

  /** A stray WILL, when only the answerer has 63 others: both start with the option off and end in
      disagreement. */
  lemma StrayDisagrees()
    ensures var t := Talk([], Filled(63), Will);
            Agreed(t, 64) && !Agreed(Exchanges(Tracker(), Tracker(), 64, t, 5), 64)
  {
    FilledWraps();
    IndexMeans(Filled(63), 64);
    SupportsAll(64, 64, true);
    SupportsAll(64, 64, false);
    StrayAgrees(Tracker(), Tracker(), 64, Talk([], Filled(63), Will));
  }

  lemma ViewAlone(a: Setup, b: Setup)
    requires !a.proxy && a.supports && !b.proxy
    ensures var end := FourTurns(a, b, BeginView(a, b, View(Side(No, true), Side(No, false), Nothing), Will));
            end.answerer.q == Yes && end.asker.q == No
  {
  }

  lemma Alone(c: Config, telopt: Byte, q: seq<Option>)
    requires !c.proxy && Supports(c.telopts, telopt, false) && Wraps(q, telopt)
    ensures var t := Talk(q, [], Nothing);
            var end := Exchanges(c, c, telopt, Begun(c, c, telopt, t, Will), 4);
            && Agreed(t, telopt)
            && GetOption(end.answerer, telopt).us == Yes && GetOption(end.asker, telopt).him == No
  {
    var t := Talk(q, [], Nothing);
    var begun := Begun(c, c, telopt, t, Will);
    IndexMeans(q, telopt);
    BegunIsView(c, c, telopt, t, Will);
    ViewAlone(SetupOf(c, telopt, false), SetupOf(c, telopt, true));
    TurnsAreFour(SetupOf(c, telopt, false), SetupOf(c, telopt, true), ViewOf(begun, telopt));
    ExchangesAreTurns(c, c, telopt, begun, 4);
  }

  /** The asker has 63 options, the answerer none, and both have option 64 off. The answerer is told to
      turn it on: the asker agrees and forgets it. */
  lemma AnswererAlone()
    ensures var t := Talk(Filled(63), [], Nothing);
            var end := Exchanges(Tracker(), Tracker(), 64, Begun(Tracker(), Tracker(), 64, t, Will), 4);
            && Agreed(t, 64)
            && GetOption(end.answerer, 64).us == Yes && GetOption(end.asker, 64).him == No
  {
    FilledWraps();
    SupportsAll(64, 64, false);
    Alone(Tracker(), 64, Filled(63));
  }
}
