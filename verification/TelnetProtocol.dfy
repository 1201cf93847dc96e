/** Two trackers and the requests under way between them, in both directions and about any options, in
    every order in which requests are started and arrive (the option negotiation of RFC 1143). */
module TelnetProtocol {
  import opened Addresses
  import opened TelnetMachine
  import opened TelnetNegotiation

  type Verb = r: Request | r != Nothing witness Will

  datatype Msg = Msg(verb: Verb, telopt: Byte)

  datatype System = System(qa: seq<Option>, qb: seq<Option>, toA: seq<Msg>, toB: seq<Msg>)

  /** A tracker is told to start a request, or the next request arrives at it. */
  datatype Act = BeginA(cmd: Verb, telopt: Byte) | BeginB(cmd: Verb, telopt: Byte) | ArriveA | ArriveB

  function Posted(channel: seq<Msg>, r: Request, telopt: Byte): seq<Msg>
  {
    if r == Nothing then channel else channel + [Msg(r, telopt)]
  }

  function Step(ca: Config, cb: Config, s: System, act: Act): System
  {
    match act
    case BeginA(cmd, t) =>
      var (q, evs) := Begin(ca, VerbFor(cmd), s.qa, t);
      s.(qa := q, toB := Posted(s.toB, SentBy(evs), t))
    case BeginB(cmd, t) =>
      var (q, evs) := Begin(cb, VerbFor(cmd), s.qb, t);
      s.(qb := q, toA := Posted(s.toA, SentBy(evs), t))
    case ArriveA =>
      if s.toA == [] then s
      else
        var m := s.toA[0];
        var (q, evs) := Negotiate(ca, ModeFor(m.verb), s.qa, m.telopt);
        s.(qa := q, toA := s.toA[1..], toB := Posted(s.toB, SentBy(evs), m.telopt))
    case ArriveB =>
      if s.toB == [] then s
      else
        var m := s.toB[0];
        var (q, evs) := Negotiate(cb, ModeFor(m.verb), s.qb, m.telopt);
        s.(qb := q, toB := s.toB[1..], toA := Posted(s.toA, SentBy(evs), m.telopt))
  }

  function After(ca: Config, cb: Config, s: System, acts: seq<Act>): System
    decreases |acts|
  {
    if acts == [] then s else After(ca, cb, Step(ca, cb, s, acts[0]), acts[1..])
  }

  /** The option that an act is about. */
  function About(s: System, act: Act): Byte
  {
    match act
    case BeginA(_, t) => t
    case BeginB(_, t) => t
    case ArriveA => if s.toA == [] then 0 else s.toA[0].telopt
    case ArriveB => if s.toB == [] then 0 else s.toB[0].telopt
  }

  /** No queue is emptied by an act: a queue that would wrap is not written. */
  predicate Roomy(ca: Config, cb: Config, s: System, act: Act)
  {
    var s', t := Step(ca, cb, s, act), About(s, act);
    (s'.qa == s.qa || !Wraps(s.qa, t)) && (s'.qb == s.qb || !Wraps(s.qb, t))
  }

  predicate AllRoomy(ca: Config, cb: Config, s: System, acts: seq<Act>)
    decreases |acts|
  {
    acts == [] || (Roomy(ca, cb, s, acts[0]) && AllRoomy(ca, cb, Step(ca, cb, s, acts[0]), acts[1..]))
  }

  // ---------------------------------------------------------------- one line of it

  /** One option, with A asking and B answering: the state at each end, and the requests about it under way
      to the answerer (DO and DONT) and back (WILL and WONT). */
  datatype Line = Line(asker: Q, answerer: Q, out: seq<Request>, back: seq<Request>)

  predicate OnLine(m: Msg, telopt: Byte, asks: bool) { m.telopt == telopt && (m.verb in {Do, Dont} <==> asks) }

  function Picked(channel: seq<Msg>, telopt: Byte, asks: bool): seq<Request>
  {
    if channel == [] then []
    else (if OnLine(channel[0], telopt, asks) then [channel[0].verb] else []) + Picked(channel[1..], telopt, asks)
  }

  function LineOf(s: System, telopt: Byte): Line
  {
    Line(GetOption(s.qa, telopt).him, GetOption(s.qb, telopt).us, Picked(s.toB, telopt, true), Picked(s.toA, telopt, false))
  }

  datatype LineAct = Idle | AskerWants(on: bool) | AnswererWants(on: bool) | AskerHears | AnswererHears

  function Added(rs: seq<Request>, r: Request): seq<Request> { if r == Nothing then rs else rs + [r] }

  function LineStep(supA: bool, supB: bool, l: Line, act: LineAct): Line
  {
    match act
    case Idle => l
    case AskerWants(on) =>
      var (q, sends) := Want(l.asker, on);
      l.(asker := q, out := Added(l.out, if !sends then Nothing else if on then Do else Dont))
    case AnswererWants(on) =>
      var (q, sends) := Want(l.answerer, on);
      l.(answerer := q, back := Added(l.back, if !sends then Nothing else if on then Will else Wont))
    case AskerHears =>
      if l.back == [] then l
      else
        var m := OnOffer(l.back[0] == Will, l.asker, supA, Do, Dont, Nothing);
        l.(asker := m.q, back := l.back[1..], out := Added(l.out, m.sends))
    case AnswererHears =>
      if l.out == [] then l
      else
        var m := OnOffer(l.out[0] == Do, l.answerer, supB, Will, Wont, Will);
        l.(answerer := m.q, out := l.out[1..], back := Added(l.back, m.sends))
  }

  /** What an act is on the line of an option. */
  function OnThe(s: System, act: Act, telopt: Byte): LineAct
  {
    match act
    case BeginA(cmd, t) => if t == telopt && cmd in {Do, Dont} then AskerWants(cmd == Do) else Idle
    case BeginB(cmd, t) => if t == telopt && cmd in {Will, Wont} then AnswererWants(cmd == Will) else Idle
    case ArriveA => if s.toA != [] && OnLine(s.toA[0], telopt, false) then AskerHears else Idle
    case ArriveB => if s.toB != [] && OnLine(s.toB[0], telopt, true) then AnswererHears else Idle
  }

  lemma {:induction false} PickedPosted(channel: seq<Msg>, r: Request, t: Byte, telopt: Byte, asks: bool)
    ensures Picked(Posted(channel, r, t), telopt, asks) ==
              if r != Nothing && OnLine(Msg(r, t), telopt, asks) then Picked(channel, telopt, asks) + [r]
              else Picked(channel, telopt, asks)
  {
    if r != Nothing {
      if channel == [] {
        assert [Msg(r, t)][1..] == [];
      } else {
        assert (channel + [Msg(r, t)])[1..] == channel[1..] + [Msg(r, t)];
        PickedPosted(channel[1..], r, t, telopt, asks);
      }
    }
  }

  // ---------------------------------------------------------------- what an act does to one tracker

  /** What an act on an option leaves of a queue: the option has the new states, and no other has changed. */
  ghost predicate Becomes(q: seq<Option>, q': seq<Option>, o: Option)
  {
    GetOption(q', o.telopt) == o && forall t :: t != o.telopt ==> GetOption(q', t) == GetOption(q, t)
  }

  lemma SetBecomes(q: seq<Option>, q': seq<Option>, o: Option)
    requires q' == if o == GetOption(q, o.telopt) then q else SetOption(q, o.telopt, o.us, o.him)
    requires q' == q || !Wraps(q, o.telopt)
    ensures Becomes(q, q', o)
  {
    if q' != q {
      forall t ensures GetOption(q', t) == if t == o.telopt then o else GetOption(q, t) {
        SetThenGet(q, o.telopt, o.us, o.him, t);
      }
    } else if o != GetOption(q, o.telopt) {
      SetThenGet(q, o.telopt, o.us, o.him, o.telopt);
      assert !Wraps(q, o.telopt) || q' == [];
      SetIsSeen(q, o);
    }
  }

  /** A store that leaves the queue as it was has stored what was there. */
  lemma SetIsSeen(q: seq<Option>, o: Option)
    requires SetOption(q, o.telopt, o.us, o.him) == q
    ensures GetOption(q, o.telopt) == o
  {
    IndexMeans(q, o.telopt);
  }

  lemma BeginDoes(c: Config, cmd: Verb, q: seq<Option>, t: Byte)
    requires !c.proxy
    ensures var (q', evs) := Begin(c, VerbFor(cmd), q, t);
            var o := GetOption(q, t);
            var us := cmd in {Will, Wont};
            var (w, sends) := Want(if us then o.us else o.him, cmd in {Will, Do});
            && (q' == q || !Wraps(q, t) ==> Becomes(q, q', if us then o.(us := w) else o.(him := w)))
            && SentBy(evs) == if sends then cmd else Nothing
  {
    var (q', evs) := Begin(c, VerbFor(cmd), q, t);
    var o := GetOption(q, t);
    IndexMeans(q, t);
    var us := cmd in {Will, Wont};
    var w := Want(if us then o.us else o.him, cmd in {Will, Do}).0;
    if q' == q || !Wraps(q, t) { SetBecomes(q, q', if us then o.(us := w) else o.(him := w)); }
  }

  function Heard(c: Config, r: Verb, o: Option): Move
  {
    if r in {Will, Wont} then OnOffer(r == Will, o.him, Supports(c.telopts, o.telopt, false), Do, Dont, Nothing)
    else OnOffer(r == Do, o.us, Supports(c.telopts, o.telopt, true), Will, Wont, Will)
  }

  lemma NegotiateDoes(c: Config, r: Verb, q: seq<Option>, t: Byte)
    requires !c.proxy
    ensures var (q', evs) := Negotiate(c, ModeFor(r), q, t);
            var o := GetOption(q, t);
            var m := Heard(c, r, o);
            && (q' == q || !Wraps(q, t) ==> Becomes(q, q', if r in {Will, Wont} then o.(him := m.q) else o.(us := m.q)))
            && SentBy(evs) == m.sends
  {
    var (q', evs) := Negotiate(c, ModeFor(r), q, t);
    var o := GetOption(q, t);
    IndexMeans(q, t);
    if r in {Will, Wont} { AskerMoves(c, r, o); } else { AnswererMoves(c, r, o); }
    var m := Heard(c, r, o);
    if q' == q || !Wraps(q, t) { SetBecomes(q, q', if r in {Will, Wont} then o.(him := m.q) else o.(us := m.q)); }
  }

  lemma SendsTheOther(c: Config, r: Verb, o: Option)
    ensures Heard(c, r, o).sends != Nothing ==> (Heard(c, r, o).sends in {Do, Dont} <==> r in {Will, Wont})
  {
  }

  // ---------------------------------------------------------------- the system and its lines

  lemma BeginAIsLine(ca: Config, cb: Config, s: System, act: Act, telopt: Byte)
    requires act.BeginA? && !ca.proxy && Roomy(ca, cb, s, act)
    ensures LineOf(Step(ca, cb, s, act), telopt)
         == LineStep(Supports(ca.telopts, telopt, false), Supports(cb.telopts, telopt, true), LineOf(s, telopt), OnThe(s, act, telopt))
  {
    BeginDoes(ca, act.cmd, s.qa, act.telopt);
    var sent := SentBy(Begin(ca, VerbFor(act.cmd), s.qa, act.telopt).1);
    PickedPosted(s.toB, sent, act.telopt, telopt, true);
    IndexMeans(s.qa, act.telopt);
  }

  lemma BeginBIsLine(ca: Config, cb: Config, s: System, act: Act, telopt: Byte)
    requires act.BeginB? && !cb.proxy && Roomy(ca, cb, s, act)
    ensures LineOf(Step(ca, cb, s, act), telopt)
         == LineStep(Supports(ca.telopts, telopt, false), Supports(cb.telopts, telopt, true), LineOf(s, telopt), OnThe(s, act, telopt))
  {
    BeginDoes(cb, act.cmd, s.qb, act.telopt);
    var sent := SentBy(Begin(cb, VerbFor(act.cmd), s.qb, act.telopt).1);
    PickedPosted(s.toA, sent, act.telopt, telopt, false);
    IndexMeans(s.qb, act.telopt);
  }

  lemma ArriveAIsLine(ca: Config, cb: Config, s: System, telopt: Byte)
    requires !ca.proxy && Roomy(ca, cb, s, ArriveA)
    ensures LineOf(Step(ca, cb, s, ArriveA), telopt)
         == LineStep(Supports(ca.telopts, telopt, false), Supports(cb.telopts, telopt, true), LineOf(s, telopt), OnThe(s, ArriveA, telopt))
  {
    if s.toA != [] {
      var m := s.toA[0];
      NegotiateDoes(ca, m.verb, s.qa, m.telopt);
      var o := GetOption(s.qa, m.telopt);
      IndexMeans(s.qa, m.telopt);
      SendsTheOther(ca, m.verb, o);
      PickedPosted(s.toB, Heard(ca, m.verb, o).sends, m.telopt, telopt, true);
    }
  }

  lemma ArriveBIsLine(ca: Config, cb: Config, s: System, telopt: Byte)
    requires !cb.proxy && Roomy(ca, cb, s, ArriveB)
    ensures LineOf(Step(ca, cb, s, ArriveB), telopt)
         == LineStep(Supports(ca.telopts, telopt, false), Supports(cb.telopts, telopt, true), LineOf(s, telopt), OnThe(s, ArriveB, telopt))
  {
    if s.toB != [] {
      var m := s.toB[0];
      NegotiateDoes(cb, m.verb, s.qb, m.telopt);
      var o := GetOption(s.qb, m.telopt);
      IndexMeans(s.qb, m.telopt);
      SendsTheOther(cb, m.verb, o);
      PickedPosted(s.toA, Heard(cb, m.verb, o).sends, m.telopt, telopt, false);
    }
  }

  /** A step of the two trackers is, on each line, a step of that line or nothing at all. */
  lemma StepIsLine(ca: Config, cb: Config, s: System, act: Act, telopt: Byte)
    requires !ca.proxy && !cb.proxy && Roomy(ca, cb, s, act)
    ensures LineOf(Step(ca, cb, s, act), telopt)
         == LineStep(Supports(ca.telopts, telopt, false), Supports(cb.telopts, telopt, true), LineOf(s, telopt), OnThe(s, act, telopt))
  {
    match act
    case BeginA(_, _) => BeginAIsLine(ca, cb, s, act, telopt);
    case BeginB(_, _) => BeginBIsLine(ca, cb, s, act, telopt);
    case ArriveA => ArriveAIsLine(ca, cb, s, telopt);
    case ArriveB => ArriveBIsLine(ca, cb, s, telopt);
  }

  // ---------------------------------------------------------------- in step

  datatype Kind = Off | On | Entering | Leaving

  function KindOf(q: Q): Kind
  {
    match q
    case No => Off
    case Yes => On
    case WantYes => Entering
    case WantYesOp => Entering
    case WantNo => Leaving
    case WantNoOp => Leaving
  }

  predicate Waiting(q: Q) { KindOf(q) in {Entering, Leaving} }

  predicate UnderWay(l: Line, out: seq<Request>, back: seq<Request>) { l.out == out && l.back == back }

  /** The two ends and the requests under way fit together. */
  predicate InStep(l: Line)
  {
    match (KindOf(l.asker), KindOf(l.answerer))
    case (Off, Off) => UnderWay(l, [], [])
    case (Off, On) => false
    case (Off, Entering) => UnderWay(l, [], [Will]) || UnderWay(l, [Dont], [])
    case (Off, Leaving) => UnderWay(l, [Dont], [])
    case (On, Off) => false
    case (On, On) => UnderWay(l, [], [])
    case (On, Entering) => UnderWay(l, [Do], [])
    case (On, Leaving) => UnderWay(l, [], [Wont])
    case (Entering, Off) => UnderWay(l, [Do], []) || UnderWay(l, [], [Wont])
    case (Entering, On) => UnderWay(l, [], [Will])
    case (Entering, Entering) => UnderWay(l, [Do], [Will]) || UnderWay(l, [Dont, Do], []) || UnderWay(l, [], [Wont, Will])
    case (Entering, Leaving) => UnderWay(l, [Dont, Do], []) || UnderWay(l, [], [Will, Wont])
    case (Leaving, Off) => UnderWay(l, [], [Wont])
    case (Leaving, On) => UnderWay(l, [Dont], [])
    case (Leaving, Entering) => UnderWay(l, [Do, Dont], []) || UnderWay(l, [], [Wont, Will])
    case (Leaving, Leaving) => UnderWay(l, [Dont], [Wont])
  }

  /** One end waits for an answer that will not come. */
  predicate OutOfStep(l: Line)
  {
    match (KindOf(l.asker), KindOf(l.answerer))
    case (Off, Entering) => UnderWay(l, [], [])
    case (Off, Leaving) => UnderWay(l, [], [])
    case (On, Entering) => UnderWay(l, [], [])
    case (Entering, Off) => UnderWay(l, [], [])
    case (Entering, On) => UnderWay(l, [], [])
    case (Leaving, Off) => UnderWay(l, [], [])
    case (Entering, Entering) => UnderWay(l, [Do], []) || UnderWay(l, [], [Will])
    case (Entering, Leaving) => UnderWay(l, [Do], []) || UnderWay(l, [Dont], []) || UnderWay(l, [], [Wont])
    case (Leaving, Entering) => UnderWay(l, [Dont], []) || UnderWay(l, [], [Will])
    case _ => false
  }

  /** WONT arrives at an asker that has changed its mind about turning the option off: it should now ask
      for it again, and says nothing. */
  predicate Drops(l: Line, act: LineAct)
  {
    act.AskerHears? && l.back != [] && l.back[0] == Wont && l.asker == WantNoOp
  }

  lemma AskerWantsKeeps(supA: bool, supB: bool, l: Line, on: bool)
    ensures InStep(l) ==> InStep(LineStep(supA, supB, l, AskerWants(on)))
    ensures OutOfStep(l) ==> OutOfStep(LineStep(supA, supB, l, AskerWants(on)))
  {
  }

  lemma AnswererWantsKeeps(supA: bool, supB: bool, l: Line, on: bool)
    ensures InStep(l) ==> InStep(LineStep(supA, supB, l, AnswererWants(on)))
    ensures OutOfStep(l) ==> OutOfStep(LineStep(supA, supB, l, AnswererWants(on)))
  {
  }

  lemma AskerHearsInStep(supA: bool, supB: bool, l: Line)
    requires InStep(l)
    ensures var l' := LineStep(supA, supB, l, AskerHears);
            if Drops(l, AskerHears) then OutOfStep(l') else InStep(l')
  {
  }

  lemma AskerHearsOutOfStep(supA: bool, supB: bool, l: Line)
    requires OutOfStep(l)
    ensures OutOfStep(LineStep(supA, supB, l, AskerHears)) && !Drops(l, AskerHears)
  {
  }

  lemma AnswererHearsKeeps(supA: bool, supB: bool, l: Line)
    ensures InStep(l) ==> InStep(LineStep(supA, supB, l, AnswererHears))
    ensures OutOfStep(l) ==> OutOfStep(LineStep(supA, supB, l, AnswererHears))
  {
  }

  /** A line in step stays so until the asker drops a request, and a line out of step stays so for good. */
  lemma LineKeeps(supA: bool, supB: bool, l: Line, act: LineAct)
    requires InStep(l) || OutOfStep(l)
    ensures var l' := LineStep(supA, supB, l, act);
            if InStep(l) && !Drops(l, act) then InStep(l') else OutOfStep(l')
    ensures OutOfStep(l) ==> !InStep(l) && !Drops(l, act)
  {
    match act
    case Idle =>
    case AskerWants(on) => AskerWantsKeeps(supA, supB, l, on);
    case AnswererWants(on) => AnswererWantsKeeps(supA, supB, l, on);
    case AskerHears => if InStep(l) { AskerHearsInStep(supA, supB, l); } else { AskerHearsOutOfStep(supA, supB, l); }
    case AnswererHears => AnswererHearsKeeps(supA, supB, l);
  }

  // ---------------------------------------------------------------- whole runs

  predicate Dropped(ca: Config, cb: Config, s: System, acts: seq<Act>, telopt: Byte)
    decreases |acts|
  {
    && acts != []
    && (|| Drops(LineOf(s, telopt), OnThe(s, acts[0], telopt))
        || Dropped(ca, cb, Step(ca, cb, s, acts[0]), acts[1..], telopt))
  }

  lemma StepKeeps(ca: Config, cb: Config, s: System, act: Act, telopt: Byte)
    requires !ca.proxy && !cb.proxy && Roomy(ca, cb, s, act)
    requires InStep(LineOf(s, telopt)) || OutOfStep(LineOf(s, telopt))
    ensures var l, l' := LineOf(s, telopt), LineOf(Step(ca, cb, s, act), telopt);
            && (if InStep(l) && !Drops(l, OnThe(s, act, telopt)) then InStep(l') else OutOfStep(l'))
            && (OutOfStep(l) ==> !InStep(l) && !Drops(l, OnThe(s, act, telopt)))
            && (OutOfStep(l') ==> !InStep(l'))
  {
    StepIsLine(ca, cb, s, act, telopt);
    LineKeeps(Supports(ca.telopts, telopt, false), Supports(cb.telopts, telopt, true), LineOf(s, telopt), OnThe(s, act, telopt));
    LineKeeps(false, false, LineOf(Step(ca, cb, s, act), telopt), Idle);
  }

  lemma {:induction false} RunKeeps(ca: Config, cb: Config, s: System, acts: seq<Act>, telopt: Byte)
    requires !ca.proxy && !cb.proxy && AllRoomy(ca, cb, s, acts)
    requires InStep(LineOf(s, telopt)) || OutOfStep(LineOf(s, telopt))
    ensures var l, l' := LineOf(s, telopt), LineOf(After(ca, cb, s, acts), telopt);
            if InStep(l) && !Dropped(ca, cb, s, acts, telopt) then InStep(l') else OutOfStep(l')
    decreases |acts|
  {
    if acts != [] {
      StepKeeps(ca, cb, s, acts[0], telopt);
      RunKeeps(ca, cb, Step(ca, cb, s, acts[0]), acts[1..], telopt);
    }
  }

  function Count(waiting: bool): nat { if waiting then 1 else 0 }

  predicate Together(l: Line) { l.asker == l.answerer && l.asker in {No, Yes} }

  lemma StepMeans(l: Line)
    ensures InStep(l) ==> |l.out| + |l.back| == Count(Waiting(l.asker)) + Count(Waiting(l.answerer))
    ensures OutOfStep(l) ==> |l.out| + |l.back| + 1 == Count(Waiting(l.asker)) + Count(Waiting(l.answerer))
    ensures UnderWay(l, [], []) && InStep(l) ==> Together(l)
  {
  }

  /** In every run of two trackers with room in their queues, an option whose ends once agreed with nothing
      under way has one request under way for each end that waits for an answer, and one fewer from the
      moment the asker has dropped a request. Whenever nothing is under way the ends agree exactly when that
      has not happened. */
  lemma RunAgrees(ca: Config, cb: Config, s: System, acts: seq<Act>, telopt: Byte)
    requires !ca.proxy && !cb.proxy && AllRoomy(ca, cb, s, acts)
    requires Together(LineOf(s, telopt)) && UnderWay(LineOf(s, telopt), [], [])
    ensures var l, dropped := LineOf(After(ca, cb, s, acts), telopt), Dropped(ca, cb, s, acts, telopt);
            && |l.out| + |l.back| + Count(dropped) == Count(Waiting(l.asker)) + Count(Waiting(l.answerer))
            && (UnderWay(l, [], []) ==> (Together(l) <==> !dropped))
  {
    RunKeeps(ca, cb, s, acts, telopt);
    StepMeans(LineOf(After(ca, cb, s, acts), telopt));
  }

  // ---------------------------------------------------------------- running down

  predicate Reversed(q: Q) { q in {WantNoOp, WantYesOp} }

  /** How much there is to say: an answer counts for one, a request for two, and so does a change of mind. */
  function Weight(l: Line): nat
  {
    2 * |l.out| - Count(Waiting(l.answerer) && l.out != []) + 2 * |l.back| - Count(Waiting(l.asker) && l.back != [])
    + 2 * Count(Reversed(l.asker)) + 2 * Count(Reversed(l.answerer))
  }

  lemma AskerHearsLess(supA: bool, supB: bool, l: Line)
    requires (InStep(l) || OutOfStep(l)) && l.back != []
    ensures Weight(LineStep(supA, supB, l, AskerHears)) < Weight(l)
  {
  }

  lemma AnswererHearsLess(supA: bool, supB: bool, l: Line)
    requires (InStep(l) || OutOfStep(l)) && l.out != []
    ensures Weight(LineStep(supA, supB, l, AnswererHears)) < Weight(l)
  {
  }

  lemma WeightBound(l: Line)
    requires InStep(l) || OutOfStep(l)
    ensures Weight(l) <= 7
  {
  }

  predicate Arrivals(acts: seq<Act>) { forall i :: 0 <= i < |acts| ==> acts[i].ArriveA? || acts[i].ArriveB? }

  /** How many requests of a line arrive in a run. */
  function Arrived(ca: Config, cb: Config, s: System, acts: seq<Act>, telopt: Byte): nat
    decreases |acts|
  {
    if acts == [] then 0
    else Count(OnThe(s, acts[0], telopt) in {AskerHears, AnswererHears})
         + Arrived(ca, cb, Step(ca, cb, s, acts[0]), acts[1..], telopt)
  }

  lemma {:induction false} WeightSpent(ca: Config, cb: Config, s: System, acts: seq<Act>, telopt: Byte)
    requires !ca.proxy && !cb.proxy && AllRoomy(ca, cb, s, acts) && Arrivals(acts)
    requires InStep(LineOf(s, telopt)) || OutOfStep(LineOf(s, telopt))
    ensures Arrived(ca, cb, s, acts, telopt) + Weight(LineOf(After(ca, cb, s, acts), telopt)) <= Weight(LineOf(s, telopt))
    decreases |acts|
  {
    if acts != [] {
      var supA, supB := Supports(ca.telopts, telopt, false), Supports(cb.telopts, telopt, true);
      var l, act := LineOf(s, telopt), OnThe(s, acts[0], telopt);
      StepIsLine(ca, cb, s, acts[0], telopt);
      LineKeeps(supA, supB, l, act);
      if act == AskerHears { AskerHearsLess(supA, supB, l); }
      if act == AnswererHears { AnswererHearsLess(supA, supB, l); }
      WeightSpent(ca, cb, Step(ca, cb, s, acts[0]), acts[1..], telopt);
    }
  }

  /** After any run, once the trackers start no more requests, at most seven more arrive about an option in
      one direction: there is no negotiation loop. */
  lemma RunsDown(ca: Config, cb: Config, s: System, acts: seq<Act>, more: seq<Act>, telopt: Byte)
    requires !ca.proxy && !cb.proxy && AllRoomy(ca, cb, s, acts)
    requires AllRoomy(ca, cb, After(ca, cb, s, acts), more) && Arrivals(more)
    requires Together(LineOf(s, telopt)) && UnderWay(LineOf(s, telopt), [], [])
    ensures Arrived(ca, cb, After(ca, cb, s, acts), more, telopt) <= 7
  {
    RunKeeps(ca, cb, s, acts, telopt);
    WeightBound(LineOf(After(ca, cb, s, acts), telopt));
    WeightSpent(ca, cb, After(ca, cb, s, acts), more, telopt);
  }

  // ---------------------------------------------------------------- both directions

  function Mirror(s: System): System { System(s.qb, s.qa, s.toB, s.toA) }

  function MirrorAct(act: Act): Act
  {
    match act
    case BeginA(cmd, t) => BeginB(cmd, t)
    case BeginB(cmd, t) => BeginA(cmd, t)
    case ArriveA => ArriveB
    case ArriveB => ArriveA
  }

  function MirrorAll(acts: seq<Act>): seq<Act>
  {
    if acts == [] then [] else [MirrorAct(acts[0])] + MirrorAll(acts[1..])
  }

  /** Which tracker is called A does not matter. */
  lemma {:induction false} MirrorRun(ca: Config, cb: Config, s: System, acts: seq<Act>)
    ensures After(cb, ca, Mirror(s), MirrorAll(acts)) == Mirror(After(ca, cb, s, acts))
    ensures AllRoomy(ca, cb, s, acts) ==> AllRoomy(cb, ca, Mirror(s), MirrorAll(acts))
    decreases |acts|
  {
    if acts != [] {
      assert Step(cb, ca, Mirror(s), MirrorAct(acts[0])) == Mirror(Step(ca, cb, s, acts[0]));
      assert MirrorAll(acts)[1..] == MirrorAll(acts[1..]);
      MirrorRun(ca, cb, Step(ca, cb, s, acts[0]), acts[1..]);
    }
  }

  const START: System := System([], [], [], [])

  /** Two new trackers, after any run that leaves nothing under way: on every option the asker's record of the
      other end and that end's own record agree, in each direction, exactly when no request was dropped. */
  lemma EndsAgree(ca: Config, cb: Config, acts: seq<Act>, telopt: Byte)
    requires !ca.proxy && !cb.proxy && AllRoomy(ca, cb, START, acts)
    requires After(ca, cb, START, acts).toA == After(ca, cb, START, acts).toB == []
    ensures var s := After(ca, cb, START, acts);
            var a, b := GetOption(s.qa, telopt), GetOption(s.qb, telopt);
            && (a.him == b.us && a.him in {No, Yes} <==> !Dropped(ca, cb, START, acts, telopt))
            && (b.him == a.us && b.him in {No, Yes} <==> !Dropped(cb, ca, START, MirrorAll(acts), telopt))
  {
    RunAgrees(ca, cb, START, acts, telopt);
    MirrorRun(ca, cb, START, acts);
    RunAgrees(cb, ca, START, MirrorAll(acts), telopt);
  }

  // ---------------------------------------------------------------- few options

  /** The options that a queue was given cells for. */
  ghost predicate CellsFor(q: seq<Option>, ts: set<Byte>)
  {
    |q| == 4 * |ts| && forall t :: t in ts ==> IndexOf(q, t) < |q|
  }

  ghost predicate Among(q: seq<Option>, all: set<Byte>) { exists ts :: ts <= all && CellsFor(q, ts) }

  lemma IndexKept(q: seq<Option>, o: Option, t: Byte)
    requires IndexOf(q, t) < |q| && SetOption(q, o.telopt, o.us, o.him) != []
    ensures var q' := SetOption(q, o.telopt, o.us, o.him); IndexOf(q', t) < |q'|
  {
    var q' := SetOption(q, o.telopt, o.us, o.him);
    IndexMeans(q, t);
    IndexMeans(q, o.telopt);
    IndexMeans(q', t);
    assert q'[IndexOf(q, t)].telopt == t;
  }

  lemma CellsFit(q: seq<Option>, ts: set<Byte>, all: set<Byte>, t: Byte)
    requires CellsFor(q, ts) && ts <= all && |all| <= 63 && t in all
    ensures !Wraps(q, t)
  {
    if t !in ts {
      assert all == ts + (all - ts) && t in all - ts;
      assert |all| == |ts| + |all - ts|;
    }
  }

  lemma CellsKept(q: seq<Option>, ts: set<Byte>, o: Option)
    requires CellsFor(q, ts) && !Wraps(q, o.telopt)
    ensures CellsFor(SetOption(q, o.telopt, o.us, o.him), if IndexOf(q, o.telopt) < |q| then ts else ts + {o.telopt})
  {
    var q', t := SetOption(q, o.telopt, o.us, o.him), o.telopt;
    IndexMeans(q, t);
    forall x | x in ts ensures IndexOf(q', x) < |q'| { IndexKept(q, o, x); }
    if IndexOf(q, t) == |q| {
      IndexMeans(q', t);
      assert q'[|q|].telopt == t;
    }
  }

  /** With at most 63 options there is a cell for each, and no store wraps. */
  lemma AmongKept(q: seq<Option>, all: set<Byte>, o: Option)
    requires Among(q, all) && |all| <= 63 && o.telopt in all
    ensures !Wraps(q, o.telopt) && Among(SetOption(q, o.telopt, o.us, o.him), all)
  {
    var ts :| ts <= all && CellsFor(q, ts);
    CellsFit(q, ts, all, o.telopt);
    CellsKept(q, ts, o);
  }

  ghost predicate SystemAmong(s: System, all: set<Byte>)
  {
    && Among(s.qa, all) && Among(s.qb, all)
    && (forall i :: 0 <= i < |s.toA| ==> s.toA[i].telopt in all)
    && (forall i :: 0 <= i < |s.toB| ==> s.toB[i].telopt in all)
  }

  predicate ActsAmong(acts: seq<Act>, all: set<Byte>)
  {
    forall i :: 0 <= i < |acts| && (acts[i].BeginA? || acts[i].BeginB?) ==> acts[i].telopt in all
  }

  lemma BeginAmong(c: Config, cmd: Verb, q: seq<Option>, t: Byte, all: set<Byte>)
    requires Among(q, all) && |all| <= 63 && t in all
    ensures !Wraps(q, t) && Among(Begin(c, VerbFor(cmd), q, t).0, all)
  {
    var o := GetOption(q, t);
    var us := cmd in {Will, Wont};
    var w := Want(if us then o.us else o.him, cmd in {Will, Do}).0;
    AmongKept(q, all, if us then Option(t, w, o.him) else Option(t, o.us, w));
  }

  lemma NegotiateAmong(c: Config, r: Verb, q: seq<Option>, t: Byte, all: set<Byte>)
    requires Among(q, all) && |all| <= 63 && t in all
    ensures !Wraps(q, t) && Among(Negotiate(c, ModeFor(r), q, t).0, all)
  {
    var o := Answer(c, ModeFor(r), GetOption(q, t)).0;
    AmongKept(q, all, Option(t, o.us, o.him));
  }

  lemma StepAmong(ca: Config, cb: Config, s: System, act: Act, all: set<Byte>)
    requires SystemAmong(s, all) && |all| <= 63 && ActsAmong([act], all)
    ensures SystemAmong(Step(ca, cb, s, act), all) && Roomy(ca, cb, s, act)
  {
    assert [act][0] == act;
    match act
    case BeginA(cmd, t) => BeginAmong(ca, cmd, s.qa, t, all);
    case BeginB(cmd, t) => BeginAmong(cb, cmd, s.qb, t, all);
    case ArriveA => if s.toA != [] { NegotiateAmong(ca, s.toA[0].verb, s.qa, s.toA[0].telopt, all); }
    case ArriveB => if s.toB != [] { NegotiateAmong(cb, s.toB[0].verb, s.qb, s.toB[0].telopt, all); }
  }

  /** Two trackers that are told about at most 63 options never wrap a queue. */
  lemma {:induction false} FewAreRoomy(ca: Config, cb: Config, s: System, acts: seq<Act>, all: set<Byte>)
    requires SystemAmong(s, all) && |all| <= 63 && ActsAmong(acts, all)
    ensures AllRoomy(ca, cb, s, acts)
    decreases |acts|
  {
    if acts != [] {
      StepAmong(ca, cb, s, acts[0], all);
      FewAreRoomy(ca, cb, Step(ca, cb, s, acts[0]), acts[1..], all);
    }
  }

  /** So two new trackers that are told about at most 63 options, whenever nothing is under way, agree about
      every option, in each direction, exactly when no request about it was dropped. */
  lemma FewAgree(ca: Config, cb: Config, acts: seq<Act>, all: set<Byte>, telopt: Byte)
    requires !ca.proxy && !cb.proxy && |all| <= 63 && ActsAmong(acts, all)
    requires After(ca, cb, START, acts).toA == After(ca, cb, START, acts).toB == []
    ensures var s := After(ca, cb, START, acts);
            var a, b := GetOption(s.qa, telopt), GetOption(s.qb, telopt);
            && (a.him == b.us && a.him in {No, Yes} <==> !Dropped(ca, cb, START, acts, telopt))
            && (b.him == a.us && b.him in {No, Yes} <==> !Dropped(cb, ca, START, MirrorAll(acts), telopt))
  {
    assert CellsFor([], {}) && {} <= all;
    FewAreRoomy(ca, cb, START, acts, all);
    EndsAgree(ca, cb, acts, telopt);
  }

  // ---------------------------------------------------------------- a dropped request

  const ZERO: Option := Option(0, No, No)

  function Cell(t: Byte, us: Q, him: Q): seq<Option> { [Option(t, us, him), ZERO, ZERO, ZERO] }

  lemma SetCell(t: Byte, us: Q, him: Q, us': Q, him': Q)
    ensures GetOption([], t) == Option(t, No, No) && GetOption(Cell(t, us, him), t) == Option(t, us, him)
    ensures SetOption([], t, us, him) == Cell(t, us, him)
    ensures SetOption(Cell(t, us, him), t, us', him') == Cell(t, us', him')
  {
  }

  /** A tracker turns an option of the other end on, then off, and changes its mind before the answer comes. */
  function ChangeOfMind(t: Byte): seq<Act>
  {
    [BeginA(Do, t), ArriveB, ArriveA, BeginA(Dont, t), BeginA(Do, t), ArriveB, ArriveA]
  }

  lemma BeginDoCell(c: Config, t: Byte, us: Q, him: Q, on: bool)
    requires !c.proxy
    ensures var (w, sends) := Want(him, on);
            var cmd := if on then Do else Dont;
            var (q, evs) := Begin(c, VerbFor(cmd), Cell(t, us, him), t);
            q == Cell(t, us, w) && SentBy(evs) == if sends then cmd else Nothing
  {
    SetCell(t, us, him, us, Want(him, on).0);
  }

  lemma HearCell(c: Config, t: Byte, us: Q, him: Q, r: Verb)
    requires !c.proxy
    ensures var o := Option(t, us, him);
            var m := Heard(c, r, o);
            var (q, evs) := Negotiate(c, ModeFor(r), Cell(t, us, him), t);
            && q == (if r in {Will, Wont} then Cell(t, us, m.q) else Cell(t, m.q, him))
            && SentBy(evs) == m.sends
  {
    var o := Option(t, us, him);
    if r in {Will, Wont} { AskerMoves(c, r, o); } else { AnswererMoves(c, r, o); }
    var m := Heard(c, r, o);
    if r in {Will, Wont} { SetCell(t, us, him, us, m.q); } else { SetCell(t, us, him, m.q, him); }
  }

  lemma FirstStores(c: Config, t: Byte)
    requires !c.proxy && Supports(c.telopts, t, true)
    ensures Begin(c, DO, [], t) == (Cell(t, No, WantYes), [Reply(DO, t)])
    ensures Negotiate(c, InDo, [], t) == (Cell(t, Yes, No), [Reply(WILL, t), Negotiated(DO, t)])
  {
    SetCell(t, No, WantYes, No, No);
    SetCell(t, Yes, No, No, No);
  }

  lemma TurnedOn(c: Config, t: Byte)
    requires !c.proxy && Supports(c.telopts, t, true)
    ensures var s1 := Step(c, c, START, BeginA(Do, t));
            var s2 := Step(c, c, s1, ArriveB);
            Step(c, c, s2, ArriveA) == System(Cell(t, No, Yes), Cell(t, Yes, No), [], [])
  {
    FirstStores(c, t);
    HearCell(c, t, No, WantYes, Will);
  }

  lemma TurnedOff(c: Config, t: Byte)
    requires !c.proxy
    ensures var s3 := System(Cell(t, No, Yes), Cell(t, Yes, No), [], []);
            var s4 := Step(c, c, s3, BeginA(Dont, t));
            var s5 := Step(c, c, s4, BeginA(Do, t));
            var s6 := Step(c, c, s5, ArriveB);
            Step(c, c, s6, ArriveA) == System(Cell(t, No, WantYes), Cell(t, No, No), [], [])
  {
    BeginDoCell(c, t, No, Yes, false);
    BeginDoCell(c, t, No, WantNo, true);
    HearCell(c, t, Yes, No, Dont);
    HearCell(c, t, No, WantNoOp, Wont);
  }

  /** That run leaves nothing under way, one end waiting for yes for good, and the other end off. */
  lemma MindLost(c: Config, t: Byte)
    requires !c.proxy && Supports(c.telopts, t, true)
    ensures After(c, c, START, ChangeOfMind(t)) == System(Cell(t, No, WantYes), Cell(t, No, No), [], [])
  {
    TurnedOn(c, t);
    TurnedOff(c, t);
    SevenSteps(c, START, ChangeOfMind(t));
  }

  lemma SevenSteps(c: Config, s: System, acts: seq<Act>)
    requires |acts| == 7
    ensures After(c, c, s, acts) ==
              Step(c, c, Step(c, c, Step(c, c, Step(c, c, Step(c, c, Step(c, c, Step(c, c, s, acts[0]), acts[1]), acts[2]), acts[3]),
                acts[4]), acts[5]), acts[6])
  {
    var s1 := Step(c, c, s, acts[0]);
    var s2 := Step(c, c, s1, acts[1]);
    var s3 := Step(c, c, s2, acts[2]);
    var s4 := Step(c, c, s3, acts[3]);
    var s5 := Step(c, c, s4, acts[4]);
    var s6 := Step(c, c, s5, acts[5]);
    assert After(c, c, s5, acts[5..]) == After(c, c, s6, acts[5..][1..]) && acts[5..][1..] == acts[6..];
    assert After(c, c, s4, acts[4..]) == After(c, c, s5, acts[4..][1..]) && acts[4..][1..] == acts[5..];
    assert After(c, c, s3, acts[3..]) == After(c, c, s4, acts[3..][1..]) && acts[3..][1..] == acts[4..];
    assert After(c, c, s2, acts[2..]) == After(c, c, s3, acts[2..][1..]) && acts[2..][1..] == acts[3..];
    assert After(c, c, s1, acts[1..]) == After(c, c, s2, acts[1..][1..]) && acts[1..][1..] == acts[2..];
  }
}
