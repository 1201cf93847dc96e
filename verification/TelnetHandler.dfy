/** What the event handler of a tracker knows about an option from the negotiation events alone. */
module TelnetHandler {
  import opened Addresses
  import opened TelnetMachine
  import opened TelnetNegotiation
  import opened TelnetProtocol

  /** The handler's record: whether each end has the option on. */
  datatype Known = Known(us: bool, him: bool)

  /** WILL and WONT are news of the remote end, DO and DONT of this one. */
  function Learn(k: Known, e: Event, telopt: Byte): Known
  {
    match e
    case Negotiated(verb, t) =>
      if t != telopt then k
      else if verb == WILL then k.(him := true)
      else if verb == WONT then k.(him := false)
      else if verb == DO then k.(us := true)
      else if verb == DONT then k.(us := false)
      else k
    case _ => k
  }

  function LearnAll(k: Known, evs: seq<Event>, telopt: Byte): Known
    decreases |evs|
  {
    if evs == [] then k else LearnAll(Learn(k, evs[0], telopt), evs[1..], telopt)
  }

  /** An end that is asked to turn an option off has it until it answers. */
  predicate IsOn(q: Q) { q in {Yes, WantNo, WantNoOp} }

  predicate Knows(k: Known, o: Option) { k.us == IsOn(o.us) && k.him == IsOn(o.him) }

  /** The answers about which the handler is told something else than what has happened: WONT for an option
      that is wanted back is reported as DO, and DONT for one that was being turned off as WONT or WILL. */
  predicate Misreported(mode: Mode, o: Option)
  {
    (mode == InWont && o.him == WantNoOp) || (mode == InDont && o.us in {WantNo, WantNoOp})
  }

  lemma LearnTwo(k: Known, evs: seq<Event>, telopt: Byte)
    requires |evs| <= 2
    ensures LearnAll(k, evs, telopt) ==
              if |evs| == 0 then k
              else if |evs| == 1 then Learn(k, evs[0], telopt)
              else Learn(Learn(k, evs[0], telopt), evs[1], telopt)
  {
    if |evs| == 2 {
      var k1 := Learn(k, evs[0], telopt);
      assert evs[1..] == [evs[1]] && [evs[1]][1..] == [];
      assert LearnAll(k1, [evs[1]], telopt) == Learn(k1, evs[1], telopt);
    }
  }

  /** A handler that knows the two ends knows them after an answer exactly when it is not misreported. */
  lemma AnswerIsReported(c: Config, mode: Mode, o: Option, k: Known)
    requires mode in {InWill, InWont, InDo, InDont} && Knows(k, o)
    ensures var (o', evs) := Answer(c, mode, o);
            Knows(LearnAll(k, evs, o.telopt), o') <==> !Misreported(mode, o)
  {
    LearnTwo(k, Answer(c, mode, o).1, o.telopt);
  }

  /** A new tracker turns its end on when asked, is told to turn it off, and gets the answer DONT: the
      handler is told WONT, and takes the end for on. */
  lemma WontMisreported(c: Config, t: Byte)
    requires !c.proxy && Supports(c.telopts, t, true)
    ensures var (q1, e1) := Negotiate(c, InDo, [], t);
            var (q2, e2) := Begin(c, WONT, q1, t);
            var (q3, e3) := Negotiate(c, InDont, q2, t);
            && GetOption(q3, t) == Option(t, No, No)
            && e3 == [Negotiated(WONT, t)]
            && LearnAll(Known(false, false), [e1[0], e1[1], e2[0], e3[0]], t) == Known(true, false)
  {
    FirstStores(c, t);
    SetCell(t, Yes, No, WantNo, No);
    SetCell(t, WantNo, No, No, No);
    var evs := [Reply(WILL, t), Negotiated(DO, t), Reply(WONT, t), Negotiated(WONT, t)];
    assert evs[1..] == [Negotiated(DO, t), Reply(WONT, t), Negotiated(WONT, t)];
    assert evs[1..][1..] == [Reply(WONT, t), Negotiated(WONT, t)];
    LearnTwo(Known(true, false), [Reply(WONT, t), Negotiated(WONT, t)], t);
  }

  /** Starting a request changes neither end, and nothing is reported. */
  lemma BeginIsSilent(q: Q, on: bool)
    ensures IsOn(Want(q, on).0) == IsOn(q)
  {
  }

  /** Support for an option is what the first entry for it in the table says of that end. */
  lemma {:induction false} SupportsMeans(ts: seq<Support>, telopt: Byte, us: bool)
    ensures Supports(ts, telopt, us) <==>
              exists i: nat :: FirstEntry(ts, telopt, i) && (us ==> ts[i].us) && (!us ==> ts[i].him)
  {
    if ts != [] {
      var rest := ts[1..];
      if ts[0].telopt == telopt {
        assert FirstEntry(ts, telopt, 0);
      } else {
        SupportsMeans(rest, telopt, us);
        forall i: nat | FirstEntry(rest, telopt, i) ensures FirstEntry(ts, telopt, i + 1) && ts[i + 1] == rest[i] {
          forall j | 0 <= j < i + 1 ensures ts[j].telopt != telopt { if j > 0 { assert ts[j] == rest[j - 1]; } }
        }
        forall i: nat | FirstEntry(ts, telopt, i) ensures i > 0 && FirstEntry(rest, telopt, i - 1) && rest[i - 1] == ts[i] {
          forall j | 0 <= j < i - 1 ensures rest[j].telopt != telopt { assert rest[j] == ts[j + 1]; }
        }
      }
    }
  }

  predicate FirstEntry(ts: seq<Support>, telopt: Byte, i: nat)
  {
    i < |ts| && ts[i].telopt == telopt && forall j :: 0 <= j < i ==> ts[j].telopt != telopt
  }
}
