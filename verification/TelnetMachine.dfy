/** The telnet protocol one byte at a time (RFC 854, RFC 855): the reference that the batching
    receiver in Telnet refines. */
module TelnetMachine {
  import opened Addresses

  const SE: Byte := 240
  const SB: Byte := 250
  const WILL: Byte := 251
  const WONT: Byte := 252
  const DO: Byte := 253
  const DONT: Byte := 254
  const IAC: Byte := 255

  /** The largest subnegotiation buffer. */
  const MAX_BUFFER: nat := 16384

  datatype Mode = InData | InIac | InWill | InWont | InDo | InDont | InSb | InSbData | InSbDataIac

  /** Option states of the negotiation queue. */
  datatype Q = No | Yes | WantNo | WantYes | WantNoOp | WantYesOp

  datatype Option = Option(telopt: Byte, us: Q, him: Q)

  datatype Support = Support(telopt: Byte, us: bool, him: bool)

  datatype Problem = Overflow | Protocol

  /** What the event handler is told. Parsed stands for the events of the option-specific
      parsers of a subnegotiation. */
  datatype Event =
    | Data(byte: Byte)
    | Send(bytes: seq<Byte>)
    | Command(cmd: Byte)
    | Negotiated(verb: Byte, telopt: Byte)
    | Subnegotiation(telopt: Byte, bytes: seq<Byte>)
    | Parsed(telopt: Byte, item: nat)
    | Warning(problem: Problem)

  /** The settings of a tracker. The parser of the special options is any function that
      emits events and returns a flag. */
  datatype Config = Config(proxy: bool, telopts: seq<Support>, parser: (Byte, seq<Byte>) -> (seq<nat>, bool))

  datatype Machine = Machine(mode: Mode, q: seq<Option>, buffer: seq<Byte>, telopt: Byte)

  /** A run of data, as the log records it: how data is cut into runs depends on how the input
      is cut into buffers, so the log has one event for each byte. */
  function Singles(bs: seq<Byte>): seq<Event>
  {
    seq(|bs|, i requires 0 <= i < |bs| => Data(bs[i]))
  }

  // ---------------------------------------------------------------- option negotiation

  function Supports(ts: seq<Support>, telopt: Byte, us: bool): bool
  {
    if ts == [] then false
    else if ts[0].telopt == telopt then (if us then ts[0].us else ts[0].him)
    else Supports(ts[1..], telopt, us)
  }

  function GetOption(q: seq<Option>, telopt: Byte): Option
  {
    if q == [] then Option(telopt, No, No)
    else if q[0].telopt == telopt then q[0]
    else GetOption(q[1..], telopt)
  }

  /** A new option takes four entries, three of them zero, and the length is one byte: the
      sixty-fourth new option empties the queue. */
  function SetOption(q: seq<Option>, telopt: Byte, us: Q, him: Q): seq<Option>
  {
    var i := IndexOf(q, telopt);
    if i < |q| then q[i := Option(telopt, us, him)]
    else if |q| + 4 == 256 then []
    else q + [Option(telopt, us, him), Option(0, No, No), Option(0, No, No), Option(0, No, No)]
  }

  /** The first entry for the option, or the length of the queue. */
  function IndexOf(q: seq<Option>, telopt: Byte): nat
  {
    if q == [] || q[0].telopt == telopt then 0 else 1 + IndexOf(q[1..], telopt)
  }

  lemma {:induction false} IndexMeans(q: seq<Option>, telopt: Byte)
    ensures var i := IndexOf(q, telopt);
            && i <= |q|
            && (forall j :: 0 <= j < i ==> q[j].telopt != telopt)
            && (if i < |q| then q[i].telopt == telopt && GetOption(q, telopt) == q[i]
                else GetOption(q, telopt) == Option(telopt, No, No))
  {
    if q != [] && q[0].telopt != telopt {
      IndexMeans(q[1..], telopt);
      var i := IndexOf(q, telopt);
      forall j | 0 < j < i ensures q[j].telopt != telopt { assert q[j] == q[1..][j - 1]; }
    }
  }

  lemma IndexIs(q: seq<Option>, telopt: Byte, i: nat)
    requires i < |q| && q[i].telopt == telopt && forall j :: 0 <= j < i ==> q[j].telopt != telopt
    ensures IndexOf(q, telopt) == i
  {
    IndexMeans(q, telopt);
    var k := IndexOf(q, telopt);
    assert k < |q| ==> !(k < i) && !(i < k);
  }

  /** A new option that would be the sixty-fourth. */
  predicate Wraps(q: seq<Option>, telopt: Byte) { IndexOf(q, telopt) == |q| && |q| + 4 == 256 }

  /** The queue is a map from options to states, all initially off, except that a new option
      which makes its length wrap turns every option off. */
  lemma SetThenGet(q: seq<Option>, telopt: Byte, us: Q, him: Q, other: Byte)
    ensures GetOption(SetOption(q, telopt, us, him), other)
         == if Wraps(q, telopt) then Option(other, No, No)
            else if other == telopt then Option(telopt, us, him)
            else GetOption(q, other)
  {
    var q' := SetOption(q, telopt, us, him);
    var i, k := IndexOf(q, telopt), IndexOf(q, other);
    IndexMeans(q, telopt);
    IndexMeans(q, other);
    IndexMeans(q', other);
    if !Wraps(q, telopt) {
      if other == telopt {
        IndexIs(q', telopt, i);
      } else if k < |q| {
        IndexIs(q', other, k);
      }
    }
  }

  function Reply(verb: Byte, telopt: Byte): Event { Send([IAC, verb, telopt]) }

  /** The answer to WILL, WONT, DO or DONT: the new states of the option and the events. */
  function Answer(c: Config, mode: Mode, o: Option): (Option, seq<Event>)
  {
    var t := o.telopt;
    match mode
    case InWill => (
      match o.him
      case No =>
        if Supports(c.telopts, t, false) then (o.(him := Yes), [Reply(DO, t), Negotiated(WILL, t)])
        else (o, [Reply(DONT, t)])
      case WantNo => (o.(him := No), [Negotiated(WONT, t), Warning(Protocol)])
      case WantNoOp => (o.(him := Yes), [Negotiated(WILL, t), Warning(Protocol)])
      case WantYes => (o.(him := Yes), [Negotiated(WILL, t)])
      case WantYesOp => (o.(him := WantNo), [Reply(DONT, t), Negotiated(WILL, t)])
      case Yes => (o, []))
    case InWont => (
      match o.him
      case Yes => (o.(him := No), [Reply(DONT, t), Negotiated(WONT, t)])
      case WantNo => (o.(him := No), [Negotiated(WONT, t)])
      case WantNoOp => (o.(him := WantYes), [Negotiated(DO, t)])
      case WantYes => (o.(him := No), [])
      case WantYesOp => (o.(him := No), [])
      case No => (o, []))
    case InDo => (
      match o.us
      case No =>
        if Supports(c.telopts, t, true) then (o.(us := Yes), [Reply(WILL, t), Negotiated(DO, t)])
        else (o, [Reply(WONT, t)])
      case WantNo => (o.(us := No), [Negotiated(DONT, t), Warning(Protocol)])
      case WantNoOp => (o.(us := Yes), [Negotiated(DO, t), Warning(Protocol)])
      case WantYes => (o.(us := Yes), [Negotiated(DO, t)])
      case WantYesOp => (o.(us := WantNo), [Reply(WONT, t), Negotiated(DO, t)])
      case Yes => (o, []))
    case InDont => (
      match o.us
      case Yes => (o.(us := No), [Reply(WONT, t), Negotiated(DONT, t)])
      case WantNo => (o.(us := No), [Negotiated(WONT, t)])
      case WantNoOp => (o.(us := WantYes), [Reply(WILL, t), Negotiated(WILL, t)])
      case WantYes => (o.(us := No), [])
      case WantYesOp => (o.(us := No), [])
      case No => (o, []))
    case _ => (o, [])
  }

  function VerbOf(mode: Mode): Byte
  {
    match mode case InWill => WILL case InWont => WONT case InDo => DO case _ => DONT
  }

  /** The queue is written only when the option's state is assigned. */
  function Negotiate(c: Config, mode: Mode, q: seq<Option>, telopt: Byte): (seq<Option>, seq<Event>)
  {
    if c.proxy then (q, [Negotiated(VerbOf(mode), telopt)])
    else
      var o := GetOption(q, telopt);
      var (o', evs) := Answer(c, mode, o);
      (if o' == o then q else SetOption(q, telopt, o'.us, o'.him), evs)
  }

  /** What wanting an option on or off does to its state, and whether a request goes out. */
  function Want(q: Q, on: bool): (Q, bool)
  {
    if on then
      match q
      case No => (WantYes, true)
      case WantNo => (WantNoOp, false)
      case WantYesOp => (WantYes, false)
      case _ => (q, false)
    else
      match q
      case Yes => (WantNo, true)
      case WantYes => (WantYesOp, false)
      case WantNoOp => (WantNo, false)
      case _ => (q, false)
  }

  /** A tracker is told to start a request: the queue and the events. */
  function Begin(c: Config, verb: Byte, q: seq<Option>, telopt: Byte): (seq<Option>, seq<Event>)
  {
    if c.proxy then (q, [Reply(verb, telopt)])
    else if verb !in {WILL, WONT, DO, DONT} then (q, [])
    else
      var o := GetOption(q, telopt);
      var us := verb in {WILL, WONT};
      var (w, sends) := Want(if us then o.us else o.him, verb in {WILL, DO});
      var o' := if us then o.(us := w) else o.(him := w);
      (if o' == o then q else SetOption(q, telopt, o'.us, o'.him), if sends then [Reply(verb, telopt)] else [])
  }

  // ---------------------------------------------------------------- one byte

  predicate HasParser(telopt: Byte) { telopt in {24, 36, 39, 70, 93} }

  function ParsedItems(telopt: Byte, items: seq<nat>): seq<Event>
  {
    seq(|items|, i requires 0 <= i < |items| => Parsed(telopt, items[i]))
  }

  /** The events of a complete subnegotiation, and the parser's flag. */
  function Subnegotiate(c: Config, telopt: Byte, bytes: seq<Byte>): (seq<Event>, bool)
  {
    var (items, flag) := if HasParser(telopt) then c.parser(telopt, bytes) else ([], false);
    ([Subnegotiation(telopt, bytes)] + ParsedItems(telopt, items), flag)
  }

  /** A byte of a subnegotiation; a full buffer ends it. */
  function Push(m: Machine, b: Byte): (Machine, seq<Event>)
  {
    if |m.buffer| >= MAX_BUFFER then (m.(mode := InData), [Warning(Overflow)])
    else (m.(mode := InSbData, buffer := m.buffer + [b]), [])
  }

  function StepIac(m: Machine, b: Byte): (Machine, seq<Event>)
  {
    if b == SB then (m.(mode := InSb), [])
    else if b == WILL then (m.(mode := InWill), [])
    else if b == WONT then (m.(mode := InWont), [])
    else if b == DO then (m.(mode := InDo), [])
    else if b == DONT then (m.(mode := InDont), [])
    else if b == IAC then (m.(mode := InData), [Data(b)])
    else (m.(mode := InData), [Command(b)])
  }

  function Step(c: Config, m: Machine, b: Byte): (Machine, seq<Event>)
  {
    match m.mode
    case InData => if b == IAC then (m.(mode := InIac), []) else (m, [Data(b)])
    case InIac => StepIac(m, b)
    case InSb => (m.(mode := InSbData, telopt := b, buffer := []), [])
    case InSbData => if b == IAC then (m.(mode := InSbDataIac), []) else Push(m, b)
    case InSbDataIac =>
      if b == IAC then Push(m, IAC)
      else
        var (evs, flag) := Subnegotiate(c, m.telopt, m.buffer);
        if b == SE then (m.(mode := InData), evs)
        else if flag then (m.(mode := InIac), [Warning(Protocol)] + evs)
        else
          var (m', more) := StepIac(m.(mode := InIac), b);
          (m', [Warning(Protocol)] + evs + more)
    case _ =>
      var (q, evs) := Negotiate(c, m.mode, m.q, b);
      (m.(mode := InData, q := q), evs)
  }

  // ---------------------------------------------------------------- byte strings

  lemma Regroup<T>(a: seq<T>, b: seq<T>, c: seq<T>)
    ensures (a + b) + c == a + (b + c)
  {
  }

  /** A machine and the log of its events. */
  datatype Logged = Logged(m: Machine, log: seq<Event>)

  type Transition = (Logged, Byte) -> Logged

  function Fold(f: Transition, s: Logged, bs: seq<Byte>, n: nat): Logged
    requires n <= |bs|
  {
    if n == 0 then s else f(Fold(f, s, bs, n - 1), bs[n - 1])
  }

  /** Where the first i bytes lead, the remaining ones continue. */
  lemma {:induction false} FoldSplit(f: Transition, s: Logged, bs: seq<Byte>, i: nat, n: nat)
    requires i + n <= |bs|
    ensures Fold(f, s, bs, i + n) == Fold(f, Fold(f, s, bs, i), bs[i..], n)
  {
    if n != 0 { FoldSplit(f, s, bs, i, n - 1); }
  }

  lemma {:induction false} FoldSame(f: Transition, s: Logged, bs: seq<Byte>, bs': seq<Byte>, n: nat)
    requires n <= |bs| && n <= |bs'| && forall i :: 0 <= i < n ==> bs[i] == bs'[i]
    ensures Fold(f, s, bs, n) == Fold(f, s, bs', n)
  {
    if n != 0 { FoldSame(f, s, bs, bs', n - 1); }
  }

  function LogStep(c: Config, s: Logged, b: Byte): Logged
  {
    var (m, evs) := Step(c, s.m, b);
    Logged(m, s.log + evs)
  }

  function Stepper(c: Config): Transition
  {
    (s: Logged, b: Byte) => LogStep(c, s, b)
  }

  /** The machine and the log after a byte string, data one byte at a time. */
  function Run(c: Config, s: Logged, bs: seq<Byte>): Logged
  {
    Fold(Stepper(c), s, bs, |bs|)
  }

  /** Receiving two pieces one after the other is receiving their concatenation. */
  lemma RunAppend(c: Config, s: Logged, a: seq<Byte>, b: seq<Byte>)
    ensures Run(c, s, a + b) == Run(c, Run(c, s, a), b)
  {
    assert (a + b)[|a|..] == b;
    FoldSame(Stepper(c), s, a, a + b, |a|);
    FoldSplit(Stepper(c), s, a + b, |a|, |b|);
  }

  ghost predicate AgreesAt(f: Transition, c: Config, s: Logged, b: Byte) { f(s, b) == LogStep(c, s, b) }

  /** f is the step of c. Proofs about runs go by this alone, and do not look into a step. */
  ghost predicate Agrees(f: Transition, c: Config)
  {
    forall s, b {:trigger AgreesAt(f, c, s, b)} :: AgreesAt(f, c, s, b)
  }

  lemma Advance(f: Transition, c: Config, s0: Logged, bs: seq<Byte>, i: nat, s: Logged, s': Logged)
    requires Agrees(f, c) && i < |bs| && Fold(f, s0, bs, i) == s && s' == LogStep(c, s, bs[i])
    ensures Fold(f, s0, bs, i + 1) == s'
  {
    assert AgreesAt(f, c, s, bs[i]);
  }

  lemma FoldOne(f: Transition, c: Config, s: Logged, b: Byte)
    requires Agrees(f, c)
    ensures Fold(f, s, [b], 1) == LogStep(c, s, b)
  {
    assert AgreesAt(f, c, s, b);
  }

  // ---------------------------------------------------------------- buffers

  /** The first n buffers as one. */
  function Joined(chunks: seq<seq<Byte>>, n: nat): seq<Byte>
    requires n <= |chunks|
  {
    if n == 0 then [] else Joined(chunks, n - 1) + chunks[n - 1]
  }

  /** Two ways to cut the same bytes into buffers lead to the same machine and the same log. */
  function RunChunks(c: Config, s: Logged, chunks: seq<seq<Byte>>, n: nat): (r: Logged)
    requires n <= |chunks|
    ensures r == Run(c, s, Joined(chunks, n))
  {
    if n == 0 then s
    else
      RunAppend(c, s, Joined(chunks, n - 1), chunks[n - 1]);
      Run(c, RunChunks(c, s, chunks, n - 1), chunks[n - 1])
  }

  // ---------------------------------------------------------------- what is sent

  /** The bytes that have been sent, in order. */
  function SentBytes(log: seq<Event>): seq<Byte>
  {
    if log == [] then []
    else
      var front, last := log[..|log| - 1], log[|log| - 1];
      if last.Send? then SentBytes(front) + last.bytes else SentBytes(front)
  }

  lemma SentSnoc(log: seq<Event>, e: Event)
    ensures SentBytes(log + [e]) == if e.Send? then SentBytes(log) + e.bytes else SentBytes(log)
  {
    assert (log + [e])[..|log|] == log;
  }

  function EscapedByte(b: Byte): seq<Byte> { if b == IAC then [IAC, IAC] else [b] }

  /** The first n bytes with every IAC doubled. */
  function Escaped(bs: seq<Byte>, n: nat): seq<Byte>
    requires n <= |bs|
  {
    if n == 0 then [] else Escaped(bs, n - 1) + EscapedByte(bs[n - 1])
  }

  function Framed(telopt: Byte, bs: seq<Byte>): seq<Byte>
  {
    [IAC, SB, telopt] + Escaped(bs, |bs|) + [IAC, SE]
  }
}
