/** The telnet tracker: the receiver that batches runs of data, and the sender that escapes. */
module Telnet {
  import opened Addresses
  import opened TelnetMachine

  const BUFFER_SIZES: seq<nat> := [0, 512, 2048, 8192, 16384]

  class Tracker {
    const config: Config
    var mode: Mode
    var q: seq<Option>
    var buffer: seq<Byte>
    var bufferSize: nat
    var telopt: Byte
    var log: seq<Event>

    ghost predicate Valid()
      reads this
    {
      bufferSize in BUFFER_SIZES && |buffer| <= bufferSize
    }

    function Now(): Machine
      reads this
    {
      Machine(mode, q, buffer, telopt)
    }

    constructor (c: Config)
      ensures Valid() && config == c && log == [] && Now() == Machine(InData, [], [], 0)
    {
      config := c;
      mode, q, buffer, bufferSize, telopt, log := InData, [], [], 0, 0, [];
    }

    method CheckTelopt(telopt: Byte, us: bool) returns (b: bool)
      ensures b == Supports(config.telopts, telopt, us)
    {
      var i: nat := 0;
      while i < |config.telopts|
        invariant i <= |config.telopts|
        invariant Supports(config.telopts, telopt, us) == Supports(config.telopts[i..], telopt, us)
      {
        if config.telopts[i].telopt == telopt {
          return if us then config.telopts[i].us else config.telopts[i].him;
        }
        i := i + 1;
      }
      return false;
    }

    method GetOption(telopt: Byte) returns (o: Option)
      ensures o == TelnetMachine.GetOption(q, telopt)
    {
      var i: nat := 0;
      while i < |q|
        invariant i <= |q|
        invariant TelnetMachine.GetOption(q, telopt) == TelnetMachine.GetOption(q[i..], telopt)
      {
        if q[i].telopt == telopt { return q[i]; }
        i := i + 1;
      }
      return Option(telopt, No, No);
    }

    method SetOption(telopt: Byte, us: Q, him: Q)
      modifies this`q
      ensures q == TelnetMachine.SetOption(old(q), telopt, us, him)
    {
      var i: nat := 0;
      while i < |q|
        invariant i <= |q| && q == old(q)
        invariant IndexOf(q, telopt) == i + IndexOf(q[i..], telopt)
      {
        if q[i].telopt == telopt {
          q := q[i := Option(telopt, us, him)];
          return;
        }
        i := i + 1;
      }
      var zero := Option(0, No, No);
      q := if |q| + 4 == 256 then [] else q + [Option(telopt, us, him), zero, zero, zero];
    }

    method Emit(evs: seq<Event>)
      modifies this`log
      ensures log == old(log) + evs
    {
      log := log + evs;
    }

    /** WILL or WONT from the other side. */
    method NegotiateHim(o: Option)
      requires mode in {InWill, InWont} && o == TelnetMachine.GetOption(q, o.telopt)
      modifies this`q, this`log
      ensures var (o', evs) := Answer(config, mode, o);
              && log == old(log) + evs
              && q == if o' == o then old(q) else TelnetMachine.SetOption(old(q), o.telopt, o'.us, o'.him)
    {
      var t := o.telopt;
      if mode == InWill {
        match o.him {
          case No =>
            var ok := CheckTelopt(t, false);
            if ok {
              SetOption(t, o.us, Yes);
              Emit([Reply(DO, t), Negotiated(WILL, t)]);
            } else {
              Emit([Reply(DONT, t)]);
            }
          case WantNo =>
            SetOption(t, o.us, No);
            Emit([Negotiated(WONT, t), Warning(Protocol)]);
          case WantNoOp =>
            SetOption(t, o.us, Yes);
            Emit([Negotiated(WILL, t), Warning(Protocol)]);
          case WantYes =>
            SetOption(t, o.us, Yes);
            Emit([Negotiated(WILL, t)]);
          case WantYesOp =>
            SetOption(t, o.us, WantNo);
            Emit([Reply(DONT, t), Negotiated(WILL, t)]);
          case Yes =>
            Emit([]);
        }
      } else {
        match o.him {
          case Yes =>
            SetOption(t, o.us, No);
            Emit([Reply(DONT, t), Negotiated(WONT, t)]);
          case WantNo =>
            SetOption(t, o.us, No);
            Emit([Negotiated(WONT, t)]);
          case WantNoOp =>
            SetOption(t, o.us, WantYes);
            Emit([Negotiated(DO, t)]);
          case WantYes =>
            SetOption(t, o.us, No);
            Emit([]);
          case WantYesOp =>
            SetOption(t, o.us, No);
            Emit([]);
          case No =>
            Emit([]);
        }
      }
    }

    /** DO or DONT from the other side. */
    method NegotiateUs(o: Option)
      requires mode in {InDo, InDont} && o == TelnetMachine.GetOption(q, o.telopt)
      modifies this`q, this`log
      ensures var (o', evs) := Answer(config, mode, o);
              && log == old(log) + evs
              && q == if o' == o then old(q) else TelnetMachine.SetOption(old(q), o.telopt, o'.us, o'.him)
    {
      var t := o.telopt;
      if mode == InDo {
        match o.us {
          case No =>
            var ok := CheckTelopt(t, true);
            if ok {
              SetOption(t, Yes, o.him);
              Emit([Reply(WILL, t), Negotiated(DO, t)]);
            } else {
              Emit([Reply(WONT, t)]);
            }
          case WantNo =>
            SetOption(t, No, o.him);
            Emit([Negotiated(DONT, t), Warning(Protocol)]);
          case WantNoOp =>
            SetOption(t, Yes, o.him);
            Emit([Negotiated(DO, t), Warning(Protocol)]);
          case WantYes =>
            SetOption(t, Yes, o.him);
            Emit([Negotiated(DO, t)]);
          case WantYesOp =>
            SetOption(t, WantNo, o.him);
            Emit([Reply(WONT, t), Negotiated(DO, t)]);
          case Yes =>
            Emit([]);
        }
      } else {
        match o.us {
          case Yes =>
            SetOption(t, No, o.him);
            Emit([Reply(WONT, t), Negotiated(DONT, t)]);
          case WantNo =>
            SetOption(t, No, o.him);
            Emit([Negotiated(WONT, t)]);
          case WantNoOp =>
            SetOption(t, WantYes, o.him);
            Emit([Reply(WILL, t), Negotiated(WILL, t)]);
          case WantYes =>
            SetOption(t, No, o.him);
            Emit([]);
          case WantYesOp =>
            SetOption(t, No, o.him);
            Emit([]);
          case No =>
            Emit([]);
        }
      }
    }

    method Negotiate(telopt: Byte)
      requires mode in {InWill, InWont, InDo, InDont}
      modifies this`q, this`log
      ensures var (q', evs) := TelnetMachine.Negotiate(config, mode, old(q), telopt);
              q == q' && log == old(log) + evs
    {
      if config.proxy {
        Emit([Negotiated(VerbOf(mode), telopt)]);
        return;
      }
      var o := GetOption(telopt);
      FoundIsNamed(q, telopt);
      if mode == InWill || mode == InWont {
        NegotiateHim(o);
      } else {
        NegotiateUs(o);
      }
    }

    method BeginUs(verb: Byte, o: Option)
      requires verb in {WILL, WONT} && !config.proxy && o == TelnetMachine.GetOption(q, o.telopt)
      modifies this`q, this`log
      ensures var (q', evs) := TelnetMachine.Begin(config, verb, old(q), o.telopt);
              q == q' && log == old(log) + evs
    {
      var t := o.telopt;
      if verb == WILL {
        match o.us {
          case No =>
            SetOption(t, WantYes, o.him);
            Emit([Reply(WILL, t)]);
          case WantNo =>
            SetOption(t, WantNoOp, o.him);
            Emit([]);
          case WantYesOp =>
            SetOption(t, WantYes, o.him);
            Emit([]);
          case _ =>
            Emit([]);
        }
      } else {
        match o.us {
          case Yes =>
            SetOption(t, WantNo, o.him);
            Emit([Reply(WONT, t)]);
          case WantYes =>
            SetOption(t, WantYesOp, o.him);
            Emit([]);
          case WantNoOp =>
            SetOption(t, WantNo, o.him);
            Emit([]);
          case _ =>
            Emit([]);
        }
      }
    }

    method BeginHim(verb: Byte, o: Option)
      requires verb in {DO, DONT} && !config.proxy && o == TelnetMachine.GetOption(q, o.telopt)
      modifies this`q, this`log
      ensures var (q', evs) := TelnetMachine.Begin(config, verb, old(q), o.telopt);
              q == q' && log == old(log) + evs
    {
      var t := o.telopt;
      if verb == DO {
        match o.him {
          case No =>
            SetOption(t, o.us, WantYes);
            Emit([Reply(DO, t)]);
          case WantNo =>
            SetOption(t, o.us, WantNoOp);
            Emit([]);
          case WantYesOp =>
            SetOption(t, o.us, WantYes);
            Emit([]);
          case _ =>
            Emit([]);
        }
      } else {
        match o.him {
          case Yes =>
            SetOption(t, o.us, WantNo);
            Emit([Reply(DONT, t)]);
          case WantYes =>
            SetOption(t, o.us, WantYesOp);
            Emit([]);
          case WantNoOp =>
            SetOption(t, o.us, WantNo);
            Emit([]);
          case _ =>
            Emit([]);
        }
      }
    }

    /** Starts a request: telnet_negotiate. */
    method Begin(verb: Byte, telopt: Byte)
      modifies this`q, this`log
      ensures var (q', evs) := TelnetMachine.Begin(config, verb, old(q), telopt);
              q == q' && log == old(log) + evs
    {
      if config.proxy {
        Emit([Reply(verb, telopt)]);
        return;
      }
      var o := GetOption(telopt);
      FoundIsNamed(q, telopt);
      if verb == WILL || verb == WONT {
        BeginUs(verb, o);
      } else if verb == DO || verb == DONT {
        BeginHim(verb, o);
      } else {
        Emit([]);
      }
    }

    /** Appends a byte to the subnegotiation buffer, growing it along the list of sizes. */
    method BufferByte(b: Byte) returns (ok: bool)
      requires Valid()
      modifies this`buffer, this`bufferSize, this`log
      ensures Valid()
      ensures ok == (|old(buffer)| < MAX_BUFFER)
      ensures buffer == if ok then old(buffer) + [b] else old(buffer)
      ensures log == if ok then old(log) else old(log) + [Warning(Overflow)]
    {
      if |buffer| == bufferSize {
        var i: nat := 0;
        while i < |BUFFER_SIZES|
          invariant i <= |BUFFER_SIZES|
          invariant forall j :: 0 <= j < i ==> BUFFER_SIZES[j] != bufferSize
        {
          if BUFFER_SIZES[i] == bufferSize { break; }
          i := i + 1;
        }
        if i >= |BUFFER_SIZES| - 1 {
          Emit([Warning(Overflow)]);
          return false;
        }
        bufferSize := BUFFER_SIZES[i + 1];
      }
      buffer := buffer + [b];
      ok := true;
    }

    method Subnegotiate() returns (flag: bool)
      modifies this`log
      ensures var (evs, f) := TelnetMachine.Subnegotiate(config, telopt, buffer);
              log == old(log) + evs && flag == f
    {
      Emit([Subnegotiation(telopt, buffer)]);
      var items := [];
      flag := false;
      if HasParser(telopt) {
        var r := config.parser(telopt, buffer);
        items, flag := r.0, r.1;
      }
      Emit(ParsedItems(telopt, items));
    }

    /** A byte that neither carries data nor ends a subnegotiation. */
    method Take(b: Byte)
      requires Valid() && mode != InData && !(mode == InSbDataIac && b != IAC)
      modifies this
      ensures Valid()
      ensures var (m, evs) := Step(config, old(Now()), b);
              Now() == m && log == old(log) + evs
    {
      if mode == InIac {
        if b == SB {
          mode := InSb;
        } else if b == WILL {
          mode := InWill;
        } else if b == WONT {
          mode := InWont;
        } else if b == DO {
          mode := InDo;
        } else if b == DONT {
          mode := InDont;
        } else if b == IAC {
          Emit([Data(b)]);
          mode := InData;
        } else {
          Emit([Command(b)]);
          mode := InData;
        }
      } else if mode == InSb {
        telopt, buffer, mode := b, [], InSbData;
      } else if mode == InSbData {
        if b == IAC {
          mode := InSbDataIac;
        } else {
          var ok := BufferByte(b);
          if !ok { mode := InData; }
        }
      } else if mode == InSbDataIac {
        var ok := BufferByte(b);
        mode := if ok then InSbData else InData;
      } else {
        Negotiate(b);
        mode := InData;
      }
    }

    /** The end of a subnegotiation, before the byte that ended it is looked at. */
    method Close(b: Byte) returns (flag: bool)
      requires Valid() && mode == InSbDataIac && b != IAC
      modifies this`mode, this`log
      ensures mode == Closed(old(Now()), b).mode && log == old(log) + Closing(config, old(Now()), b)
      ensures flag == TelnetMachine.Subnegotiate(config, telopt, buffer).1
    {
      if b != SE { Emit([Warning(Protocol)]); }
      mode := if b == SE then InData else InIac;
      flag := Subnegotiate();
    }

    method OnData(bs: seq<Byte>, start: nat, i: nat, ghost f: Transition, ghost s0: Logged)
      requires Valid() && Agrees(f, config) && start <= i < |bs| && mode == InData
      requires Fold(f, s0, bs, i) == Logged(Now(), Passed(log, mode, bs[start..i]))
      modifies this`mode, this`log
      ensures Fold(f, s0, bs, i + 1) == Logged(Now(), Passed(log, mode, bs[start..i + 1]))
    {
      ghost var m, was := Now(), log;
      if bs[i] == IAC {
        if i != start { Emit(Singles(bs[start..i])); }
        mode := InIac;
      }
      DataStep(config, m, was, log, bs, start, i);
      Advance(f, config, s0, bs, i, Logged(m, Passed(was, m.mode, bs[start..i])), Logged(Now(), Passed(log, mode, bs[start..i + 1])));
    }

    method OnOther(bs: seq<Byte>, i: nat, ghost f: Transition, ghost s0: Logged)
      requires Valid() && Agrees(f, config) && i < |bs| && mode != InData && !(mode == InSbDataIac && bs[i] != IAC)
      requires Fold(f, s0, bs, i) == Logged(Now(), log)
      modifies this
      ensures Valid()
      ensures Fold(f, s0, bs, i + 1) == Logged(Now(), Passed(log, mode, bs[i + 1..i + 1]))
    {
      ghost var m, was := Now(), log;
      Take(bs[i]);
      Advance(f, config, s0, bs, i, Logged(m, was), Logged(Now(), Passed(log, mode, bs[i + 1..i + 1])));
    }

    /** The byte that ends a subnegotiation. When the parser takes over, the rest of the input goes
        to a nested call; when the byte is not SE, it is received again as a command. */
    method OnClose(bs: seq<Byte>, i: nat, ghost f: Transition, ghost s0: Logged) returns (done: bool)
      requires Valid() && Agrees(f, config) && i < |bs| && mode == InSbDataIac && bs[i] != IAC
      requires Fold(f, s0, bs, i) == Logged(Now(), log)
      modifies this
      ensures Valid()
      ensures done ==> Fold(f, s0, bs, |bs|) == Logged(Now(), log)
      ensures !done ==>
                Fold(f, s0, bs, i + 1) == Logged(Now(), Passed(log, mode, bs[i + 1..i + 1]))
      decreases |bs|, 1
    {
      var b := bs[i];
      ghost var m, was := Now(), log;
      done := Close(b);
      ghost var mid := log;
      if done {
        Process(bs[i + 1..], f);
        HandOver(f, config, s0, bs, i, m, was, mid, Now(), log);
        return;
      }
      if b != SE { Process([b], f); }
      CloseStep(f, config, s0, bs, i, m, was, mid, Now(), log);
    }

    /** The end of the input: a pending run is passed on. */
    method OnEnd(bs: seq<Byte>, start: nat, ghost f: Transition, ghost s0: Logged)
      requires Valid() && start <= |bs|
      requires Fold(f, s0, bs, |bs|) == Logged(Now(), Passed(log, mode, bs[start..|bs|]))
      modifies this`log
      ensures Fold(f, s0, bs, |bs|) == Logged(Now(), log)
    {
      if mode == InData && start != |bs| {
        Emit(Singles(bs[start..|bs|]));
      }
    }

    /** A call for one byte nests no further unless the byte may end a subnegotiation. */
    ghost function Nesting(bs: seq<Byte>): nat
      reads this
    {
      if |bs| == 1 && mode != InSbDataIac then 0 else 2
    }

    /** Receives bytes: runs of data are passed on whole, and a subnegotiation that ends early
        or takes over the stream is handled by a nested call. */
    method Process(bs: seq<Byte>, ghost f: Transition)
      requires Valid() && Agrees(f, config)
      modifies this
      ensures Valid()
      ensures Fold(f, Logged(old(Now()), old(log)), bs, |bs|) == Logged(Now(), log)
      decreases |bs|, Nesting(bs)
    {
      ghost var s0 := Logged(Now(), log);
      var i: nat, start: nat := 0, 0;
      while i < |bs|
        invariant start <= i <= |bs| && Valid()
        invariant Fold(f, s0, bs, i) == Logged(Now(), Passed(log, mode, bs[start..i]))
        invariant i == 0 ==> mode == old(mode)
      {
        if mode == InData {
          OnData(bs, start, i, f, s0);
        } else {
          start := i + 1;
          if mode == InSbDataIac && bs[i] != IAC {
            var done := OnClose(bs, i, f, s0);
            if done { return; }
          } else {
            OnOther(bs, i, f, s0);
          }
        }
        i := i + 1;
      }
      OnEnd(bs, start, f, s0);
    }

    /** Receiving a buffer is receiving its bytes one at a time. */
    method Recv(bs: seq<Byte>)
      requires Valid()
      modifies this
      ensures Valid()
      ensures Logged(Now(), log) == Run(config, Logged(old(Now()), old(log)), bs)
    {
      Process(bs, Stepper(config));
    }

    /** Receives buffers one after the other. */
    method RecvAll(chunks: seq<seq<Byte>>)
      requires Valid()
      modifies this
      ensures Valid()
      ensures Logged(Now(), log) == Run(config, Logged(old(Now()), old(log)), Joined(chunks, |chunks|))
    {
      ghost var s0 := Logged(Now(), log);
      assert Run(config, s0, []) == s0;
      for n := 0 to |chunks|
        invariant Valid() && Logged(Now(), log) == Run(config, s0, Joined(chunks, n))
      {
        Recv(chunks[n]);
        RunAppend(config, s0, Joined(chunks, n), chunks[n]);
      }
    }

    /** Sends data, with every IAC doubled; the runs between them go out whole. */
    method Send(bs: seq<Byte>)
      modifies this`log
      ensures OnlySends(old(log), log) && SentBytes(log) == SentBytes(old(log)) + Escaped(bs, |bs|)
    {
      ghost var sent := SentBytes(log);
      var i: nat, l: nat := 0, 0;
      while i < |bs|
        invariant l <= i <= |bs| && OnlySends(old(log), log)
        invariant SentBytes(log) + bs[l..i] == sent + Escaped(bs, i)
      {
        Pushed(SentBytes(log), bs[l..i], sent, Escaped(bs, i), EscapedByte(bs[i]));
        if bs[i] == IAC {
          DumpEscape(bs[l..i]);
          l := i + 1;
          assert bs[l..i + 1] == [];
        } else {
          assert bs[l..i + 1] == bs[l..i] + [bs[i]];
        }
        i := i + 1;
      }
      Dump(bs[l..i]);
    }

    /** A run goes out unless it is empty. */
    method Dump(bs: seq<Byte>)
      modifies this`log
      ensures OnlySends(old(log), log) && SentBytes(log) == SentBytes(old(log)) + bs
    {
      if bs != [] { EmitSend(bs); }
    }

    /** A run and the escape after it. */
    method DumpEscape(bs: seq<Byte>)
      modifies this`log
      ensures OnlySends(old(log), log) && SentBytes(log) == (SentBytes(old(log)) + bs) + [IAC, IAC]
    {
      Dump(bs);
      EmitSend([IAC, IAC]);
    }

    method EmitSend(bs: seq<Byte>)
      modifies this`log
      ensures log == old(log) + [Event.Send(bs)]
      ensures SentBytes(log) == SentBytes(old(log)) + bs
    {
      Emit([Event.Send(bs)]);
      SentSnoc(old(log), Event.Send(bs));
    }

    method SendSubnegotiation(telopt: Byte, bs: seq<Byte>)
      modifies this`log
      ensures OnlySends(old(log), log) && SentBytes(log) == SentBytes(old(log)) + Framed(telopt, bs)
    {
      ghost var sent := SentBytes(log);
      EmitSend([IAC, SB, telopt]);
      Send(bs);
      EmitSend([IAC, SE]);
      Regroup(sent, [IAC, SB, telopt], Escaped(bs, |bs|));
      Regroup(sent, [IAC, SB, telopt] + Escaped(bs, |bs|), [IAC, SE]);
    }
  }

  /** Nothing but sending has happened since. */
  predicate OnlySends(was: seq<Event>, log: seq<Event>)
  {
    was <= log && forall i :: |was| <= i < |log| ==> log[i].Send?
  }

  lemma Pushed(a: seq<Byte>, run: seq<Byte>, s: seq<Byte>, e: seq<Byte>, x: seq<Byte>)
    requires a + run == s + e
    ensures (a + run) + x == s + (e + x) && a + (run + x) == s + (e + x)
  {
    Regroup(a, run, x);
    Regroup(s, e, x);
  }

  lemma {:induction false} FoundIsNamed(q: seq<Option>, telopt: Byte)
    ensures TelnetMachine.GetOption(q, telopt).telopt == telopt
  {
    if q != [] && q[0].telopt != telopt { FoundIsNamed(q[1..], telopt); }
  }

  /** The events so far, data byte by byte, with the run of data that is still pending. */
  ghost function Passed(log: seq<Event>, mode: Mode, run: seq<Byte>): seq<Event>
  {
    if mode == InData && run != [] then log + Singles(run) else log
  }

  /** A data byte joins the pending run; IAC ends it. */
  lemma DataStep(c: Config, m: Machine, was: seq<Event>, log: seq<Event>, bs: seq<Byte>, start: nat, i: nat)
    requires start <= i < |bs| && m.mode == InData
    requires log == if bs[i] == IAC && i != start then was + Singles(bs[start..i]) else was
    ensures Logged(m.(mode := if bs[i] == IAC then InIac else InData),
                   Passed(log, if bs[i] == IAC then InIac else InData, bs[start..i + 1]))
         == LogStep(c, Logged(m, Passed(was, m.mode, bs[start..i])), bs[i])
  {
    assert Singles(bs[start..i + 1]) == Singles(bs[start..i]) + [Data(bs[i])];
    Regroup(was, Singles(bs[start..i]), [Data(bs[i])]);
  }

  /** The events of a subnegotiation that has ended, before the byte that ended it is looked at. */
  function Closing(c: Config, m: Machine, b: Byte): seq<Event>
  {
    var evs := TelnetMachine.Subnegotiate(c, m.telopt, m.buffer).0;
    if b == SE then evs else [Warning(Protocol)] + evs
  }

  function Closed(m: Machine, b: Byte): Machine
  {
    m.(mode := if b == SE then InData else InIac)
  }

  lemma StepClosed(c: Config, m: Machine, b: Byte)
    requires m.mode == InSbDataIac && b != IAC
    ensures var flag := TelnetMachine.Subnegotiate(c, m.telopt, m.buffer).1;
            var (m', more) := Step(c, Closed(m, b), b);
            Step(c, m, b) == if b == SE || flag then (Closed(m, b), Closing(c, m, b)) else (m', Closing(c, m, b) + more)
  {
  }

  /** The parser took over: the rest of the input was received by the nested call. */
  lemma HandOver(f: Transition, c: Config, s0: Logged, bs: seq<Byte>, i: nat,
                 m: Machine, was: seq<Event>, mid: seq<Event>, m': Machine, log: seq<Event>)
    requires Agrees(f, c) && i < |bs| && m.mode == InSbDataIac && bs[i] != IAC && mid == was + Closing(c, m, bs[i])
    requires TelnetMachine.Subnegotiate(c, m.telopt, m.buffer).1
    requires Fold(f, s0, bs, i) == Logged(m, was)
    requires Fold(f, Logged(Closed(m, bs[i]), mid), bs[i + 1..], |bs| - (i + 1)) == Logged(m', log)
    ensures Fold(f, s0, bs, |bs|) == Logged(m', log)
  {
    StepClosed(c, m, bs[i]);
    Advance(f, c, s0, bs, i, Logged(m, was), Logged(Closed(m, bs[i]), mid));
    FoldSplit(f, s0, bs, i + 1, |bs| - (i + 1));
  }

  /** A subnegotiation ended, and any command byte that ended it was received as a command. */
  lemma CloseStep(f: Transition, c: Config, s0: Logged, bs: seq<Byte>, i: nat,
                  m: Machine, was: seq<Event>, mid: seq<Event>, m': Machine, log: seq<Event>)
    requires Agrees(f, c) && i < |bs| && m.mode == InSbDataIac && bs[i] != IAC && mid == was + Closing(c, m, bs[i])
    requires !TelnetMachine.Subnegotiate(c, m.telopt, m.buffer).1
    requires Fold(f, s0, bs, i) == Logged(m, was)
    requires bs[i] == SE ==> log == mid && m' == Closed(m, bs[i])
    requires bs[i] != SE ==> Fold(f, Logged(Closed(m, bs[i]), mid), [bs[i]], 1) == Logged(m', log)
    ensures Fold(f, s0, bs, i + 1) == Logged(m', Passed(log, m'.mode, bs[i + 1..i + 1]))
  {
    var b := bs[i];
    StepClosed(c, m, b);
    if b != SE {
      FoldOne(f, c, Logged(Closed(m, b), mid), b);
      Regroup(was, Closing(c, m, b), Step(c, Closed(m, b), b).1);
    }
    Advance(f, c, s0, bs, i, Logged(m, was), Logged(m', log));
  }
}
