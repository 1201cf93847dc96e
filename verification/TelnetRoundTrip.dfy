/** What one tracker sends, another receives. */
module TelnetRoundTrip {
  import opened Addresses
  import opened TelnetMachine

  lemma RunOnto(c: Config, s: Logged, a: seq<Byte>, b: seq<Byte>, s1: Logged, s2: Logged)
    requires Run(c, s, a) == s1 && Run(c, s1, b) == s2
    ensures Run(c, s, a + b) == s2
  {
    RunAppend(c, s, a, b);
  }

  lemma RunOne(c: Config, s: Logged, a: Byte)
    ensures Run(c, s, [a]) == LogStep(c, s, a)
  {
    assert Fold(Stepper(c), s, [a], 0) == s;
  }

  lemma RunTwo(c: Config, s: Logged, a: Byte, b: Byte)
    ensures Run(c, s, [a, b]) == LogStep(c, LogStep(c, s, a), b)
  {
    RunOne(c, s, a);
    RunOne(c, LogStep(c, s, a), b);
    RunAppend(c, s, [a], [b]);
    assert [a] + [b] == [a, b];
  }

  /** An escaped byte, received as data. */
  lemma DataByte(c: Config, s: Logged, b: Byte)
    requires s.m.mode == InData
    ensures Run(c, s, EscapedByte(b)) == s.(log := s.log + [Data(b)])
  {
    if b == IAC {
      RunTwo(c, s, IAC, IAC);
      assert s.log + [] == s.log;
    } else {
      RunOne(c, s, b);
    }
  }

  /** Escaped data received in the data mode is exactly that data, and the mode is data again. */
  lemma {:induction false} EscapeRoundTrip(c: Config, s: Logged, bs: seq<Byte>, n: nat)
    requires n <= |bs| && s.m.mode == InData
    ensures Run(c, s, Escaped(bs, n)) == s.(log := s.log + Singles(bs[..n]))
  {
    if n == 0 {
      assert s.log + Singles([]) == s.log;
    } else {
      EscapeRoundTrip(c, s, bs, n - 1);
      var s1 := s.(log := s.log + Singles(bs[..n - 1]));
      var s2 := s.(log := s.log + Singles(bs[..n]));
      assert Run(c, s1, EscapedByte(bs[n - 1])) == s2 by {
        DataByte(c, s1, bs[n - 1]);
        assert Singles(bs[..n]) == Singles(bs[..n - 1]) + [Data(bs[n - 1])];
        Regroup(s.log, Singles(bs[..n - 1]), [Data(bs[n - 1])]);
      }
      RunOnto(c, s, Escaped(bs, n - 1), EscapedByte(bs[n - 1]), s1, s2);
    }
  }

  /** An escaped byte, received inside a subnegotiation. */
  lemma SubByte(c: Config, s: Logged, b: Byte)
    requires s.m.mode == InSbData
    ensures var r := Run(c, s, EscapedByte(b));
            if |s.m.buffer| < MAX_BUFFER then r == s.(m := s.m.(buffer := s.m.buffer + [b]))
            else r == Logged(s.m.(mode := InData), s.log + [Warning(Overflow)])
  {
    assert s.log + [] == s.log;
    if b == IAC {
      RunTwo(c, s, IAC, IAC);
    } else {
      RunOne(c, s, b);
    }
  }

  /** An escaped string that fits the buffer is in the buffer afterwards. */
  lemma {:induction false} SubBytes(c: Config, s: Logged, bs: seq<Byte>, n: nat)
    requires n <= |bs| && n <= MAX_BUFFER && s.m.mode == InSbData && s.m.buffer == []
    ensures Run(c, s, Escaped(bs, n)) == s.(m := s.m.(buffer := bs[..n]))
  {
    if n != 0 {
      SubBytes(c, s, bs, n - 1);
      var s1 := s.(m := s.m.(buffer := bs[..n - 1]));
      var s2 := s.(m := s.m.(buffer := bs[..n]));
      assert Run(c, s1, EscapedByte(bs[n - 1])) == s2 by {
        SubByte(c, s1, bs[n - 1]);
        assert bs[..n] == bs[..n - 1] + [bs[n - 1]];
      }
      RunOnto(c, s, Escaped(bs, n - 1), EscapedByte(bs[n - 1]), s1, s2);
    }
  }

  lemma Opens(c: Config, s: Logged, telopt: Byte)
    requires s.m.mode == InData
    ensures Run(c, s, [IAC, SB, telopt]) == s.(m := s.m.(mode := InSbData, telopt := telopt, buffer := []))
  {
    RunTwo(c, s, IAC, SB);
    RunOne(c, s.(m := s.m.(mode := InSb)), telopt);
    RunAppend(c, s, [IAC, SB], [telopt]);
    assert [IAC, SB] + [telopt] == [IAC, SB, telopt];
    assert s.log + [] == s.log;
  }

  lemma Closes(c: Config, s: Logged)
    requires s.m.mode == InSbData
    ensures Run(c, s, [IAC, SE])
         == Logged(s.m.(mode := InData), s.log + Subnegotiate(c, s.m.telopt, s.m.buffer).0)
  {
    RunTwo(c, s, IAC, SE);
    assert s.log + [] == s.log;
  }

  /** A framed subnegotiation that fits the buffer is received as exactly that subnegotiation. */
  lemma SubRoundTrip(c: Config, s: Logged, telopt: Byte, bs: seq<Byte>)
    requires s.m.mode == InData && |bs| <= MAX_BUFFER
    ensures Run(c, s, Framed(telopt, bs))
         == Logged(Machine(InData, s.m.q, bs, telopt), s.log + Subnegotiate(c, telopt, bs).0)
  {
    var s1 := s.(m := s.m.(mode := InSbData, telopt := telopt, buffer := []));
    var s2 := s1.(m := s1.m.(buffer := bs));
    Opens(c, s, telopt);
    SubBytes(c, s1, bs, |bs|);
    assert bs[..|bs|] == bs;
    Closes(c, s2);
    RunAppend(c, s, [IAC, SB, telopt], Escaped(bs, |bs|));
    RunAppend(c, s, [IAC, SB, telopt] + Escaped(bs, |bs|), [IAC, SE]);
  }

  /** What is reported of a subnegotiation: itself alone, and for TTYPE, ENVIRON, NEW-ENVIRON, MSSP and ZMP what
      their parser makes of it besides. */
  lemma SubIsReported(c: Config, telopt: Byte, bs: seq<Byte>)
    ensures telopt !in {24, 36, 39, 70, 93} ==> Subnegotiate(c, telopt, bs) == ([Subnegotiation(telopt, bs)], false)
    ensures telopt in {24, 36, 39, 70, 93} ==>
              Subnegotiate(c, telopt, bs)
              == ([Subnegotiation(telopt, bs)] + ParsedItems(telopt, c.parser(telopt, bs).0), c.parser(telopt, bs).1)
  {
    assert [Subnegotiation(telopt, bs)] + ParsedItems(telopt, []) == [Subnegotiation(telopt, bs)];
  }

  lemma {:induction false} LogGrows(c: Config, s: Logged, bs: seq<Byte>, n: nat)
    requires n <= |bs|
    ensures s.log <= Fold(Stepper(c), s, bs, n).log
  {
    if n != 0 {
      LogGrows(c, s, bs, n - 1);
      var s1 := Fold(Stepper(c), s, bs, n - 1);
      assert Fold(Stepper(c), s, bs, n) == LogStep(c, s1, bs[n - 1]);
    }
  }

  lemma {:induction false} EscapedPrefix(bs: seq<Byte>, k: nat, n: nat)
    requires k <= n <= |bs|
    ensures Escaped(bs, k) <= Escaped(bs, n)
    decreases n
  {
    if k < n { EscapedPrefix(bs, k, n - 1); }
  }

  /** A longer one makes the receiver warn and leave the subnegotiation. */
  lemma SubTooLong(c: Config, s: Logged, telopt: Byte, bs: seq<Byte>)
    requires s.m.mode == InData && |bs| > MAX_BUFFER
    ensures s.log + [Warning(Overflow)] <= Run(c, s, Framed(telopt, bs)).log
  {
    var n := MAX_BUFFER + 1;
    var s1 := s.(m := s.m.(mode := InSbData, telopt := telopt, buffer := []));
    var s2 := s1.(m := s1.m.(buffer := bs[..MAX_BUFFER]));
    var byte := EscapedByte(bs[MAX_BUFFER]);
    Opens(c, s, telopt);
    SubBytes(c, s1, bs, MAX_BUFFER);
    SubByte(c, s2, bs[MAX_BUFFER]);
    RunAppend(c, s1, Escaped(bs, MAX_BUFFER), byte);
    var head := [IAC, SB, telopt] + Escaped(bs, n);
    RunAppend(c, s, [IAC, SB, telopt], Escaped(bs, n));
    EscapedPrefix(bs, n, |bs|);
    var rest := Framed(telopt, bs)[|head|..];
    assert Framed(telopt, bs) == head + rest;
    RunAppend(c, s, head, rest);
    LogGrows(c, Run(c, s, head), rest, |rest|);
  }

  /** The receiver reports the subnegotiation next exactly when it fits the buffer. */
  lemma SubRoundTripExact(c: Config, s: Logged, telopt: Byte, bs: seq<Byte>)
    requires s.m.mode == InData
    ensures s.log + [Subnegotiation(telopt, bs)] <= Run(c, s, Framed(telopt, bs)).log <==> |bs| <= 16384
  {
    var log := Run(c, s, Framed(telopt, bs)).log;
    if |bs| <= MAX_BUFFER {
      SubRoundTrip(c, s, telopt, bs);
      assert log[..|s.log| + 1] == s.log + [Subnegotiation(telopt, bs)];
    } else {
      SubTooLong(c, s, telopt, bs);
      assert log[|s.log|] == (s.log + [Warning(Overflow)])[|s.log|];
      assert (s.log + [Subnegotiation(telopt, bs)])[|s.log|] != log[|s.log|];
    }
  }

  /** The data of a subnegotiation that has not ended. */
  lemma SubStarts(c: Config, s: Logged, telopt: Byte, bs: seq<Byte>)
    requires s.m.mode == InData && |bs| <= MAX_BUFFER
    ensures Run(c, s, [IAC, SB, telopt] + Escaped(bs, |bs|)) == s.(m := Machine(InSbData, s.m.q, bs, telopt))
  {
    var s1 := s.(m := s.m.(mode := InSbData, telopt := telopt, buffer := []));
    Opens(c, s, telopt);
    SubBytes(c, s1, bs, |bs|);
    assert bs[..|bs|] == bs;
    RunOnto(c, s, [IAC, SB, telopt], Escaped(bs, |bs|), s1, s.(m := Machine(InSbData, s.m.q, bs, telopt)));
  }

  lemma BreaksOff(c: Config, s: Logged, b: Byte, evs: seq<Event>)
    requires s.m.mode == InSbData && b !in {SE, IAC} && !Subnegotiate(c, s.m.telopt, s.m.buffer).1
    requires evs == [Warning(Protocol)] + Subnegotiate(c, s.m.telopt, s.m.buffer).0
    ensures Run(c, s, [IAC, b]) == Run(c, Logged(s.m.(mode := InData), s.log + evs), [IAC, b])
  {
    var s1 := Logged(s.m.(mode := InData), s.log + evs);
    RunTwo(c, s, IAC, b);
    RunTwo(c, s1, IAC, b);
    assert s.log + [] == s.log && s1.log + [] == s1.log;
    Regroup(s.log, evs, StepIac(s.m.(mode := InIac), b).1);
  }

  /** A subnegotiation that breaks off with another command is reported with a warning, and the command is
      then received as if it stood alone, unless the parser of the option has taken over. */
  lemma SubBreaksOff(c: Config, s: Logged, telopt: Byte, bs: seq<Byte>, b: Byte)
    requires s.m.mode == InData && |bs| <= MAX_BUFFER && b !in {SE, IAC} && !Subnegotiate(c, telopt, bs).1
    ensures var s1 := Logged(Machine(InData, s.m.q, bs, telopt),
                             s.log + ([Warning(Protocol)] + Subnegotiate(c, telopt, bs).0));
            Run(c, s, [IAC, SB, telopt] + Escaped(bs, |bs|) + [IAC, b]) == Run(c, s1, [IAC, b])
  {
    var s2 := s.(m := Machine(InSbData, s.m.q, bs, telopt));
    SubStarts(c, s, telopt, bs);
    BreaksOff(c, s2, b, [Warning(Protocol)] + Subnegotiate(c, telopt, bs).0);
    RunOnto(c, s, [IAC, SB, telopt] + Escaped(bs, |bs|), [IAC, b], s2, Run(c, s2, [IAC, b]));
  }
}
