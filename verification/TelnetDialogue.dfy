/** Two trackers: what one sends, in any number of messages, the other receives, however the bytes are
    cut on the way. */
module TelnetDialogue {
  import opened Addresses
  import opened TelnetMachine
  import opened TelnetRoundTrip
  import opened Telnet

  datatype Outgoing = Text(bs: seq<Byte>) | Sub(telopt: Byte, bs: seq<Byte>)

  function Wire(o: Outgoing): seq<Byte>
  {
    match o case Text(bs) => Escaped(bs, |bs|) case Sub(telopt, bs) => Framed(telopt, bs)
  }

  function WireAll(os: seq<Outgoing>, n: nat): seq<Byte>
    requires n <= |os|
  {
    if n == 0 then [] else WireAll(os, n - 1) + Wire(os[n - 1])
  }

  /** What a receiver reports of a message. */
  function Reported(c: Config, o: Outgoing): seq<Event>
  {
    match o case Text(bs) => Singles(bs) case Sub(telopt, bs) => Subnegotiate(c, telopt, bs).0
  }

  function ReportedAll(c: Config, os: seq<Outgoing>, n: nat): seq<Event>
    requires n <= |os|
  {
    if n == 0 then [] else ReportedAll(c, os, n - 1) + Reported(c, os[n - 1])
  }

  predicate FitsBuffer(o: Outgoing) { o.Sub? ==> |o.bs| <= MAX_BUFFER }

  /** A receiver has reported these events and nothing else has changed. */
  predicate Reports(s: Logged, r: Logged, events: seq<Event>)
  {
    s.m.mode == r.m.mode == InData && r.m.q == s.m.q && r.log == s.log + events
  }

  lemma ReportsThen(s: Logged, s1: Logged, s2: Logged, e1: seq<Event>, e2: seq<Event>)
    requires Reports(s, s1, e1) && Reports(s1, s2, e2)
    ensures Reports(s, s2, e1 + e2)
  {
    Regroup(s.log, e1, e2);
  }

  lemma OneArrives(c: Config, s: Logged, o: Outgoing) returns (r: Logged)
    requires s.m.mode == InData && FitsBuffer(o)
    ensures r == Run(c, s, Wire(o)) && Reports(s, r, Reported(c, o))
  {
    r := Run(c, s, Wire(o));
    match o
    case Text(bs) =>
      EscapeRoundTrip(c, s, bs, |bs|);
      assert bs[..|bs|] == bs;
    case Sub(telopt, bs) => SubRoundTrip(c, s, telopt, bs);
  }

  /** A receiver in the data mode reports exactly the messages of a sender, in order. */
  lemma {:induction false} AllArrive(c: Config, s: Logged, os: seq<Outgoing>, n: nat) returns (r: Logged)
    requires n <= |os| && s.m.mode == InData && forall i :: 0 <= i < |os| ==> FitsBuffer(os[i])
    ensures r == Run(c, s, WireAll(os, n)) && Reports(s, r, ReportedAll(c, os, n))
  {
    if n == 0 {
      r := s;
      assert s.log + [] == s.log;
    } else {
      var s1 := AllArrive(c, s, os, n - 1);
      r := OneArrives(c, s1, os[n - 1]);
      RunOnto(c, s, WireAll(os, n - 1), Wire(os[n - 1]), s1, r);
      ReportsThen(s, s1, r, ReportedAll(c, os, n - 1), Reported(c, os[n - 1]));
    }
  }

  method SendOne(a: Tracker, o: Outgoing)
    modifies a`log
    ensures OnlySends(old(a.log), a.log) && SentBytes(a.log) == SentBytes(old(a.log)) + Wire(o)
  {
    match o
    case Text(bs) => a.Send(bs);
    case Sub(telopt, bs) => a.SendSubnegotiation(telopt, bs);
  }

  method SendAll(a: Tracker, os: seq<Outgoing>)
    modifies a`log
    ensures OnlySends(old(a.log), a.log) && SentBytes(a.log) == SentBytes(old(a.log)) + WireAll(os, |os|)
  {
    ghost var sent := SentBytes(a.log);
    assert sent + [] == sent;
    for n := 0 to |os|
      invariant OnlySends(old(a.log), a.log) && SentBytes(a.log) == sent + WireAll(os, n)
    {
      SendOne(a, os[n]);
      Regroup(sent, WireAll(os, n), Wire(os[n]));
    }
  }

  /** One tracker sends messages, the bytes are cut in any way, and the other tracker receives the
      pieces: it reports exactly those messages and is ready for more. */
  method Converse(a: Tracker, b: Tracker, os: seq<Outgoing>, cut: seq<Byte> -> seq<seq<Byte>>)
    requires a != b && b.Valid() && b.mode == InData
    requires forall i :: 0 <= i < |os| ==> FitsBuffer(os[i])
    requires forall s :: Joined(cut(s), |cut(s)|) == s
    modifies a`log, b
    ensures OnlySends(old(a.log), a.log)
    ensures b.Valid() && b.mode == InData && b.q == old(b.q)
    ensures b.log == old(b.log) + ReportedAll(b.config, os, |os|)
  {
    var before := |SentBytes(a.log)|;
    SendAll(a, os);
    var bytes := SentBytes(a.log)[before..];
    assert bytes == WireAll(os, |os|);
    ghost var r := AllArrive(b.config, Logged(b.Now(), b.log), os, |os|);
    b.RecvAll(cut(bytes));
  }
}
