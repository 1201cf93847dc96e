/** The requests and timers that change an allocation. */
module TurnServer {
  import opened Common
  import opened Addresses
  import opened AddrHash
  import opened Slots
  import opened LocalMap
  import opened AllocTheory
  import opened Allocation

  const MAX_UNKNOWN: nat := 128

  /** An attribute of a request, as far as the handlers tell attributes apart. A channel
      number that is missing or out of range reads as zero, an undecodable address as
      unspecified. */
  datatype Attr = ChannelNumber(n: nat) | PeerAddress(a: Addr) | Skipped | Other(kind: nat)

  datatype Server = Server(permissionLifetime: nat, channelLifetime: nat, good: Addr -> bool, serverRelay: bool) {
    /** How long the permission of a renewed channel runs. */
    function BoundLifetime(): nat { if channelLifetime == 0 then permissionLifetime else channelLifetime }
  }

  /** What a handler sees of its session: the relay sockets and the time. */
  datatype Context = Context(tcpRelay: bool, relay4: bool, relay6: bool, time: nat) {
    predicate HasRelay(a: Addr) { if a.V6? then relay6 else relay4 }
  }

  /** The moment some seconds from now, on a clock of 32 bits. */
  function Expiry(time: nat, delta: nat): (r: nat)
    ensures r < 0x1_0000_0000 && (r - time - delta) % 0x1_0000_0000 == 0
    ensures time + delta < 0x1_0000_0000 ==> r == time + delta
  {
    (time + delta) % 0x1_0000_0000
  }

  // ---------------------------------------------------------------- timers

  method UpdatePermissionLifetime(al: Allocation, server: Server, time: nat, pr: Ref, delta: nat) returns (ret: int)
    requires al.Ok() && LiveP(al.perms, pr)
    modifies al`perms
    ensures al.Ok() && ret == 0
    ensures al.perms == Store(old(al.perms), pr, At(old(al.perms), pr).(
              expiration := Expiry(time, if delta == 0 then server.permissionLifetime else delta), timer := true))
    ensures SamePermits(old(al.perms), al.perms)
  {
    assert PermOk(al.hash, al.perms, al.chns, pr);
    if !At(al.perms, pr).owned { assert false; }
    var d := if delta == 0 then server.permissionLifetime else delta;
    var p := At(al.perms, pr).(expiration := Expiry(time, d), timer := true);
    RenewPermKeeps(al.hash, al.perms, al.chns, pr, Expiry(time, d));
    forall a ensures Permits(Store(al.perms, pr, p), a) <==> Permits(al.perms, a) {
      PermitsAfterUpdate(al.perms, pr, p, a);
    }
    al.perms := Store(al.perms, pr, p);
    ret := 0;
  }

  /** Renewing a channel renews its permission for as long. */
  method UpdateChannelLifetime(al: Allocation, server: Server, time: nat, cr: Ref) returns (ret: int)
    requires al.Ok() && LiveC(al.chns, cr) && At(al.chns, cr).owner.Some? && LiveP(al.perms, At(al.chns, cr).owner.value)
    modifies al`perms, al`chns
    ensures al.Ok() && ret == 0
    ensures var pr := At(old(al.chns), cr).owner.value;
            al.perms == Store(old(al.perms), pr, At(old(al.perms), pr).(
              expiration := Expiry(time, server.BoundLifetime()), timer := true))
    ensures al.chns == Store(old(al.chns), cr, At(old(al.chns), cr).(
              expiration := Expiry(time, server.channelLifetime), timer := true))
    ensures SamePermits(old(al.perms), al.perms) && SameBindings(old(al.chns), al.chns)
  {
    var pr := At(al.chns, cr).owner.value;
    ret := UpdatePermissionLifetime(al, server, time, pr, server.channelLifetime);
    if ret < 0 { assert false; }
    var c := At(al.chns, cr).(expiration := Expiry(time, server.channelLifetime), timer := true);
    RenewChanKeeps(al.hash, al.perms, al.chns, cr, c.expiration);
    forall n, a ensures Binds(Store(al.chns, cr, c), n, a) <==> Binds(al.chns, n, a) {
      BindsAfterUpdate(al.chns, cr, c, n, a);
    }
    al.chns := Store(al.chns, cr, c);
  }

  // ---------------------------------------------------------------- ChannelBind

  /** What the attribute loop of a ChannelBind request has collected. */
  datatype BindScan = BindScan(chnum: nat, peer: Addr, found: bool, unknown: nat, err: int) {
    predicate Stopped() { err != 0 || unknown >= MAX_UNKNOWN }
  }

  function BindStep(ctx: Context, q: BindScan, x: Attr): BindScan
  {
    match x
    case Skipped => q
    case ChannelNumber(n) =>
      if q.chnum != 0 then q.(chnum := 0, err := 400)
      else if n == 0 then q.(err := 400)
      else q.(chnum := n)
    case PeerAddress(a) =>
      var q1 := if ctx.HasRelay(a) then q.(peer := a) else q.(peer := a, err := 443);
      if a.GetPort() < 1 then q1.(err := 400) else q1.(found := true)
    case Other(kind) =>
      if kind <= 0x7FFF then q.(unknown := q.unknown + 1) else q
  }

  function ScanBind(ctx: Context, xs: seq<Attr>): (r: BindScan)
    ensures r.err in {0, 400, 443}
    ensures r.err == 0 && r.found ==> r.peer.GetPort() >= 1
  {
    if xs == [] then BindScan(0, Unspec, false, 0, 0)
    else
      var q := ScanBind(ctx, xs[..|xs| - 1]);
      if q.Stopped() then q else BindStep(ctx, q, xs[|xs| - 1])
  }

  lemma {:induction false} ScanBindStops(ctx: Context, xs: seq<Attr>, i: nat)
    requires i <= |xs| && ScanBind(ctx, xs[..i]).Stopped()
    ensures ScanBind(ctx, xs) == ScanBind(ctx, xs[..i])
    decreases |xs| - i
  {
    if i == |xs| {
      assert xs[..i] == xs;
    } else {
      assert xs[..i + 1][..i] == xs[..i];
      ScanBindStops(ctx, xs, i + 1);
    }
  }

  method ReadBindRequest(ctx: Context, xs: seq<Attr>) returns (q: BindScan)
    ensures q == ScanBind(ctx, xs)
  {
    q := BindScan(0, Unspec, false, 0, 0);
    var i := 0;
    while i < |xs| && q.err == 0 && q.unknown < MAX_UNKNOWN
      invariant i <= |xs| && q == ScanBind(ctx, xs[..i])
    {
      assert xs[..i + 1][..i] == xs[..i];
      q := BindStep(ctx, q, xs[i]);
      i := i + 1;
    }
    if i < |xs| { ScanBindStops(ctx, xs, i); } else { assert xs[..i] == xs; }
  }

  /** An attribute that lets a ChannelBind request fail, whatever else it holds. */
  predicate BlocksBind(ctx: Context, x: Attr)
  {
    match x
    case Skipped => false
    case ChannelNumber(n) => n == 0
    case PeerAddress(V6(_, port)) => !ctx.relay6 || port < 1
    case PeerAddress(V4(_, port)) => !ctx.relay4 || port < 1
    case PeerAddress(Unspec) => true
    case Other(kind) => kind <= 0x7FFF
  }

  /** The scan is clean exactly when no attribute blocks and the channel number is given at
      most once; it then holds that number and the last peer address. */
  lemma {:induction false} ScanBindMeaning(ctx: Context, xs: seq<Attr>)
    ensures var q := ScanBind(ctx, xs);
            && (q.unknown == 0 && q.err == 0 <==> CleanBind(ctx, xs))
            && (CleanBind(ctx, xs) ==> NumberRead(q.chnum, xs) && PeerRead(q.found, q.peer, xs))
    decreases |xs|
  {
    if xs != [] {
      var front, last := xs[..|xs| - 1], xs[|xs| - 1];
      ScanBindMeaning(ctx, front);
      assert xs == front + [last];
      CleanBindNext(ctx, front, last);
      if CleanBind(ctx, xs) {
        var q := ScanBind(ctx, front);
        NumberReadNext(q.chnum, front, last);
        PeerReadNext(q.found, q.peer, front, last);
      }
    }
  }

  /** The only channel number of the request, or zero. */
  ghost predicate NumberRead(n: nat, xs: seq<Attr>)
  {
    && (n == 0 <==> forall i :: 0 <= i < |xs| ==> !xs[i].ChannelNumber?)
    && (n != 0 ==> ChannelNumber(n) in xs)
  }

  /** The last peer address of the request, if any. */
  ghost predicate PeerRead(found: bool, peer: Addr, xs: seq<Attr>)
  {
    && (found <==> exists i :: 0 <= i < |xs| && xs[i].PeerAddress?)
    && (found ==> exists i: nat :: LastPeer(xs, i) && peer == xs[i].a)
  }

  lemma NumberReadNext(n: nat, xs: seq<Attr>, x: Attr)
    requires NumberRead(n, xs)
    ensures !x.ChannelNumber? ==> NumberRead(n, xs + [x])
    ensures x.ChannelNumber? && x.n != 0 && n == 0 ==> NumberRead(x.n, xs + [x])
  {
    var ys := xs + [x];
    assert ys[|xs|] == x && forall i :: 0 <= i < |xs| ==> ys[i] == xs[i];
  }

  lemma PeerReadNext(found: bool, peer: Addr, xs: seq<Attr>, x: Attr)
    requires PeerRead(found, peer, xs)
    ensures if x.PeerAddress? then PeerRead(true, x.a, xs + [x]) else PeerRead(found, peer, xs + [x])
  {
    var ys := xs + [x];
    assert ys[|xs|] == x && forall i :: 0 <= i < |xs| ==> ys[i] == xs[i];
    if x.PeerAddress? {
      assert LastPeer(ys, |xs|);
    } else if found {
      var i: nat :| LastPeer(xs, i) && peer == xs[i].a;
      assert LastPeer(ys, i);
    }
  }

  ghost predicate CleanBind(ctx: Context, xs: seq<Attr>)
  {
    && (forall i :: 0 <= i < |xs| ==> !BlocksBind(ctx, xs[i]))
    && (forall i, j :: 0 <= i < j < |xs| ==> !(xs[i].ChannelNumber? && xs[j].ChannelNumber?))
  }

  lemma CleanBindNext(ctx: Context, xs: seq<Attr>, x: Attr)
    ensures CleanBind(ctx, xs + [x]) <==>
              && CleanBind(ctx, xs) && !BlocksBind(ctx, x)
              && (x.ChannelNumber? ==> forall i :: 0 <= i < |xs| ==> !xs[i].ChannelNumber?)
  {
    var ys := xs + [x];
    if CleanBind(ctx, ys) {
      assert forall i :: 0 <= i < |xs| ==> ys[i] == xs[i];
      assert ys[|xs|] == x;
    }
  }

  /** An attribute that stops a ChannelBind request: one that blocks, or a second channel number. */
  ghost predicate BadBind(ctx: Context, xs: seq<Attr>, i: nat)
    requires i < |xs|
  {
    BlocksBind(ctx, xs[i]) || (xs[i].ChannelNumber? && exists j :: 0 <= j < i && xs[j].ChannelNumber?)
  }

  ghost predicate FirstBad(ctx: Context, xs: seq<Attr>, i: nat)
  {
    i < |xs| && BadBind(ctx, xs, i) && CleanBind(ctx, xs[..i])
  }

  /** The reply to a request in which this attribute is the first bad one. */
  function BindRefusal(x: Attr): int
  {
    match x
    case PeerAddress(V4(_, port)) => if port < 1 then 400 else 443
    case PeerAddress(V6(_, port)) => if port < 1 then 400 else 443
    case Other(_) => 420
    case _ => 400
  }

  function BindReply(q: BindScan): int { if q.unknown > 0 then 420 else q.err }

  lemma {:induction false} UnknownBindStays(ctx: Context, xs: seq<Attr>, i: nat)
    requires i <= |xs|
    ensures ScanBind(ctx, xs[..i]).unknown <= ScanBind(ctx, xs).unknown
    decreases |xs|
  {
    if i == |xs| {
      assert xs[..i] == xs;
    } else {
      assert xs[..|xs| - 1][..i] == xs[..i];
      UnknownBindStays(ctx, xs[..|xs| - 1], i);
    }
  }

  lemma BadStep(ctx: Context, q: BindScan, x: Attr)
    requires q.unknown == 0 && q.err == 0 && (BlocksBind(ctx, x) || (x.ChannelNumber? && q.chnum != 0))
    ensures BindReply(BindStep(ctx, q, x)) == BindRefusal(x) != 0
  {
  }

  /** A reply that is not zero stays. */
  lemma ReplyStays(ctx: Context, xs: seq<Attr>, i: nat)
    requires i <= |xs| && BindReply(ScanBind(ctx, xs[..i])) != 0
    ensures BindReply(ScanBind(ctx, xs)) == BindReply(ScanBind(ctx, xs[..i]))
  {
    var q := ScanBind(ctx, xs[..i]);
    if q.err != 0 || q.unknown >= MAX_UNKNOWN { ScanBindStops(ctx, xs, i); } else { UnknownBindStays(ctx, xs, i); }
  }

  /** The first bad attribute decides the reply. */
  lemma FirstBadReply(ctx: Context, xs: seq<Attr>, i: nat)
    requires FirstBad(ctx, xs, i)
    ensures BindReply(ScanBind(ctx, xs)) == BindRefusal(xs[i])
  {
    var ys := xs[..i + 1];
    assert ys[..i] == xs[..i] && ys[i] == xs[i];
    ScanBindMeaning(ctx, xs[..i]);
    if xs[i].ChannelNumber? && !BlocksBind(ctx, xs[i]) {
      var j :| 0 <= j < i && xs[j].ChannelNumber?;
      assert xs[..i][j].ChannelNumber?;
    }
    BadStep(ctx, ScanBind(ctx, xs[..i]), xs[i]);
    ReplyStays(ctx, xs, i + 1);
  }

  ghost predicate LastPeer(xs: seq<Attr>, i: nat)
  {
    i < |xs| && xs[i].PeerAddress? && forall j :: i < j < |xs| ==> !xs[j].PeerAddress?
  }

  /** The request names one channel number and a peer, all peers it lists are usable and
      nothing it must understand is unknown. */
  ghost predicate BindWellFormed(q: BindScan)
  {
    q.unknown == 0 && q.err == 0 && q.chnum != 0 && !AddrAny(q.peer) && q.found && ValidChannel(q.chnum)
  }

  /** The request may proceed: the pair is bound already, or both its sides are free and the
      peer is allowed. */
  ghost predicate BindAllowed(server: Server, cs: Chans, q: BindScan)
  {
    || Binds(cs, q.chnum, q.peer)
    || ((forall b :: !Binds(cs, q.chnum, b)) && (forall n :: !Binds(cs, n, q.peer)) && server.good(q.peer))
  }

  /** The number or the peer has a binding. */
  ghost predicate PairTaken(cs: Chans, q: BindScan)
  {
    (exists b :: Binds(cs, q.chnum, b)) || (exists n :: Binds(cs, n, q.peer))
  }

  /** The channel with this number and its permission expire one channel lifetime from now. */
  ghost predicate Renewed(server: Server, time: nat, ps: Perms, cs: Chans, chnum: nat)
  {
    exists r :: LiveC(cs, r) && At(cs, r).chnum == chnum
             && At(cs, r).timer && At(cs, r).expiration == Expiry(time, server.channelLifetime)
             && At(cs, r).owner.Some? && LiveP(ps, At(cs, r).owner.value) && At(ps, At(cs, r).owner.value).timer
             && (server.channelLifetime != 0 ==> At(ps, At(cs, r).owner.value).expiration == At(cs, r).expiration)
  }

  /** Channels with other numbers and permissions for other addresses are not touched. */
  ghost predicate OthersKept(ps: Perms, cs: Chans, ps': Perms, cs': Chans, chnum: nat, peer: Addr)
  {
    && (forall r :: LiveC(cs, r) && At(cs, r).chnum != chnum ==> LiveC(cs', r) && At(cs', r) == At(cs, r))
    && (forall r :: LiveP(ps, r) && !AddrEqNoPort(At(ps, r).addr, peer) ==> LiveP(ps', r) && At(ps', r) == At(ps, r))
  }

  method HandleChannelBind(al: Allocation, server: Server, ctx: Context, xs: seq<Attr>) returns (err: int)
    requires al.Steady()
    modifies al
    ensures al.Steady() && al.valid == old(al.valid) && al.strange == old(al.strange)
    ensures err == 0 <==> !ctx.tcpRelay && (al.valid ==>
              BindWellFormed(ScanBind(ctx, xs)) && BindAllowed(server, old(al.chns), ScanBind(ctx, xs)))
    ensures err in {0, 400, 403, 420, 443} && (ctx.tcpRelay ==> err == 403)
    ensures !ctx.tcpRelay && al.valid ==> forall i: nat :: FirstBad(ctx, xs, i) ==> err == BindRefusal(xs[i])
    ensures !ctx.tcpRelay && al.valid && err != 0 && CleanBind(ctx, xs) ==>
              err == if BindWellFormed(ScanBind(ctx, xs)) && !PairTaken(old(al.chns), ScanBind(ctx, xs)) then 403 else 400
    ensures err != 0 || !al.valid ==> al.perms == old(al.perms) && al.chns == old(al.chns)
    ensures err == 0 && al.valid ==> BindsPlus(old(al.chns), al.chns, ScanBind(ctx, xs).chnum, ScanBind(ctx, xs).peer)
    ensures err == 0 && al.valid ==> PermitsPlus(old(al.perms), al.perms, ScanBind(ctx, xs).peer)
    ensures err == 0 && al.valid ==>
              Renewed(server, ctx.time, al.perms, al.chns, ScanBind(ctx, xs).chnum)
              && OthersKept(old(al.perms), old(al.chns), al.perms, al.chns, ScanBind(ctx, xs).chnum, ScanBind(ctx, xs).peer)
  {
    if ctx.tcpRelay { return 403; }
    if !al.valid { return 0; }
    var q := ReadBindRequest(ctx, xs);
    ScanBindMeaning(ctx, xs);
    forall i: nat | FirstBad(ctx, xs, i) ensures BindReply(q) == BindRefusal(xs[i]) { FirstBadReply(ctx, xs, i); }
    if q.unknown > 0 { return 420; }
    if q.err != 0 { return q.err; }
    if q.chnum == 0 || AddrAny(q.peer) || !q.found { return 400; }
    if !ValidChannel(q.chnum) { return 400; }
    err := BindOrRefresh(al, server, ctx.time, q.chnum, q.peer);
  }

  method BindOrRefresh(al: Allocation, server: Server, time: nat, chnum: nat, peer: Addr) returns (err: int)
    requires al.Steady() && ValidChannel(chnum) && peer.GetPort() >= 1
    modifies al`perms, al`chns
    ensures al.Steady()
    ensures err == 0 <==> (Binds(old(al.chns), chnum, peer) ||
              ((forall b :: !Binds(old(al.chns), chnum, b)) && (forall n :: !Binds(old(al.chns), n, peer)) && server.good(peer)))
    ensures err != 0 ==>
              err == if (exists b :: Binds(old(al.chns), chnum, b)) || (exists n :: Binds(old(al.chns), n, peer)) then 400 else 403
    ensures err != 0 ==> al.perms == old(al.perms) && al.chns == old(al.chns)
    ensures err == 0 ==> BindsPlus(old(al.chns), al.chns, chnum, peer) && PermitsPlus(old(al.perms), al.perms, peer)
    ensures err == 0 ==>
              Renewed(server, time, al.perms, al.chns, chnum)
              && OthersKept(old(al.perms), old(al.chns), al.perms, al.chns, chnum, peer)
  {
    var found, cr := al.GetChannel(chnum);
    ghost var ps0, cs0 := al.perms, al.chns;
    if found {
      NumberTaken(al.hash, al.perms, al.chns, cr, peer);
      var c := At(al.chns, cr);
      if !AddrEq(peer, c.peer) { return 400; }
      if c.owner.None? || !AddrEqNoPort(peer, At(al.perms, c.owner.value).addr) || c.port != peer.GetPort() {
        assert false;
      }
      PermitsSame(al.perms, peer);
    } else {
      var taken, other := al.GetChannelByPeer(peer);
      NumberFree(al.chns, chnum);
      PeerTaken(al.chns, peer, taken, other);
      if taken { return 400; }
      if !server.good(peer) { return 403; }
      cr := al.NewChannel(chnum, peer);
    }
    err := Renew(al, server, time, cr, ps0, cs0);
  }

  /** The last step of a ChannelBind request, for a channel found or just made. */
  method Renew(al: Allocation, server: Server, time: nat, cr: Ref, ghost ps0: Perms, ghost cs0: Chans) returns (err: int)
    requires al.Ok() && Armed(ps0, cs0, {}, {}) && LiveC(al.chns, cr) && At(al.chns, cr).owner.Some?
    requires Kept(ps0, cs0, al.perms, al.chns, At(al.chns, cr).owner.value, cr)
    requires LiveP(al.perms, At(al.chns, cr).owner.value)
    requires AddrEqNoPort(At(al.perms, At(al.chns, cr).owner.value).addr, At(al.chns, cr).peer)
    requires LiveC(cs0, cr) ==> At(cs0, cr).chnum == At(al.chns, cr).chnum
    modifies al`perms, al`chns
    ensures al.Steady() && err == 0
    ensures SamePermits(old(al.perms), al.perms) && SameBindings(old(al.chns), al.chns)
    ensures Renewed(server, time, al.perms, al.chns, At(old(al.chns), cr).chnum)
    ensures OthersKept(ps0, cs0, al.perms, al.chns, At(old(al.chns), cr).chnum, At(old(al.chns), cr).peer)
  {
    ghost var ps1, cs1, pr := al.perms, al.chns, At(al.chns, cr).owner.value;
    err := UpdateChannelLifetime(al, server, time, cr);
    RenewedArmed(ps0, cs0, ps1, cs1, pr, cr, At(al.perms, pr), At(al.chns, cr));
    assert LiveC(al.chns, cr) && LiveP(al.perms, pr);
  }

  /** After a renewal the renewed permission and channel run too. */
  lemma RenewedArmed(ps: Perms, cs: Chans, ps1: Perms, cs1: Chans, pr: Ref, cr: Ref, p: Perm, c: Chan)
    requires Armed(ps, cs, {}, {}) && Kept(ps, cs, ps1, cs1, pr, cr) && LiveP(ps1, pr) && LiveC(cs1, cr)
    requires p.timer && c.timer
    ensures Armed(Store(ps1, pr, p), Store(cs1, cr, c), {}, {})
  {
    var ps2, cs2 := Store(ps1, pr, p), Store(cs1, cr, c);
    forall q | LiveP(ps2, q) && q != pr ensures At(ps2, q).timer { assert LiveP(ps1, q) && LiveP(ps, q); }
    forall q | LiveC(cs2, q) && q != cr ensures At(cs2, q).timer { assert LiveC(cs1, q) && LiveC(cs, q); }
  }

  lemma NumberTaken(hash: BucketOf, ps: Perms, cs: Chans, cr: Ref, peer: Addr)
    requires Inv(hash, ps, cs) && LiveC(cs, cr)
    ensures Binds(cs, At(cs, cr).chnum, At(cs, cr).peer)
    ensures Binds(cs, At(cs, cr).chnum, peer) <==> AddrEq(peer, At(cs, cr).peer)
    ensures var c := At(cs, cr);
            && c.owner.Some? && LiveP(ps, c.owner.value) && c.port == c.peer.GetPort()
            && AddrEqNoPort(c.peer, At(ps, c.owner.value).addr) && Permits(ps, c.peer)
  {
    assert ChanOk(ps, cs, cr);
    if Binds(cs, At(cs, cr).chnum, peer) {
      BindingsBijective(hash, ps, cs, At(cs, cr).chnum, peer, At(cs, cr).chnum, At(cs, cr).peer);
    }
  }

  lemma NumberFree(cs: Chans, chnum: nat)
    requires forall q :: LiveC(cs, q) ==> At(cs, q).chnum != chnum
    ensures forall b :: !Binds(cs, chnum, b)
  {
  }

  lemma PeerTaken(cs: Chans, peer: Addr, taken: bool, r: Ref)
    requires peer.Decoded()
    requires taken ==> LiveC(cs, r) && AddrEq(At(cs, r).peer, peer)
    requires !taken ==> forall q :: LiveC(cs, q) ==> !AddrEq(At(cs, q).peer, peer)
    ensures taken <==> exists n :: Binds(cs, n, peer)
  {
    if taken { assert Binds(cs, At(cs, r).chnum, peer); }
  }

  // ---------------------------------------------------------------- CreatePermission

  datatype PermScan = PermScan(found: nat, unknown: nat, err: int) {
    predicate Stopped() { err != 0 || unknown >= MAX_UNKNOWN }
  }

  function PermStep(server: Server, ctx: Context, q: PermScan, x: Attr): PermScan
  {
    match x
    case Skipped => q
    case PeerAddress(a) =>
      if !ctx.HasRelay(a) then q.(err := 443)
      else if !server.good(a) then q.(err := 403)
      else q.(found := q.found + 1)
    case ChannelNumber(_) => q.(unknown := q.unknown + 1)
    case Other(kind) => if kind <= 0x7FFF then q.(unknown := q.unknown + 1) else q
  }

  function ScanPerm(server: Server, ctx: Context, xs: seq<Attr>): (r: PermScan)
    ensures r.err in {0, 403, 443}
  {
    if xs == [] then PermScan(0, 0, 0)
    else
      var q := ScanPerm(server, ctx, xs[..|xs| - 1]);
      if q.Stopped() then q else PermStep(server, ctx, q, xs[|xs| - 1])
  }

  lemma {:induction false} ScanPermStops(server: Server, ctx: Context, xs: seq<Attr>, i: nat)
    requires i <= |xs| && ScanPerm(server, ctx, xs[..i]).Stopped()
    ensures ScanPerm(server, ctx, xs) == ScanPerm(server, ctx, xs[..i])
    decreases |xs| - i
  {
    if i == |xs| {
      assert xs[..i] == xs;
    } else {
      assert xs[..i + 1][..i] == xs[..i];
      ScanPermStops(server, ctx, xs, i + 1);
    }
  }

  /** An attribute that lets the request fail. */
  predicate Blocks(server: Server, ctx: Context, x: Attr)
  {
    match x
    case Skipped => false
    case PeerAddress(V6(ip, port)) => !ctx.relay6 || !server.good(V6(ip, port))
    case PeerAddress(V4(ip, port)) => !ctx.relay4 || !server.good(V4(ip, port))
    case PeerAddress(Unspec) => !ctx.relay4 || !server.good(Unspec)
    case ChannelNumber(_) => true
    case Other(kind) => kind <= 0x7FFF
  }

  /** The reply to a request in which this attribute is the first that blocks. */
  function PermRefusal(ctx: Context, x: Attr): int
  {
    match x
    case PeerAddress(V6(_, _)) => if ctx.relay6 then 403 else 443
    case PeerAddress(_) => if ctx.relay4 then 403 else 443
    case _ => 420
  }

  predicate FirstBlock(server: Server, ctx: Context, xs: seq<Attr>, i: nat)
  {
    i < |xs| && Blocks(server, ctx, xs[i]) && forall j :: 0 <= j < i ==> !Blocks(server, ctx, xs[j])
  }

  /** What the first pass replies when it is not clean. */
  function PermReply(q: PermScan): int { if q.unknown > 0 then 420 else q.err }

  lemma {:induction false} UnknownStays(server: Server, ctx: Context, xs: seq<Attr>, i: nat)
    requires i <= |xs|
    ensures ScanPerm(server, ctx, xs[..i]).unknown <= ScanPerm(server, ctx, xs).unknown
    decreases |xs|
  {
    if i == |xs| {
      assert xs[..i] == xs;
    } else {
      assert xs[..|xs| - 1][..i] == xs[..i];
      UnknownStays(server, ctx, xs[..|xs| - 1], i);
    }
  }

  /** The first attribute that blocks decides the reply. */
  lemma FirstBlockReply(server: Server, ctx: Context, xs: seq<Attr>, i: nat)
    requires FirstBlock(server, ctx, xs, i)
    ensures PermReply(ScanPerm(server, ctx, xs)) == PermRefusal(ctx, xs[i])
  {
    ScanPermMeaning(server, ctx, xs[..i]);
    assert xs[..i + 1][..i] == xs[..i] && xs[..i + 1][i] == xs[i];
    var q := ScanPerm(server, ctx, xs[..i + 1]);
    if q.err != 0 { ScanPermStops(server, ctx, xs, i + 1); } else { UnknownStays(server, ctx, xs, i + 1); }
  }

  /** The scan is clean exactly when no attribute blocks; it then counts the peers. */
  lemma {:induction false} ScanPermMeaning(server: Server, ctx: Context, xs: seq<Attr>)
    ensures var q := ScanPerm(server, ctx, xs);
            && (q.unknown == 0 && q.err == 0 <==> forall i :: 0 <= i < |xs| ==> !Blocks(server, ctx, xs[i]))
            && (q.unknown == 0 && q.err == 0 ==> (q.found > 0 <==> exists i :: 0 <= i < |xs| && xs[i].PeerAddress?))
    decreases |xs|
  {
    if xs != [] {
      var front, last := xs[..|xs| - 1], xs[|xs| - 1];
      ScanPermMeaning(server, ctx, front);
      assert xs == front + [last];
      assert (forall i :: 0 <= i < |xs| ==> !Blocks(server, ctx, xs[i]))
        <==> (forall i :: 0 <= i < |front| ==> !Blocks(server, ctx, front[i])) && !Blocks(server, ctx, last);
    }
  }

  method ReadPermRequest(server: Server, ctx: Context, xs: seq<Attr>) returns (q: PermScan)
    ensures q == ScanPerm(server, ctx, xs)
  {
    q := PermScan(0, 0, 0);
    var i := 0;
    while i < |xs| && q.err == 0 && q.unknown < MAX_UNKNOWN
      invariant i <= |xs| && q == ScanPerm(server, ctx, xs[..i])
    {
      assert xs[..i + 1][..i] == xs[..i];
      q := PermStep(server, ctx, q, xs[i]);
      i := i + 1;
    }
    if i < |xs| { ScanPermStops(server, ctx, xs, i); } else { assert xs[..i] == xs; }
  }

  /** Find or add the permission of an address and start its timer. When a channel is bound to the
      address with its port, renew the channel, and the permission for as long. */
  method UpdatePermission(al: Allocation, server: Server, time: nat, addr: Addr) returns (ret: int)
    requires al.Steady()
    modifies al`perms, al`chns
    ensures al.Steady() && ret == 0
    ensures PermitsPlus(old(al.perms), al.perms, addr) && SameBindings(old(al.chns), al.chns)
    ensures (forall n :: !Binds(old(al.chns), n, addr)) ==>
              al.chns == old(al.chns) && exists r :: Started(old(al.perms), al.perms, time, server.permissionLifetime, addr, r)
    ensures (exists n :: Binds(old(al.chns), n, addr)) ==>
              && (exists r :: Started(old(al.perms), al.perms, time, server.BoundLifetime(), addr, r))
              && (exists r :: Rearmed(old(al.chns), al.chns, server, time, addr, r))
  {
    ghost var ps0 := al.perms;
    var pr := StartPermission(al, server, time, addr);
    ghost var ps2 := al.perms;
    var bound, cr := al.GetTurnChannel(pr, addr);
    if bound {
      OwnChannel(al.hash, al.perms, al.chns, pr, cr, addr);
      assert ChanOk(al.perms, al.chns, cr);
      ghost var cs := al.chns;
      ret := UpdateChannelLifetime(al, server, time, cr);
      StartedAgain(ps0, ps2, time, server.permissionLifetime, server.BoundLifetime(), addr, pr);
      BothArmed(ps2, cs, pr, At(al.perms, pr), cr, At(al.chns, cr));
      RearmedIs(cs, server, time, addr, cr);
    } else {
      forall n ensures !Binds(al.chns, n, addr) { Unbound(al.hash, al.perms, al.chns, pr, addr, n); }
      ret := 0;
    }
  }

  method StartPermission(al: Allocation, server: Server, time: nat, addr: Addr) returns (pr: Ref)
    requires al.Steady()
    modifies al`perms
    ensures al.Steady() && PermitsPlus(old(al.perms), al.perms, addr)
    ensures Started(old(al.perms), al.perms, time, server.permissionLifetime, addr, pr)
  {
    ghost var ps0 := al.perms;
    var found;
    found, pr := al.GetPermission(addr);
    if found {
      PermitsSame(al.perms, addr);
    } else {
      pr := al.AddPermission(addr);
    }
    ghost var ps1 := al.perms;
    var ret := UpdatePermissionLifetime(al, server, time, pr, 0);
    StartedArmed(ps0, ps1, al.chns, pr, At(al.perms, pr));
  }

  /** Permission r is for the address, running for the lifetime, and every other one is as it was. */
  ghost predicate Started(ps: Perms, ps': Perms, time: nat, lifetime: nat, addr: Addr, r: Ref)
  {
    && LiveP(ps', r) && At(ps', r).timer && At(ps', r).expiration == Expiry(time, lifetime)
    && (AddrEqNoPort(At(ps', r).addr, addr) || At(ps', r).addr == addr)
    && (LiveP(ps, r) ==> AddrEqNoPort(At(ps, r).addr, addr))
    && (forall q :: LiveP(ps, q) && q != r ==> LiveP(ps', q) && At(ps', q) == At(ps, q))
    && (forall q :: LiveP(ps', q) && q != r ==> LiveP(ps, q))
  }

  /** Channel r is that of the address, running for the channel lifetime, and every other one is as it was. */
  ghost predicate Rearmed(cs: Chans, cs': Chans, server: Server, time: nat, addr: Addr, r: Ref)
  {
    && LiveC(cs, r) && At(cs, r).peer == addr
    && LiveC(cs', r) && At(cs', r) == At(cs, r).(expiration := Expiry(time, server.channelLifetime), timer := true)
    && (forall q :: q != r ==> (LiveC(cs', q) <==> LiveC(cs, q)) && (LiveC(cs, q) ==> At(cs', q) == At(cs, q)))
  }

  lemma RearmedIs(cs: Chans, server: Server, time: nat, addr: Addr, r: Ref)
    requires LiveC(cs, r) && At(cs, r).peer == addr
    ensures var c := At(cs, r).(expiration := Expiry(time, server.channelLifetime), timer := true);
            Rearmed(cs, Store(cs, r, c), server, time, addr, r)
  {
  }

  lemma StartedAgain(ps: Perms, ps2: Perms, time: nat, lifetime: nat, lifetime': nat, addr: Addr, r: Ref)
    requires Started(ps, ps2, time, lifetime, addr, r)
    ensures var p := At(ps2, r).(expiration := Expiry(time, lifetime'), timer := true);
            Started(ps, Store(ps2, r, p), time, lifetime', addr, r)
  {
  }

  lemma BothArmed(ps: Perms, cs: Chans, pr: Ref, p: Perm, cr: Ref, c: Chan)
    requires Armed(ps, cs, {}, {}) && LiveP(ps, pr) && LiveC(cs, cr) && p.timer && c.timer
    ensures Armed(Store(ps, pr, p), Store(cs, cr, c), {}, {})
  {
    forall q | LiveP(Store(ps, pr, p), q) && q != pr ensures At(Store(ps, pr, p), q).timer { assert LiveP(ps, q); }
    forall q | LiveC(Store(cs, cr, c), q) && q != cr ensures At(Store(cs, cr, c), q).timer { assert LiveC(cs, q); }
  }

  /** An address whose permission has no channel for its port is bound to no number. */
  lemma Unbound(hash: BucketOf, ps: Perms, cs: Chans, pr: Ref, addr: Addr, n: nat)
    requires Inv(hash, ps, cs) && LiveP(ps, pr) && (AddrEqNoPort(At(ps, pr).addr, addr) || At(ps, pr).addr == addr)
    requires forall q :: LiveC(cs, q) && At(cs, q).owner == Some(pr) ==> At(cs, q).port != addr.GetPort()
    ensures !Binds(cs, n, addr)
  {
    if addr.Decoded() { NoOwnChannel(hash, ps, cs, pr, addr, n); } else { NoPortUnbound(hash, ps, cs, addr, n); }
  }

  lemma NoPortUnbound(hash: BucketOf, ps: Perms, cs: Chans, addr: Addr, n: nat)
    requires Inv(hash, ps, cs) && addr.GetPort() == 0
    ensures !Binds(cs, n, addr)
  {
    forall q | LiveC(cs, q) ensures At(cs, q).peer != addr { assert ChanOk(ps, cs, q); }
  }

  lemma StartedArmed(ps: Perms, ps1: Perms, cs: Chans, pr: Ref, p: Perm)
    requires Armed(ps, cs, {}, {}) && LiveP(ps1, pr) && p.timer
    requires forall q :: LiveP(ps1, q) && q != pr ==> LiveP(ps, q) && At(ps1, q) == At(ps, q)
    ensures Armed(Store(ps1, pr, p), cs, {}, {})
  {
    var ps2 := Store(ps1, pr, p);
    forall q | LiveP(ps2, q) && q != pr ensures At(ps2, q).timer { assert LiveP(ps1, q) && LiveP(ps, q); }
  }

  /** The request lists the address of x. */
  ghost predicate Lists(xs: seq<Attr>, x: Addr)
  {
    exists i :: 0 <= i < |xs| && xs[i].PeerAddress? && AddrEqNoPort(xs[i].a, x)
  }

  /** Every listed address has a running permission and every permission for an address that
      is not listed is as it was. */
  ghost predicate Granted(server: Server, time: nat, ps: Perms, ps': Perms, xs: seq<Attr>)
  {
    && (forall x :: Permits(ps', x) <==> Permits(ps, x) || Lists(xs, x))
    && (forall r :: LiveP(ps', r) && Lists(xs, At(ps', r).addr) ==>
          At(ps', r).timer && At(ps', r).expiration == Expiry(time, server.permissionLifetime))
    && (forall r :: LiveP(ps, r) && !Lists(xs, At(ps, r).addr) ==> LiveP(ps', r) && At(ps', r) == At(ps, r))
  }

  ghost predicate Acceptable(server: Server, ctx: Context, xs: seq<Attr>)
  {
    && (forall i :: 0 <= i < |xs| ==> !Blocks(server, ctx, xs[i]))
    && (exists i :: 0 <= i < |xs| && xs[i].PeerAddress?)
  }

  /** All or nothing: an attribute that blocks, or a request without peers, changes no
      permission; otherwise exactly the listed addresses get one (section 9.2 of RFC 5766). */
  method HandleCreatePermission(al: Allocation, server: Server, ctx: Context, xs: seq<Attr>)
    returns (err: int, ret: int)
    requires al.Steady()
    modifies al`perms, al`chns
    ensures al.Steady() && al.chns == old(al.chns)
    ensures al.valid ==> (err == 0 <==> Acceptable(server, ctx, xs))
    ensures al.valid ==> forall i: nat :: FirstBlock(server, ctx, xs, i) ==> err == PermRefusal(ctx, xs[i])
    ensures al.valid && err != 0 && (forall i :: 0 <= i < |xs| ==> !Blocks(server, ctx, xs[i])) ==> err == 400
    ensures err in {0, 400, 403, 420, 443} && (!al.valid ==> err == 0)
    ensures ret == 0 <==> al.valid && err == 0
    ensures ret != 0 ==> al.perms == old(al.perms)
    ensures ret == 0 ==> Granted(server, ctx.time, old(al.perms), al.perms, xs)
  {
    if !al.valid { return 0, -1; }
    var q := ReadPermRequest(server, ctx, xs);
    ScanPermMeaning(server, ctx, xs);
    forall i: nat | FirstBlock(server, ctx, xs, i) ensures PermReply(q) == PermRefusal(ctx, xs[i]) {
      FirstBlockReply(server, ctx, xs, i);
    }
    if q.unknown > 0 { return 420, -1; }
    if q.err != 0 { return q.err, -1; }
    if q.found == 0 { return 400, -1; }
    err := GrantAll(al, server, ctx.time, xs);
    ret := 0;
  }

  /** The request handler asks for port zero, so there is never a channel to renew. */
  method UpdateWithoutPort(al: Allocation, server: Server, time: nat, addr: Addr) returns (ret: int)
    requires al.Steady() && addr.GetPort() == 0
    modifies al`perms, al`chns
    ensures al.Steady() && al.chns == old(al.chns) && ret == 0
    ensures PermitsPlus(old(al.perms), al.perms, addr)
    ensures exists r :: Started(old(al.perms), al.perms, time, server.permissionLifetime, addr, r)
  {
    forall n ensures !Binds(al.chns, n, addr) { NoPortUnbound(al.hash, al.perms, al.chns, addr, n); }
    ret := UpdatePermission(al, server, time, addr);
  }

  /** The second pass over the attributes. */
  method GrantAll(al: Allocation, server: Server, time: nat, xs: seq<Attr>) returns (err: int)
    requires al.Steady()
    modifies al`perms, al`chns
    ensures al.Steady() && al.chns == old(al.chns) && err == 0
    ensures Granted(server, time, old(al.perms), al.perms, xs)
  {
    ghost var ps0 := al.perms;
    err := 0;
    assert xs[..0] == [];
    for i := 0 to |xs|
      invariant al.Steady() && err == 0 && al.chns == old(al.chns)
      invariant Granted(server, time, ps0, al.perms, xs[..i])
    {
      ghost var ps1 := al.perms;
      if xs[i].PeerAddress? {
        var peer := xs[i].a.SetPort(0);
        var r := UpdateWithoutPort(al, server, time, peer);
        if r < 0 { assert false; }
        GrantOneMore(al.hash, server, time, ps0, ps1, al.perms, al.chns, xs[..i], xs[i].a);
      } else {
        ListsSkip(xs[..i], xs[i]);
      }
      assert xs[..i + 1] == xs[..i] + [xs[i]];
    }
    assert xs[..|xs|] == xs;
  }

  lemma ListsSkip(xs: seq<Attr>, x: Attr)
    requires !x.PeerAddress?
    ensures forall a :: Lists(xs + [x], a) <==> Lists(xs, a)
  {
    forall a ensures Lists(xs + [x], a) <==> Lists(xs, a) {
      if i :| 0 <= i < |xs| && xs[i].PeerAddress? && AddrEqNoPort(xs[i].a, a) { assert (xs + [x])[i] == xs[i]; }
    }
  }

  lemma ListsMore(xs: seq<Attr>, p: Addr)
    ensures forall a :: Lists(xs + [PeerAddress(p)], a) <==> Lists(xs, a) || AddrEqNoPort(p, a)
  {
    var ys := xs + [PeerAddress(p)];
    assert ys[|xs|] == PeerAddress(p);
    forall a ensures Lists(ys, a) <==> Lists(xs, a) || AddrEqNoPort(p, a) {
      if i :| 0 <= i < |xs| && xs[i].PeerAddress? && AddrEqNoPort(xs[i].a, a) { assert ys[i] == xs[i]; }
    }
  }

  lemma GrantOneMore(hash: BucketOf, server: Server, time: nat, ps: Perms, ps1: Perms, ps2: Perms, cs: Chans,
                     xs: seq<Attr>, p: Addr)
    requires Granted(server, time, ps, ps1, xs) && Inv(hash, ps2, cs)
    requires PermitsPlus(ps1, ps2, p.SetPort(0))
    requires exists r :: Started(ps1, ps2, time, server.permissionLifetime, p.SetPort(0), r)
    ensures Granted(server, time, ps, ps2, xs + [PeerAddress(p)])
  {
    var ys := xs + [PeerAddress(p)];
    ListsMore(xs, p);
    var r :| Started(ps1, ps2, time, server.permissionLifetime, p.SetPort(0), r);
    forall q | LiveP(ps2, q) && Lists(ys, At(ps2, q).addr)
      ensures At(ps2, q).timer && At(ps2, q).expiration == Expiry(time, server.permissionLifetime)
    {
      if q != r { assert Apart(ps2, q, r); }
    }
  }

  // ---------------------------------------------------------------- data from a peer

  /** Whether data from a peer is forwarded, and under which channel number; zero without a channel. A
      server that relays all data asks for no permission. */
  method ChannelForPeer(al: Allocation, server: Server, src: Addr) returns (forwarded: bool, chnum: nat)
    requires al.Ok()
    ensures forwarded <==> server.serverRelay || Permits(al.perms, src)
    ensures chnum != 0 ==> forwarded && Binds(al.chns, chnum, src)
    ensures chnum == 0 ==> forall n :: !Binds(al.chns, n, src)
  {
    var permitted, pr := al.GetPermission(src);
    chnum := 0;
    if permitted {
      var found, cr := al.GetTurnChannel(pr, src);
      if found {
        OwnChannel(al.hash, al.perms, al.chns, pr, cr, src);
        chnum := At(al.chns, cr).chnum;
      } else {
        forall n ensures !Binds(al.chns, n, src) { NoOwnChannel(al.hash, al.perms, al.chns, pr, src, n); }
      }
    } else {
      forall n ensures !Binds(al.chns, n, src) {
        if Binds(al.chns, n, src) { BoundPeersPermitted(al.hash, al.perms, al.chns, n, src); }
      }
      if !server.serverRelay { return false, 0; }
    }
    forwarded := true;
  }

  lemma OwnChannel(hash: BucketOf, ps: Perms, cs: Chans, pr: Ref, cr: Ref, src: Addr)
    requires Inv(hash, ps, cs) && LiveP(ps, pr) && AddrEqNoPort(At(ps, pr).addr, src)
    requires LiveC(cs, cr) && At(cs, cr).owner == Some(pr) && At(cs, cr).port == src.GetPort()
    ensures Binds(cs, At(cs, cr).chnum, src) && At(cs, cr).chnum != 0
  {
    assert ChanOk(ps, cs, cr);
    assert At(cs, cr).peer == src;
  }

  lemma NoOwnChannel(hash: BucketOf, ps: Perms, cs: Chans, pr: Ref, src: Addr, n: nat)
    requires Inv(hash, ps, cs) && LiveP(ps, pr) && AddrEqNoPort(At(ps, pr).addr, src)
    requires forall q :: LiveC(cs, q) && At(cs, q).owner == Some(pr) ==> At(cs, q).port != src.GetPort()
    ensures !Binds(cs, n, src)
  {
    forall q | LiveC(cs, q) ensures At(cs, q).peer != src {
      assert ChanOk(ps, cs, q) && Apart(ps, At(cs, q).owner.value, pr);
    }
  }

  // ---------------------------------------------------------------- whole runs

  /** The timer of a permission has fired. The handler complains about a free slot, a timer that does not
      run and a missing owner; none of it happens. */
  method PermissionExpired(al: Allocation, r: Ref)
    requires al.Steady() && Inside(al.perms, r) && At(al.perms, r).timer
    modifies al`perms, al`chns, al`strange
    ensures al.Steady() && al.strange == old(al.strange)
    ensures forall q :: LiveP(al.perms, q) <==> LiveP(old(al.perms), q) && q != r
    ensures Deleted(old(al.perms), old(al.chns), al.perms, al.chns, At(old(al.perms), r).addr)
  {
    assert PermOk(al.hash, al.perms, al.chns, r);
    var p := At(al.perms, r);
    al.strange := al.strange + Complaint(!p.used);
    if !p.used { assert false; }
    al.strange := al.strange + Complaint(!p.timer) + Complaint(!p.owned);
    al.PermissionClean(r);
  }

  method ChannelExpired(al: Allocation, r: Ref)
    requires al.Steady() && Inside(al.chns, r) && At(al.chns, r).timer
    modifies al`perms, al`chns, al`strange
    ensures al.Steady() && al.strange == old(al.strange)
    ensures SamePermits(old(al.perms), al.perms)
    ensures forall n, a :: Binds(al.chns, n, a) <==> Binds(old(al.chns), n, a) && n != At(old(al.chns), r).chnum
  {
    assert ChanOk(al.perms, al.chns, r);
    al.ChannelDelete(r);
  }

  /** Everything that can happen to an allocation. A timer event names the slot whose timer fires, and
      happens when that timer runs. */
  datatype Event =
    | Allocated
    | ChannelBind(ctx: Context, xs: seq<Attr>)
    | CreatePermission(ctx: Context, xs: seq<Attr>)
    | ChannelTimeout(r: Ref)
    | PermissionTimeout(r: Ref)
    | Cleared

  /** An allocation at a moment. */
  datatype Moment = Moment(valid: bool, perms: Perms, chns: Chans)

  ghost function MomentOf(al: Allocation): Moment
    reads al
  {
    Moment(al.valid, al.perms, al.chns)
  }

  ghost predicate BindEffect(server: Server, ctx: Context, q: BindScan, m: Moment, m': Moment, err: int)
  {
    && (err == 0 <==> !ctx.tcpRelay && (m.valid ==> BindWellFormed(q) && BindAllowed(server, m.chns, q)))
    && m'.valid == m.valid
    && if err != 0 || !m.valid then m' == m
       else && BindsPlus(m.chns, m'.chns, q.chnum, q.peer) && PermitsPlus(m.perms, m'.perms, q.peer)
            && Renewed(server, ctx.time, m'.perms, m'.chns, q.chnum)
            && OthersKept(m.perms, m.chns, m'.perms, m'.chns, q.chnum, q.peer)
  }

  ghost predicate PermEffect(server: Server, ctx: Context, xs: seq<Attr>, m: Moment, m': Moment, err: int)
  {
    && (m.valid ==> (err == 0 <==> Acceptable(server, ctx, xs)))
    && m'.valid == m.valid && m'.chns == m.chns
    && if err != 0 || !m.valid then m' == m else Granted(server, ctx.time, m.perms, m'.perms, xs)
  }

  /** What an event makes of an allocation. */
  ghost predicate Effect(server: Server, ev: Event, m: Moment, m': Moment, err: int)
  {
    match ev
    case Allocated => m' == m.(valid := true) && err == 0
    case ChannelBind(ctx, xs) => BindEffect(server, ctx, ScanBind(ctx, xs), m, m', err)
    case CreatePermission(ctx, xs) => PermEffect(server, ctx, xs, m, m', err)
    case ChannelTimeout(r) =>
      && err == 0 && m'.valid == m.valid
      && if Inside(m.chns, r) && At(m.chns, r).timer then
           && SamePermits(m.perms, m'.perms)
           && (forall n, a :: Binds(m'.chns, n, a) <==> Binds(m.chns, n, a) && n != At(m.chns, r).chnum)
         else m' == m
    case PermissionTimeout(r) =>
      && err == 0 && m'.valid == m.valid
      && if Inside(m.perms, r) && At(m.perms, r).timer then
           Deleted(m.perms, m.chns, m'.perms, m'.chns, At(m.perms, r).addr)
         else m' == m
    case Cleared => err == 0 && !m'.valid && (forall n, a :: !Binds(m'.chns, n, a)) && (forall a :: !Permits(m'.perms, a))
  }

  method Handle(al: Allocation, server: Server, ev: Event) returns (err: int)
    requires al.Steady()
    modifies al
    ensures al.Steady() && al.strange == old(al.strange) && err != 500
    ensures Effect(server, ev, old(MomentOf(al)), MomentOf(al), err)
  {
    err := 0;
    match ev
    case Allocated => al.valid := true;
    case ChannelBind(ctx, xs) => err := HandleChannelBind(al, server, ctx, xs);
    case CreatePermission(ctx, xs) =>
      var ret;
      err, ret := HandleCreatePermission(al, server, ctx, xs);
    case ChannelTimeout(r) => if Inside(al.chns, r) && At(al.chns, r).timer { ChannelExpired(al, r); }
    case PermissionTimeout(r) => if Inside(al.perms, r) && At(al.perms, r).timer { PermissionExpired(al, r); }
    case Cleared => al.Clear();
  }

  /** From a fresh allocation, every interleaving of requests and timers has the effects of its events one
      after another, keeps the three structures in step, answers no request with a server error and logs no
      inconsistency. */
  method Run(server: Server, evs: seq<Event>) returns (al: Allocation, errs: seq<int>, ghost moments: seq<Moment>)
    ensures |moments| == |evs| + 1 && moments[|evs|] == MomentOf(al) && !moments[0].valid
    ensures (forall n, a :: !Binds(moments[0].chns, n, a)) && (forall a :: !Permits(moments[0].perms, a))
    ensures |errs| == |evs| && forall i :: 0 <= i < |evs| ==> Effect(server, evs[i], moments[i], moments[i + 1], errs[i])
    ensures al.Steady() && al.strange == 0
    ensures |errs| == |evs| && 500 !in errs
    ensures forall n, a, n', a' :: Binds(al.chns, n, a) && Binds(al.chns, n', a') ==> (n == n' <==> AddrEq(a, a'))
    ensures forall n, a :: Binds(al.chns, n, a) ==> Permits(al.perms, a)
  {
    var hash: BucketOf := a => IndexNoPort(a, BUCKETS);
    NoPortRespects(BUCKETS, hash);
    al := new Allocation(hash);
    errs, moments := [], [MomentOf(al)];
    ghost var start := MomentOf(al);
    for i := 0 to |evs|
      invariant fresh(al) && al.Steady() && al.strange == 0
      invariant |errs| == i && 500 !in errs
      invariant |moments| == i + 1 && moments[0] == start && moments[i] == MomentOf(al)
      invariant forall j :: 0 <= j < i ==> Effect(server, evs[j], moments[j], moments[j + 1], errs[j])
    {
      var err := Handle(al, server, evs[i]);
      errs, moments := errs + [err], moments + [MomentOf(al)];
    }
    forall n, a, n', a' | Binds(al.chns, n, a) && Binds(al.chns, n', a') ensures n == n' <==> AddrEq(a, a') {
      BindingsBijective(al.hash, al.perms, al.chns, n, a, n', a');
    }
    forall n, a | Binds(al.chns, n, a) ensures Permits(al.perms, a) {
      BoundPeersPermitted(al.hash, al.perms, al.chns, n, a);
    }
  }
}
