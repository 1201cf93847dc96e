/** Permissions and channel bindings of one allocation, on plain values.
    Three structures must agree: the channel table, the permission table, and in every
    permission the local map from peer ports to channels. A pointer is a slot reference. */
module AllocTheory {
  import opened Common
  import opened Addresses
  import opened Slots
  import opened LocalMap

  const BUCKETS: nat := 8

  datatype Chan = Chan(used: bool, chnum: nat, port: nat, peer: Addr,
                       expiration: nat, timer: bool, owner: Option<Ref>)

  datatype Perm = Perm(used: bool, addr: Addr, chns: LmMap<Ref>,
                       expiration: nat, timer: bool, owned: bool)

  /** Cleared slots. */
  const NO_CHAN: Chan := Chan(false, 0, 0, Unspec, 0, false, None)

  function NoPerm(): Perm { Perm(false, Unspec, Empty(), 0, false, false) }

  function NewPerm(a: Addr): Perm { Perm(true, a, Empty(), 0, false, true) }

  type Perms = Table<Perm>
  type Chans = Table<Chan>
  type BucketOf = Addr -> nat

  predicate LiveP(ps: Perms, r: Ref) { Inside(ps, r) && At(ps, r).used }

  predicate LiveC(cs: Chans, r: Ref) { Inside(cs, r) && At(cs, r).used }

  // ---------------------------------------------------------------- the invariant

  /** The port map entry of permission r for the port leads to a channel that leads back. */
  ghost predicate LinkOk(ps: Perms, cs: Chans, r: Ref, port: nat)
    requires Inside(ps, r) && |At(ps, r).chns| == SIZE
  {
    match Lookup(At(ps, r).chns, port)
    case None => true
    case Some(c) => LiveC(cs, c) && At(cs, c).owner == Some(r) && At(cs, c).port == port
  }

  ghost predicate PermOk(hash: BucketOf, ps: Perms, cs: Chans, r: Ref)
    requires Inside(ps, r)
  {
    var p := At(ps, r);
    if p.used then
      && p.owned && hash(p.addr) == r.bucket && Valid(p.chns)
      && forall port {:trigger LinkOk(ps, cs, r, port)} :: LinkOk(ps, cs, r, port)
    else p == NoPerm()
  }

  /** A bound channel has a valid number, a peer with a port, and an owner: the live
      permission for the peer's address, whose port map leads back to this channel. */
  ghost predicate ChanOk(ps: Perms, cs: Chans, r: Ref)
    requires Inside(cs, r)
  {
    var c := At(cs, r);
    if c.used then
      && ValidChannel(c.chnum) && c.chnum % BUCKETS == r.bucket
      && c.port == c.peer.GetPort() >= 1
      && c.owner.Some? && LiveP(ps, c.owner.value)
      && AddrEqNoPort(c.peer, At(ps, c.owner.value).addr)
      && |At(ps, c.owner.value).chns| == SIZE
      && Lookup(At(ps, c.owner.value).chns, c.port) == Some(r)
    else c == NO_CHAN
  }

  ghost predicate Apart(ps: Perms, r: Ref, q: Ref)
  {
    LiveP(ps, r) && LiveP(ps, q) && AddrEqNoPort(At(ps, r).addr, At(ps, q).addr) ==> r == q
  }

  ghost predicate NumbersApart(cs: Chans, r: Ref, q: Ref)
  {
    LiveC(cs, r) && LiveC(cs, q) && At(cs, r).chnum == At(cs, q).chnum ==> r == q
  }

  ghost predicate Inv(hash: BucketOf, ps: Perms, cs: Chans)
  {
    && |ps| == |cs| == BUCKETS
    && (forall r {:trigger PermOk(hash, ps, cs, r)} :: Inside(ps, r) ==> PermOk(hash, ps, cs, r))
    && (forall r {:trigger ChanOk(ps, cs, r)} :: Inside(cs, r) ==> ChanOk(ps, cs, r))
    && (forall r, q {:trigger Apart(ps, r, q)} :: Apart(ps, r, q))
    && (forall r, q {:trigger NumbersApart(cs, r, q)} :: NumbersApart(cs, r, q))
  }

  /** Every live permission and channel outside the given sets has its timer running. */
  ghost predicate Armed(ps: Perms, cs: Chans, exceptP: set<Ref>, exceptC: set<Ref>)
  {
    && (forall r {:trigger LiveP(ps, r)} :: LiveP(ps, r) && r !in exceptP ==> At(ps, r).timer)
    && (forall r {:trigger LiveC(cs, r)} :: LiveC(cs, r) && r !in exceptC ==> At(cs, r).timer)
  }

  // ---------------------------------------------------------------- what a state means

  /** Channel number n is bound to peer a. */
  ghost predicate Binds(cs: Chans, n: nat, a: Addr)
  {
    exists r :: LiveC(cs, r) && At(cs, r).chnum == n && At(cs, r).peer == a
  }

  /** There is a permission for the address of a. */
  ghost predicate Permits(ps: Perms, a: Addr)
  {
    exists r :: LiveP(ps, r) && AddrEqNoPort(At(ps, r).addr, a)
  }

  /** Channel numbers and peer addresses are in bijection (section 11.2 of RFC 5766). */
  lemma BindingsBijective(hash: BucketOf, ps: Perms, cs: Chans, n: nat, a: Addr, n': nat, a': Addr)
    requires Inv(hash, ps, cs) && Binds(cs, n, a) && Binds(cs, n', a')
    ensures n == n' <==> AddrEq(a, a')
    ensures n == n' <==> a == a'
  {
    var r :| LiveC(cs, r) && At(cs, r).chnum == n && At(cs, r).peer == a;
    var q :| LiveC(cs, q) && At(cs, q).chnum == n' && At(cs, q).peer == a';
    assert ChanOk(ps, cs, r) && ChanOk(ps, cs, q) && NumbersApart(cs, r, q);
    assert Apart(ps, At(cs, r).owner.value, At(cs, q).owner.value);
  }

  /** A bound channel's peer always has a permission. */
  lemma BoundPeersPermitted(hash: BucketOf, ps: Perms, cs: Chans, n: nat, a: Addr)
    requires Inv(hash, ps, cs) && Binds(cs, n, a)
    ensures Permits(ps, a) && ValidChannel(n) && a.GetPort() >= 1
  {
    var r :| LiveC(cs, r) && At(cs, r).chnum == n && At(cs, r).peer == a;
    assert ChanOk(ps, cs, r);
    assert LiveP(ps, At(cs, r).owner.value);
  }

  // ---------------------------------------------------------------- single changes

  lemma EmptyLookup(k: nat)
    ensures Valid(Empty<Ref>()) && Lookup(Empty<Ref>(), k) == None
  {
    forall n | 0 <= n < SIZE ensures BucketOk(Empty<Ref>()[n], n) {
      assert Empty<Ref>()[n] == [Free(), Free(), Free()];
    }
    if k != 0 { FindNone(Empty<Ref>()[k % SIZE], k); }
  }

  /** A new permission in a free slot of its bucket, for an address that has none. */
  lemma AddPermKeeps(hash: BucketOf, ps: Perms, cs: Chans, r: Ref, a: Addr)
    requires Inv(hash, ps, cs) && RespectsAddr(hash, BUCKETS)
    requires r.bucket == hash(a) && r.idx <= |ps[r.bucket]| && !LiveP(ps, r)
    requires !Permits(ps, a)
    ensures Inv(hash, Store(ps, r, NewPerm(a)), cs)
  {
    var ps' := Store(ps, r, NewPerm(a));
    forall q | Inside(ps', q) ensures PermOk(hash, ps', cs, q) {
      if q == r {
        EmptyLookup(0);
        forall port ensures LinkOk(ps', cs, r, port) { EmptyLookup(port); }
      } else {
        assert PermOk(hash, ps, cs, q);
        forall port ensures LiveP(ps', q) ==> LinkOk(ps', cs, q, port) {
          assert LiveP(ps, q) ==> LinkOk(ps, cs, q, port);
        }
      }
    }
    forall q | Inside(cs, q) ensures ChanOk(ps', cs, q) { assert ChanOk(ps, cs, q); }
    forall q, t ensures Apart(ps', q, t) { assert Apart(ps, q, t); }
  }

  function Bound(chnum: nat, peer: Addr, owner: Ref): Chan
  {
    Chan(true, chnum, peer.GetPort(), peer, 0, false, Some(owner))
  }

  /** Binding a free channel number to a peer that has a permission and no channel. */
  lemma BindKeeps(hash: BucketOf, ps: Perms, cs: Chans, pr: Ref, cr: Ref, chnum: nat, peer: Addr, chns: LmMap<Ref>)
    requires Inv(hash, ps, cs)
    requires LiveP(ps, pr) && AddrEqNoPort(peer, At(ps, pr).addr) && peer.GetPort() >= 1
    requires ValidChannel(chnum) && cr.bucket == chnum % BUCKETS && cr.idx <= |cs[cr.bucket]|
    requires !LiveC(cs, cr) && forall q :: LiveC(cs, q) ==> At(cs, q).chnum != chnum
    requires |At(ps, pr).chns| == SIZE && Lookup(At(ps, pr).chns, peer.GetPort()).None?
    requires Valid(chns) && Lookup(chns, peer.GetPort()) == Some(cr)
    requires SameExcept(At(ps, pr).chns, chns, peer.GetPort())
    ensures Inv(hash, Store(ps, pr, At(ps, pr).(chns := chns)), Store(cs, cr, Bound(chnum, peer, pr)))
  {
    var ps', cs' := Store(ps, pr, At(ps, pr).(chns := chns)), Store(cs, cr, Bound(chnum, peer, pr));
    forall q | Inside(ps', q) ensures PermOk(hash, ps', cs', q) {
      assert PermOk(hash, ps, cs, q);
      forall port ensures LiveP(ps', q) ==> LinkOk(ps', cs', q, port) {
        assert LiveP(ps, q) ==> LinkOk(ps, cs, q, port);
      }
    }
    forall q | Inside(cs', q) ensures ChanOk(ps', cs', q) {
      if q != cr { assert ChanOk(ps, cs, q); }
    }
    forall q, t ensures Apart(ps', q, t) { assert Apart(ps, q, t); }
    forall q, t ensures NumbersApart(cs', q, t) { assert NumbersApart(cs, q, t); }
  }

  /** Unbinding one channel and dropping its port from its permission. */
  lemma UnbindKeeps(hash: BucketOf, ps: Perms, cs: Chans, cr: Ref, chns: LmMap<Ref>)
    requires Inv(hash, ps, cs) && LiveC(cs, cr)
    requires ChanOk(ps, cs, cr) && Valid(chns)
    requires Lookup(chns, At(cs, cr).port).None?
    requires SameExcept(At(ps, At(cs, cr).owner.value).chns, chns, At(cs, cr).port)
    ensures var pr := At(cs, cr).owner.value;
            Inv(hash, Store(ps, pr, At(ps, pr).(chns := chns)), Store(cs, cr, NO_CHAN))
  {
    var pr, port := At(cs, cr).owner.value, At(cs, cr).port;
    var ps', cs' := Store(ps, pr, At(ps, pr).(chns := chns)), Store(cs, cr, NO_CHAN);
    forall q | Inside(ps', q) ensures PermOk(hash, ps', cs', q) {
      assert PermOk(hash, ps, cs, q);
      forall port' ensures LiveP(ps', q) ==> LinkOk(ps', cs', q, port') {
        assert LiveP(ps, q) ==> LinkOk(ps, cs, q, port');
      }
    }
    forall q | Inside(cs', q) ensures ChanOk(ps', cs', q) {
      assert ChanOk(ps, cs, q);
    }
    forall q, t ensures Apart(ps', q, t) { assert Apart(ps, q, t); }
    forall q, t ensures NumbersApart(cs', q, t) { assert NumbersApart(cs, q, t); }
  }

  /** The channels of one permission cleared, all others as they were. */
  ghost predicate Swept(cs: Chans, cs': Chans, pr: Ref)
  {
    && |cs'| == |cs|
    && (forall q :: Inside(cs', q) <==> Inside(cs, q))
    && (forall q :: Inside(cs, q) ==> At(cs', q) == if At(cs, q).owner == Some(pr) then NO_CHAN else At(cs, q))
  }

  /** Deleting a permission together with all its channels. */
  lemma CleanPermKeeps(hash: BucketOf, ps: Perms, cs: Chans, pr: Ref, cs': Chans)
    requires Inv(hash, ps, cs) && LiveP(ps, pr) && Swept(cs, cs', pr)
    ensures Inv(hash, Store(ps, pr, NoPerm()), cs')
  {
    var ps' := Store(ps, pr, NoPerm());
    forall q | Inside(ps', q) ensures PermOk(hash, ps', cs', q) {
      assert PermOk(hash, ps, cs, q);
      forall port ensures LiveP(ps', q) ==> LinkOk(ps', cs', q, port) {
        assert LiveP(ps, q) ==> LinkOk(ps, cs, q, port);
      }
    }
    forall q | Inside(cs', q) ensures ChanOk(ps', cs', q) { assert ChanOk(ps, cs, q); }
    forall q, t ensures Apart(ps', q, t) { assert Apart(ps, q, t); }
    forall q, t ensures NumbersApart(cs', q, t) { assert NumbersApart(cs, q, t); }
  }

  /** Renewing the timer of a live permission. */
  lemma RenewPermKeeps(hash: BucketOf, ps: Perms, cs: Chans, pr: Ref, exp: nat)
    requires Inv(hash, ps, cs) && LiveP(ps, pr)
    ensures Inv(hash, Store(ps, pr, At(ps, pr).(expiration := exp, timer := true)), cs)
  {
    var ps' := Store(ps, pr, At(ps, pr).(expiration := exp, timer := true));
    forall q | Inside(ps', q) ensures PermOk(hash, ps', cs, q) {
      assert PermOk(hash, ps, cs, q);
      forall port ensures LiveP(ps', q) ==> LinkOk(ps', cs, q, port) {
        assert LiveP(ps, q) ==> LinkOk(ps, cs, q, port);
      }
    }
    forall q | Inside(cs, q) ensures ChanOk(ps', cs, q) { assert ChanOk(ps, cs, q); }
    forall q, t ensures Apart(ps', q, t) { assert Apart(ps, q, t); }
  }

  lemma RenewChanKeeps(hash: BucketOf, ps: Perms, cs: Chans, cr: Ref, exp: nat)
    requires Inv(hash, ps, cs) && LiveC(cs, cr)
    ensures Inv(hash, ps, Store(cs, cr, At(cs, cr).(expiration := exp, timer := true)))
  {
    var cs' := Store(cs, cr, At(cs, cr).(expiration := exp, timer := true));
    forall q | Inside(ps, q) ensures PermOk(hash, ps, cs', q) {
      assert PermOk(hash, ps, cs, q);
      forall port ensures LiveP(ps, q) ==> LinkOk(ps, cs', q, port) {
        assert LiveP(ps, q) ==> LinkOk(ps, cs, q, port);
      }
    }
    forall q | Inside(cs', q) ensures ChanOk(ps, cs', q) { assert ChanOk(ps, cs, q); }
    forall q, t ensures NumbersApart(cs', q, t) { assert NumbersApart(cs, q, t); }
  }

  // ---------------------------------------------------------------- effects on the meaning

  lemma BindsAfterBind(cs: Chans, r: Ref, c: Chan, n: nat, a: Addr)
    requires r.bucket < |cs| && r.idx <= |cs[r.bucket]| && !LiveC(cs, r) && c.used
    ensures Binds(Store(cs, r, c), n, a) <==> Binds(cs, n, a) || (n == c.chnum && a == c.peer)
  {
    var cs' := Store(cs, r, c);
    if q :| LiveC(cs, q) && At(cs, q).chnum == n && At(cs, q).peer == a { assert LiveC(cs', q); }
    if q :| LiveC(cs', q) && At(cs', q).chnum == n && At(cs', q).peer == a { assert q == r || LiveC(cs, q); }
    assert LiveC(cs', r);
  }

  lemma PermitsAfterAdd(ps: Perms, r: Ref, p: Perm, a: Addr)
    requires r.bucket < |ps| && r.idx <= |ps[r.bucket]| && !LiveP(ps, r) && p.used
    ensures Permits(Store(ps, r, p), a) <==> Permits(ps, a) || AddrEqNoPort(p.addr, a)
  {
    var ps' := Store(ps, r, p);
    if q :| LiveP(ps, q) && AddrEqNoPort(At(ps, q).addr, a) { assert LiveP(ps', q); }
    if q :| LiveP(ps', q) && AddrEqNoPort(At(ps', q).addr, a) { assert q == r || LiveP(ps, q); }
    assert LiveP(ps', r);
  }

  /** Changing a live slot without touching what it stands for. */
  lemma PermitsAfterUpdate(ps: Perms, r: Ref, p: Perm, a: Addr)
    requires LiveP(ps, r) && p.used && p.addr == At(ps, r).addr
    ensures Permits(Store(ps, r, p), a) <==> Permits(ps, a)
  {
    var ps' := Store(ps, r, p);
    if q :| LiveP(ps, q) && AddrEqNoPort(At(ps, q).addr, a) { assert LiveP(ps', q); }
    if q :| LiveP(ps', q) && AddrEqNoPort(At(ps', q).addr, a) { assert LiveP(ps, q); }
  }

  lemma BindsAfterUpdate(cs: Chans, r: Ref, c: Chan, n: nat, a: Addr)
    requires LiveC(cs, r) && c.used && c.chnum == At(cs, r).chnum && c.peer == At(cs, r).peer
    ensures Binds(Store(cs, r, c), n, a) <==> Binds(cs, n, a)
  {
    var cs' := Store(cs, r, c);
    if q :| LiveC(cs, q) && At(cs, q).chnum == n && At(cs, q).peer == a { assert LiveC(cs', q); }
    if q :| LiveC(cs', q) && At(cs', q).chnum == n && At(cs', q).peer == a { assert LiveC(cs, q); }
  }

  lemma BindsAfterUnbind(hash: BucketOf, ps: Perms, cs: Chans, r: Ref, n: nat, a: Addr)
    requires Inv(hash, ps, cs) && LiveC(cs, r)
    ensures Binds(Store(cs, r, NO_CHAN), n, a) <==> Binds(cs, n, a) && n != At(cs, r).chnum
  {
    var cs' := Store(cs, r, NO_CHAN);
    if q :| LiveC(cs, q) && At(cs, q).chnum == n && At(cs, q).peer == a { assert q == r || LiveC(cs', q); }
    if q :| LiveC(cs', q) && At(cs', q).chnum == n && At(cs', q).peer == a {
      assert LiveC(cs, q) && NumbersApart(cs, q, r);
    }
  }

  /** Deleting a permission unbinds exactly the channels of its address. */
  lemma BindsAfterSweep(hash: BucketOf, ps: Perms, cs: Chans, pr: Ref, cs': Chans, n: nat, a: Addr)
    requires Inv(hash, ps, cs) && LiveP(ps, pr) && Swept(cs, cs', pr)
    ensures Binds(cs', n, a) <==> Binds(cs, n, a) && !AddrEqNoPort(a, At(ps, pr).addr)
  {
    if q :| LiveC(cs, q) && At(cs, q).chnum == n && At(cs, q).peer == a {
      assert ChanOk(ps, cs, q) && Apart(ps, At(cs, q).owner.value, pr);
      assert AddrEqNoPort(a, At(ps, pr).addr) || LiveC(cs', q);
    }
    if q :| LiveC(cs', q) && At(cs', q).chnum == n && At(cs', q).peer == a {
      assert LiveC(cs, q) && ChanOk(ps, cs, q) && Apart(ps, At(cs, q).owner.value, pr);
    }
  }

  lemma PermitsAfterClean(hash: BucketOf, ps: Perms, cs: Chans, pr: Ref, a: Addr)
    requires Inv(hash, ps, cs) && LiveP(ps, pr)
    ensures Permits(Store(ps, pr, NoPerm()), a) <==> Permits(ps, a) && !AddrEqNoPort(At(ps, pr).addr, a)
  {
    var ps' := Store(ps, pr, NoPerm());
    if q :| LiveP(ps, q) && AddrEqNoPort(At(ps, q).addr, a) { assert q == pr || LiveP(ps', q); }
    if q :| LiveP(ps', q) && AddrEqNoPort(At(ps', q).addr, a) { assert LiveP(ps, q) && Apart(ps, q, pr); }
  }
}
