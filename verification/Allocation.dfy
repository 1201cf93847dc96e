/** One allocation: its permission table and its channel table, updated in place. */
module Allocation {
  import opened Common
  import opened Addresses
  import opened Slots
  import opened LocalMap
  import opened AllocTheory

  ghost predicate SameBindings(cs: Chans, cs': Chans)
  {
    forall n, a :: Binds(cs', n, a) <==> Binds(cs, n, a)
  }

  ghost predicate SamePermits(ps: Perms, ps': Perms)
  {
    forall a :: Permits(ps', a) <==> Permits(ps, a)
  }

  /** Exactly one binding more, or none when it was there. */
  ghost predicate BindsPlus(cs: Chans, cs': Chans, n0: nat, a0: Addr)
  {
    forall n, a :: Binds(cs', n, a) <==> Binds(cs, n, a) || (n == n0 && a == a0)
  }

  ghost predicate PermitsPlus(ps: Perms, ps': Perms, a0: Addr)
  {
    forall a :: Permits(ps', a) <==> Permits(ps, a) || AddrEqNoPort(a0, a)
  }

  /** One log line when the condition holds. */
  function Complaint(wrong: bool): int { if wrong then 1 else 0 }

  class Allocation {
    const hash: BucketOf
    var valid: bool
    var perms: Perms
    var chns: Chans
    /** How often an inconsistency between the structures was logged. */
    var strange: int

    ghost predicate Ok()
      reads this
    {
      RespectsAddr(hash, BUCKETS) && Inv(hash, perms, chns)
    }

    /** Between two requests every live entry has a running timer. */
    ghost predicate Steady()
      reads this
    {
      Ok() && Armed(perms, chns, {}, {})
    }

    constructor (hash: BucketOf)
      requires RespectsAddr(hash, BUCKETS)
      ensures Steady() && this.hash == hash && !valid && strange == 0
      ensures forall n, a :: !Binds(chns, n, a)
      ensures forall a :: !Permits(perms, a)
    {
      this.hash := hash;
      valid := false;
      strange := 0;
      FreshTables(hash);
      perms, chns := FreshPerms(), FreshChans();
    }

    /** The permission for an address. */
    method GetPermission(addr: Addr) returns (found: bool, r: Ref)
      requires Ok()
      ensures found <==> Permits(perms, addr)
      ensures found ==> LiveP(perms, r) && AddrEqNoPort(At(perms, r).addr, addr)
    {
      var b := hash(addr);
      var i;
      found, i := FirstMatch(perms[b], (p: Perm) => p.used && AddrEqNoPort(p.addr, addr));
      r := Ref(b, i);
      if found {
        assert LiveP(perms, r);
      } else {
        forall q | LiveP(perms, q) ensures !AddrEqNoPort(At(perms, q).addr, addr) {
          assert PermOk(hash, perms, chns, q);
        }
      }
    }

    /** A new permission in the first free slot of its bucket. The slot is not compared with
        the others: the caller knows that the address has no permission. */
    method AddPermission(addr: Addr) returns (r: Ref)
      requires Ok() && !Permits(perms, addr)
      modifies this`perms
      ensures Ok()
      ensures r.bucket < |old(perms)| && r.idx <= |old(perms)[r.bucket]| && !LiveP(old(perms), r)
      ensures perms == Store(old(perms), r, NewPerm(addr))
      ensures PermitsPlus(old(perms), perms, addr)
    {
      var b := hash(addr);
      var i := FirstFree(perms[b], (p: Perm) => p.used);
      r := Ref(b, i);
      AddPermKeeps(hash, perms, chns, r, addr);
      forall a ensures Permits(Store(perms, r, NewPerm(addr)), a) <==> Permits(perms, a) || AddrEqNoPort(addr, a) {
        PermitsAfterAdd(perms, r, NewPerm(addr), a);
      }
      perms := Store(perms, r, NewPerm(addr));
    }

    /** The channel with a number. */
    method GetChannel(chnum: nat) returns (found: bool, r: Ref)
      requires Ok()
      ensures found ==> LiveC(chns, r) && At(chns, r).chnum == chnum
      ensures !found ==> forall q :: LiveC(chns, q) ==> At(chns, q).chnum != chnum
    {
      var b := chnum % BUCKETS;
      var i;
      found, i := FirstMatch(chns[b], (c: Chan) => c.used && c.chnum == chnum);
      r := Ref(b, i);
      if !found {
        forall q | LiveC(chns, q) ensures At(chns, q).chnum != chnum {
          assert ChanOk(perms, chns, q);
        }
      }
    }

    /** The channel of a permission for a peer port. */
    method GetTurnChannel(pr: Ref, addr: Addr) returns (found: bool, r: Ref)
      requires Ok() && LiveP(perms, pr)
      ensures found ==> LiveC(chns, r) && At(chns, r).owner == Some(pr) && At(chns, r).port == addr.GetPort() >= 1
      ensures !found ==> forall q :: LiveC(chns, q) && At(chns, q).owner == Some(pr) ==> At(chns, q).port != addr.GetPort()
    {
      assert PermOk(hash, perms, chns, pr);
      assert LinkOk(perms, chns, pr, addr.GetPort());
      var ret, v := Get(At(perms, pr).chns, addr.GetPort());
      found, r := false, Ref(0, 0);
      if ret != 0 && v.Some? {
        assert ChanOk(perms, chns, v.value);
        if ValidChannel(At(chns, v.value).chnum) {
          found, r := true, v.value;
        }
      }
      forall q | !found && LiveC(chns, q) && At(chns, q).owner == Some(pr) ensures At(chns, q).port != addr.GetPort() {
        assert ChanOk(perms, chns, q);
      }
    }

    /** The channel bound to a peer address. */
    method GetChannelByPeer(addr: Addr) returns (found: bool, r: Ref)
      requires Ok()
      ensures found ==> LiveC(chns, r) && AddrEq(At(chns, r).peer, addr)
      ensures !found ==> forall q :: LiveC(chns, q) ==> !AddrEq(At(chns, q).peer, addr)
    {
      var p;
      found, p := GetPermission(addr);
      r := Ref(0, 0);
      if found {
        found, r := GetTurnChannel(p, addr);
        assert found ==> ChanOk(perms, chns, r);
      }
      forall q | !found && LiveC(chns, q) ensures !AddrEq(At(chns, q).peer, addr) {
        assert ChanOk(perms, chns, q);
        assert LiveP(perms, At(chns, q).owner.value);
        assert Permits(perms, addr) ==> Apart(perms, At(chns, q).owner.value, p);
      }
    }

    /** A new channel for a peer: find or add the peer's permission, take the first free
        channel slot and enter the port in the permission's map. None of the three insertions
        looks for an older entry: the caller knows that the number and the peer are free. */
    method NewChannel(chnum: nat, peer: Addr) returns (cr: Ref)
      requires Ok() && ValidChannel(chnum) && peer.GetPort() >= 1
      requires forall q :: LiveC(chns, q) ==> At(chns, q).chnum != chnum && !AddrEq(At(chns, q).peer, peer)
      modifies this`perms, this`chns
      ensures Ok()
      ensures !LiveC(old(chns), cr) && LiveC(chns, cr)
      ensures At(chns, cr).owner.Some? && LiveP(perms, At(chns, cr).owner.value)
      ensures At(chns, cr) == Bound(chnum, peer, At(chns, cr).owner.value)
      ensures AddrEqNoPort(At(perms, At(chns, cr).owner.value).addr, peer)
      ensures BindsPlus(old(chns), chns, chnum, peer) && PermitsPlus(old(perms), perms, peer)
      ensures Kept(old(perms), old(chns), perms, chns, At(chns, cr).owner.value, cr)
    {
      ghost var ps0, cs0 := perms, chns;
      var found, pr := GetPermission(peer);
      if !found {
        pr := AddPermission(peer);
      }
      assert LiveP(perms, pr) && PermOk(hash, perms, chns, pr);
      assert PermitsPlus(ps0, perms, peer) by { PermitsSame(ps0, peer); }
      PortIsFree(hash, perms, chns, pr, peer);
      var i := FirstFree(chns[chnum % BUCKETS], (c: Chan) => c.used);
      cr := Ref(chnum % BUCKETS, i);
      var ret, m := Put(At(perms, pr).chns, peer.GetPort(), Some(cr));
      BindEffect(hash, perms, chns, pr, cr, chnum, peer, m);
      chns := Store(chns, cr, Bound(chnum, peer, pr));
      perms := Store(perms, pr, At(perms, pr).(chns := m));
    }

    /** Unbind a channel: drop its port from the owner's map and clear the slot. */
    method ChannelDelete(cr: Ref)
      requires Steady() && LiveC(chns, cr)
      modifies this`perms, this`chns, this`strange
      ensures Steady() && strange == old(strange)
      ensures SamePermits(old(perms), perms)
      ensures forall n, a :: Binds(chns, n, a) <==> Binds(old(chns), n, a) && n != At(old(chns), cr).chnum
    {
      assert ChanOk(perms, chns, cr);
      var c := At(chns, cr);
      strange := strange + Complaint(c.peer.GetPort() < 1) + Complaint(c.owner.None?) + Complaint(c.chnum < 1);
      if c.owner.Some? {
        var pr := c.owner.value;
        assert PermOk(hash, perms, chns, pr);
        var ret, m := Del(At(perms, pr).chns, c.peer.GetPort());
        UnbindEffect(hash, perms, chns, cr, m);
        perms := Store(perms, pr, At(perms, pr).(chns := m));
      }
      chns := Store(chns, cr, NO_CHAN);
    }

    /** Delete a permission: clear all channels in its port map, then the slot. */
    method PermissionClean(pr: Ref)
      requires Steady() && Inside(perms, pr)
      modifies this`perms, this`chns, this`strange
      ensures Steady() && strange == old(strange)
      ensures forall q :: Inside(perms, q) <==> Inside(old(perms), q)
      ensures forall q :: LiveP(perms, q) <==> LiveP(old(perms), q) && q != pr
      ensures if LiveP(old(perms), pr) then Deleted(old(perms), old(chns), perms, chns, At(old(perms), pr).addr)
              else perms == old(perms) && chns == old(chns)
    {
      var p := At(perms, pr);
      if p.used {
        assert PermOk(hash, perms, chns, pr);
        assert LiveP(perms, pr);
        ghost var cs0 := chns;
        strange := strange + Complaint(!p.timer);
        var es := Entries(p.chns);
        OwnedAreHeld(hash, perms, chns, pr, es);
        for i := 0 to |es|
          invariant strange == old(strange) && perms == old(perms)
          invariant |chns| == |cs0| && forall q :: Inside(chns, q) <==> Inside(cs0, q)
          invariant forall q :: Inside(cs0, q) ==> At(chns, q) == if Among(q, es[..i]) then NO_CHAN else At(cs0, q)
        {
          var c := es[i].1;
          assert es[..i + 1] == es[..i] + [es[i]];
          assert !Among(c, es[..i]) && LiveC(cs0, c);
          strange := strange + Complaint(At(chns, c).chnum < 1);
          chns := Store(chns, c, NO_CHAN);
          assert forall q :: Among(q, es[..i + 1]) <==> Among(q, es[..i]) || q == c;
        }
        assert es[..|es|] == es;
        CleanEffect(hash, perms, cs0, pr, chns);
        perms := Store(perms, pr, NoPerm());
      }
    }

    /** Delete every permission with its channels, then whatever channels are left. The order
        matters: it leaves no channel for the second pass. */
    method Clear()
      requires Steady()
      modifies this
      ensures Steady() && strange == old(strange) && !valid
      ensures forall n, a :: !Binds(chns, n, a)
      ensures forall a :: !Permits(perms, a)
    {
      for b := 0 to BUCKETS
        invariant Steady() && strange == old(strange)
        invariant forall q :: LiveP(perms, q) ==> q.bucket >= b
      {
        var n := |perms[b]|;
        for i := 0 to n
          invariant Steady() && strange == old(strange) && |perms[b]| == n
          invariant forall q :: LiveP(perms, q) ==> q.bucket > b || (q.bucket == b && q.idx >= i)
        {
          assert Inside(perms, Ref(b, i)) && !Inside(perms, Ref(b, n));
          PermissionClean(Ref(b, i));
          assert !Inside(perms, Ref(b, n)) && (n > 0 ==> Inside(perms, Ref(b, n - 1)));
        }
      }
      NoneLeft(hash, perms, chns);
      assert forall q :: !LiveC(chns, q);
      FreshTables(hash);
      perms, chns := FreshPerms(), FreshChans();
      valid := false;
    }
  }

  /** Tables with nothing but their built-in slots. */
  function FreshPerms(): Perms { seq(BUCKETS, _ => [NoPerm(), NoPerm(), NoPerm()]) }

  function FreshChans(): Chans { seq(BUCKETS, _ => [NO_CHAN, NO_CHAN, NO_CHAN]) }

  lemma FreshTables(hash: BucketOf)
    ensures Inv(hash, FreshPerms(), FreshChans()) && Armed(FreshPerms(), FreshChans(), {}, {})
    ensures forall n, a :: !Binds(FreshChans(), n, a)
    ensures forall a :: !Permits(FreshPerms(), a)
  {
    assert forall q :: Inside(FreshPerms(), q) ==> At(FreshPerms(), q) == NoPerm();
    assert forall q :: Inside(FreshChans(), q) ==> At(FreshChans(), q) == NO_CHAN;
  }

  /** Without permissions there are no channels. */
  lemma NoneLeft(hash: BucketOf, ps: Perms, cs: Chans)
    requires Inv(hash, ps, cs) && forall q :: !LiveP(ps, q)
    ensures forall q :: !LiveC(cs, q)
  {
    forall q ensures !LiveC(cs, q) { assert Inside(cs, q) ==> ChanOk(ps, cs, q); }
  }

  /** All live entries but one permission and one channel stay as they are; the permission
      keeps its address. */
  ghost predicate Kept(ps: Perms, cs: Chans, ps': Perms, cs': Chans, pr: Ref, cr: Ref)
  {
    && (forall q :: LiveP(ps, q) ==> LiveP(ps', q) && At(ps', q).addr == At(ps, q).addr)
    && (forall q :: LiveP(ps, q) && q != pr ==> At(ps', q) == At(ps, q))
    && (forall q :: LiveP(ps', q) && q != pr ==> LiveP(ps, q))
    && (forall q :: LiveC(cs, q) && q != cr ==> LiveC(cs', q) && At(cs', q) == At(cs, q))
    && (forall q :: LiveC(cs', q) && q != cr ==> LiveC(cs, q))
  }

  lemma PermitsSame(ps: Perms, a0: Addr)
    ensures Permits(ps, a0) ==> PermitsPlus(ps, ps, a0)
  {
    if r :| LiveP(ps, r) && AddrEqNoPort(At(ps, r).addr, a0) {
      forall a | AddrEqNoPort(a0, a) ensures Permits(ps, a) { assert AddrEqNoPort(At(ps, r).addr, a); }
    }
  }

  /** A peer without a channel has a free port entry in its permission. */
  lemma PortIsFree(hash: BucketOf, ps: Perms, cs: Chans, pr: Ref, peer: Addr)
    requires Inv(hash, ps, cs) && LiveP(ps, pr) && AddrEqNoPort(At(ps, pr).addr, peer)
    requires forall q :: LiveC(cs, q) ==> !AddrEq(At(cs, q).peer, peer)
    ensures |At(ps, pr).chns| == SIZE && Valid(At(ps, pr).chns)
    ensures Lookup(At(ps, pr).chns, peer.GetPort()).None?
  {
    assert PermOk(hash, ps, cs, pr) && LinkOk(ps, cs, pr, peer.GetPort());
    var c := Lookup(At(ps, pr).chns, peer.GetPort());
    assert c.Some? ==> ChanOk(ps, cs, c.value);
  }

  /** Everything one new binding does. */
  lemma BindEffect(hash: BucketOf, ps: Perms, cs: Chans, pr: Ref, cr: Ref, chnum: nat, peer: Addr, m: LmMap<Ref>)
    requires Inv(hash, ps, cs)
    requires LiveP(ps, pr) && AddrEqNoPort(peer, At(ps, pr).addr) && peer.GetPort() >= 1
    requires ValidChannel(chnum) && cr.bucket == chnum % BUCKETS && cr.idx <= |cs[cr.bucket]|
    requires !LiveC(cs, cr) && forall q :: LiveC(cs, q) ==> At(cs, q).chnum != chnum
    requires |At(ps, pr).chns| == SIZE && Lookup(At(ps, pr).chns, peer.GetPort()).None?
    requires Valid(m) && Lookup(m, peer.GetPort()) == Some(cr)
    requires SameExcept(At(ps, pr).chns, m, peer.GetPort())
    ensures var ps', cs' := Store(ps, pr, At(ps, pr).(chns := m)), Store(cs, cr, Bound(chnum, peer, pr));
            && Inv(hash, ps', cs')
            && BindsPlus(cs, cs', chnum, peer) && SamePermits(ps, ps')
            && Kept(ps, cs, ps', cs', pr, cr)
  {
    var p', c' := At(ps, pr).(chns := m), Bound(chnum, peer, pr);
    BindKeeps(hash, ps, cs, pr, cr, chnum, peer, m);
    forall n, a ensures Binds(Store(cs, cr, c'), n, a) <==> Binds(cs, n, a) || (n == chnum && a == peer) {
      BindsAfterBind(cs, cr, c', n, a);
    }
    forall a ensures Permits(Store(ps, pr, p'), a) <==> Permits(ps, a) {
      PermitsAfterUpdate(ps, pr, p', a);
    }
  }

  /** Everything the removal of one binding does. */
  lemma UnbindEffect(hash: BucketOf, ps: Perms, cs: Chans, cr: Ref, m: LmMap<Ref>)
    requires Inv(hash, ps, cs) && Armed(ps, cs, {}, {}) && LiveC(cs, cr)
    requires ChanOk(ps, cs, cr) && Valid(m)
    requires Lookup(m, At(cs, cr).port).None?
    requires SameExcept(At(ps, At(cs, cr).owner.value).chns, m, At(cs, cr).port)
    ensures var pr := At(cs, cr).owner.value;
            var ps', cs' := Store(ps, pr, At(ps, pr).(chns := m)), Store(cs, cr, NO_CHAN);
            && Inv(hash, ps', cs') && Armed(ps', cs', {}, {}) && SamePermits(ps, ps')
            && forall n, a :: Binds(cs', n, a) <==> Binds(cs, n, a) && n != At(cs, cr).chnum
  {
    var pr := At(cs, cr).owner.value;
    var ps', cs' := Store(ps, pr, At(ps, pr).(chns := m)), Store(cs, cr, NO_CHAN);
    UnbindKeeps(hash, ps, cs, cr, m);
    forall a ensures Permits(ps', a) <==> Permits(ps, a) {
      PermitsAfterUpdate(ps, pr, At(ps, pr).(chns := m), a);
    }
    forall n, a ensures Binds(cs', n, a) <==> Binds(cs, n, a) && n != At(cs, cr).chnum {
      BindsAfterUnbind(hash, ps, cs, cr, n, a);
    }
    forall q | LiveP(ps', q) ensures At(ps', q).timer { assert LiveP(ps, q); }
    forall q | LiveC(cs', q) ensures At(cs', q).timer { assert LiveC(cs, q); }
  }

  /** The permission for address a0 and all its channels are gone, and nothing else. */
  ghost predicate Deleted(ps: Perms, cs: Chans, ps': Perms, cs': Chans, a0: Addr)
  {
    && (forall a :: Permits(ps', a) <==> Permits(ps, a) && !AddrEqNoPort(a0, a))
    && (forall n, a :: Binds(cs', n, a) <==> Binds(cs, n, a) && !AddrEqNoPort(a, a0))
  }

  ghost predicate Among(c: Ref, es: seq<(nat, Ref)>)
  {
    exists j :: 0 <= j < |es| && es[j].1 == c
  }

  /** The port map of a permission holds exactly the channels that it owns, each once. */
  lemma OwnedAreHeld(hash: BucketOf, ps: Perms, cs: Chans, pr: Ref, es: seq<(nat, Ref)>)
    requires Inv(hash, ps, cs) && LiveP(ps, pr) && PermOk(hash, ps, cs, pr)
    requires forall k: nat, c :: (k, c) in es <==> Lookup(At(ps, pr).chns, k) == Some(c)
    requires forall i, j :: 0 <= i < j < |es| ==> es[i].0 != es[j].0
    ensures forall q :: Inside(cs, q) ==> (Among(q, es) <==> At(cs, q).owner == Some(pr))
    ensures forall j :: 0 <= j < |es| ==> LiveC(cs, es[j].1) && At(cs, es[j].1).chnum >= 1
    ensures forall i, j :: 0 <= i < j < |es| ==> es[i].1 != es[j].1
  {
    forall j | 0 <= j < |es|
      ensures LiveC(cs, es[j].1) && At(cs, es[j].1).chnum >= 1
      ensures At(cs, es[j].1).owner == Some(pr) && At(cs, es[j].1).port == es[j].0
    {
      assert (es[j].0, es[j].1) in es;
      assert LinkOk(ps, cs, pr, es[j].0);
      assert ChanOk(ps, cs, es[j].1);
    }
    forall q | Inside(cs, q) && At(cs, q).owner == Some(pr) ensures Among(q, es) {
      assert ChanOk(ps, cs, q);
      assert (At(cs, q).port, q) in es;
    }
  }

  lemma CleanEffect(hash: BucketOf, ps: Perms, cs: Chans, pr: Ref, cs': Chans)
    requires Inv(hash, ps, cs) && Armed(ps, cs, {}, {}) && LiveP(ps, pr) && Swept(cs, cs', pr)
    ensures var ps' := Store(ps, pr, NoPerm());
            Inv(hash, ps', cs') && Armed(ps', cs', {}, {}) && Deleted(ps, cs, ps', cs', At(ps, pr).addr)
  {
    var ps' := Store(ps, pr, NoPerm());
    CleanPermKeeps(hash, ps, cs, pr, cs');
    forall a ensures Permits(ps', a) <==> Permits(ps, a) && !AddrEqNoPort(At(ps, pr).addr, a) {
      PermitsAfterClean(hash, ps, cs, pr, a);
    }
    forall n, a ensures Binds(cs', n, a) <==> Binds(cs, n, a) && !AddrEqNoPort(a, At(ps, pr).addr) {
      BindsAfterSweep(hash, ps, cs, pr, cs', n, a);
    }
    forall q | LiveP(ps', q) ensures At(ps', q).timer { assert LiveP(ps, q); }
    forall q | LiveC(cs', q) ensures At(cs', q).timer { assert LiveC(cs, q); }
  }
}
