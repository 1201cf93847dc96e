/** Address attributes (sections 15.1 and 15.2 of RFC 5389): plain and masked addresses, and the map
    between the private addresses of the server and the public ones it shows. */
module StunAddr {
  import opened Common
  import opened Addresses
  import opened StunWire
  import opened StunBuild
  import opened StunIntegrity

  // ---------------------------------------------------------------- masking

  function Pow2(k: nat): nat { if k == 0 then 1 else 2 * Pow2(k - 1) }

  /** The exclusive or of k bits. */
  function XorBits(a: nat, b: nat, k: nat): (r: nat)
    ensures r < Pow2(k)
  {
    if k == 0 then 0 else (if a % 2 == b % 2 then 0 else 1) + 2 * XorBits(a / 2, b / 2, k - 1)
  }

  lemma {:induction false} XorBack(a: nat, b: nat, k: nat)
    requires a < Pow2(k)
    ensures XorBits(XorBits(a, b, k), b, k) == a
  {
    if k != 0 {
      var rest := XorBits(a / 2, b / 2, k - 1);
      var r := XorBits(a, b, k);
      assert r / 2 == rest;
      XorBack(a / 2, b / 2, k - 1);
    }
  }

  /** Bit j of a number. */
  predicate Bit(n: nat, j: nat) { if j == 0 then n % 2 == 1 else Bit(n / 2, j - 1) }

  /** A bit of the result is set exactly when the two bits differ. */
  lemma {:induction false} XorIsExclusive(a: nat, b: nat, k: nat, j: nat)
    requires j < k
    ensures Bit(XorBits(a, b, k), j) <==> Bit(a, j) != Bit(b, j)
  {
    var rest, r := XorBits(a / 2, b / 2, k - 1), XorBits(a, b, k);
    assert r / 2 == rest && r % 2 == if a % 2 == b % 2 then 0 else 1;
    if j != 0 { XorIsExclusive(a / 2, b / 2, k - 1, j - 1); }
  }

  function XorByte(a: Byte, b: Byte): Byte
  {
    assert Pow2(8) == 256 by { assert Pow2(4) == 16; }
    XorBits(a, b, 8)
  }

  lemma XorTwice(a: Byte, b: Byte)
    ensures XorByte(XorByte(a, b), b) == a
  {
    assert Pow2(8) == 256 by { assert Pow2(4) == 16; }
    XorBack(a, b, 8);
  }

  /** Bytes as they are, or each combined with a byte of the mask. */
  function Mix(bs: seq<Byte>, xored: bool, mask: seq<Byte>): (r: seq<Byte>)
    requires |bs| <= |mask|
    ensures |r| == |bs|
  {
    if xored then seq(|bs|, i requires 0 <= i < |bs| => XorByte(bs[i], mask[i])) else bs
  }

  lemma MixTwice(bs: seq<Byte>, xored: bool, mask: seq<Byte>)
    requires |bs| <= |mask|
    ensures Mix(Mix(bs, xored, mask), xored, mask) == bs
  {
    forall i | 0 <= i < |bs| ensures Mix(Mix(bs, xored, mask), xored, mask)[i] == bs[i] {
      XorTwice(bs[i], mask[i]);
    }
  }

  // ---------------------------------------------------------------- the field

  predicate WellFormed(a: Addr)
  {
    match a case Unspec => true case V4(ip, _) => |ip| == 4 case V6(ip, _) => |ip| == 16
  }

  /** The value of an address attribute. An address of no family goes out as an IPv4 address. */
  function Encoded(a: Addr, xored: bool, tid: seq<Byte>): (bs: seq<Byte>)
    requires WellFormed(a) && |tid| == 12
    ensures |bs| == if a.V6? then 20 else 8
  {
    match a
    case Unspec => [0, 1] + Mix([0, 0], xored, COOKIE) + Mix([0, 0, 0, 0], xored, COOKIE)
    case V4(ip, port) => [0, 1] + Mix(Bytes16(port), xored, COOKIE) + Mix(ip, xored, COOKIE)
    case V6(ip, port) => [0, 2] + Mix(Bytes16(port), xored, COOKIE) + Mix(ip, xored, COOKIE + tid)
  }

  function Decoded(bs: seq<Byte>, xored: bool, tid: seq<Byte>): (r: Option<Addr>)
    requires |tid| == 12
    ensures r.Some? ==> WellFormed(r.value) && r.value.Decoded()
  {
    if |bs| < 8 || bs[0] != 0 then None
    else
      var port := U16At(Mix(bs[2..4], xored, COOKIE), 0);
      if bs[1] == 1 && |bs| == 8 then Some(V4(Mix(bs[4..], xored, COOKIE), port))
      else if bs[1] == 2 && |bs| == 20 then Some(V6(Mix(bs[4..], xored, COOKIE + tid), port))
      else None
  }

  /** Decoding an encoded address gives it back, for every address, mask and transaction id. */
  lemma FieldRoundTrip(a: Addr, xored: bool, tid: seq<Byte>)
    requires a.Decoded() && WellFormed(a) && |tid| == 12
    ensures Decoded(Encoded(a, xored, tid), xored, tid) == Some(a)
  {
    var bs := Encoded(a, xored, tid);
    assert bs[2..4] == Mix(Bytes16(a.port), xored, COOKIE);
    MixTwice(Bytes16(a.port), xored, COOKIE);
    if a.V4? {
      assert bs[4..] == Mix(a.ip, xored, COOKIE);
      MixTwice(a.ip, xored, COOKIE);
    } else {
      assert bs[4..] == Mix(a.ip, xored, COOKIE + tid);
      MixTwice(a.ip, xored, COOKIE + tid);
    }
  }

  /** An address of no family is received as the IPv4 address that stands for any. */
  lemma UnspecifiedField(xored: bool, tid: seq<Byte>)
    requires |tid| == 12
    ensures Decoded(Encoded(Unspec, xored, tid), xored, tid) == Some(V4([0, 0, 0, 0], 0))
  {
    var any := V4([0, 0, 0, 0], 0);
    FieldRoundTrip(any, xored, tid);
    assert Bytes16(0) == [0, 0];
  }

  /** Every field that is decoded is the encoding of its address. */
  lemma FieldExact(bs: seq<Byte>, xored: bool, tid: seq<Byte>)
    requires |tid| == 12
    ensures var r := Decoded(bs, xored, tid); r.Some? ==> Encoded(r.value, xored, tid) == bs
  {
    var r := Decoded(bs, xored, tid);
    if r.Some? {
      var port := Mix(bs[2..4], xored, COOKIE);
      assert Bytes16(U16At(port, 0)) == port;
      MixTwice(bs[2..4], xored, COOKIE);
      MixTwice(bs[4..], xored, if r.value.V4? then COOKIE else COOKIE + tid);
      assert bs == [0, bs[1]] + bs[2..4] + bs[4..];
    }
  }

  /** A byte of a masked field differs from the plain one in exactly the bits of the mask. */
  lemma MaskedBit(a: Addr, tid: seq<Byte>, i: nat, j: nat)
    requires a.Decoded() && WellFormed(a) && |tid| == 12 && j < 8 && 2 <= i < |Encoded(a, false, tid)|
    ensures var mask := if i < 4 then COOKIE[i - 2] else (COOKIE + tid)[i - 4];
            Bit(Encoded(a, true, tid)[i], j) <==> Bit(Encoded(a, false, tid)[i], j) != Bit(mask, j)
  {
    var plain, mask := Encoded(a, false, tid)[i], if i < 4 then COOKIE[i - 2] else (COOKIE + tid)[i - 4];
    assert Encoded(a, true, tid)[i] == XorByte(plain, mask);
    XorIsExclusive(plain, mask, 8, j);
  }

  function Differ(x: nat, y: nat): nat { if x == y then 0 else 1 }

  lemma XorStep(a: nat, b: nat, x: nat, y: nat, k: nat)
    requires x < 2 && y < 2
    ensures XorBits(2 * a + x, 2 * b + y, k + 1) == Differ(x, y) + 2 * XorBits(a, b, k)
  {
    Halves(a, x);
    Halves(b, y);
  }

  lemma Halves(a: nat, x: nat)
    requires x < 2
    ensures (2 * a + x) / 2 == a && (2 * a + x) % 2 == x
  {
  }

  lemma XorNibble(a: nat, b: nat, x3: nat, x2: nat, x1: nat, x0: nat, y3: nat, y2: nat, y1: nat, y0: nat, k: nat)
    requires x3 < 2 && x2 < 2 && x1 < 2 && x0 < 2 && y3 < 2 && y2 < 2 && y1 < 2 && y0 < 2
    ensures XorBits(16 * a + 8 * x3 + 4 * x2 + 2 * x1 + x0, 16 * b + 8 * y3 + 4 * y2 + 2 * y1 + y0, k + 4)
         == 16 * XorBits(a, b, k) + 8 * Differ(x3, y3) + 4 * Differ(x2, y2) + 2 * Differ(x1, y1) + Differ(x0, y0)
  {
    XorStep(a, b, x3, y3, k);
    XorStep(2 * a + x3, 2 * b + y3, x2, y2, k + 1);
    XorStep(4 * a + 2 * x3 + x2, 4 * b + 2 * y3 + y2, x1, y1, k + 2);
    XorStep(8 * a + 4 * x3 + 2 * x2 + x1, 8 * b + 4 * y3 + 2 * y2 + y1, x0, y0, k + 3);
  }

  lemma PortHigh()
    ensures XorByte(0x80, 0x21) == 0xA1
  {
    XorNibble(0, 0, 1, 0, 0, 0, 0, 0, 1, 0, 0);
    XorNibble(8, 2, 0, 0, 0, 0, 0, 0, 0, 1, 4);
  }

  lemma PortLow()
    ensures XorByte(0x55, 0x12) == 0x47
  {
    XorNibble(0, 0, 0, 1, 0, 1, 0, 0, 0, 1, 0);
    XorNibble(5, 1, 0, 1, 0, 1, 0, 0, 1, 0, 4);
  }

  lemma HostA()
    ensures XorByte(0xC0, 0x21) == 0xE1
  {
    XorNibble(0, 0, 1, 1, 0, 0, 0, 0, 1, 0, 0);
    XorNibble(12, 2, 0, 0, 0, 0, 0, 0, 0, 1, 4);
  }

  lemma HostB()
    ensures XorByte(0x00, 0x12) == 0x12
  {
    XorNibble(0, 0, 0, 0, 0, 0, 0, 0, 0, 1, 0);
    XorNibble(0, 1, 0, 0, 0, 0, 0, 0, 1, 0, 4);
  }

  lemma HostC()
    ensures XorByte(0x02, 0xA4) == 0xA6
  {
    XorNibble(0, 0, 0, 0, 0, 0, 1, 0, 1, 0, 0);
    XorNibble(0, 10, 0, 0, 1, 0, 0, 1, 0, 0, 4);
  }

  lemma HostD()
    ensures XorByte(0x01, 0x42) == 0x43
  {
    XorNibble(0, 0, 0, 0, 0, 0, 0, 1, 0, 0, 0);
    XorNibble(0, 4, 0, 0, 0, 1, 0, 0, 1, 0, 4);
  }

  /** The address of the sample responses of section 2.2 of RFC 5769 on the wire: 192.0.2.1 and port 32853. */
  lemma SampleField(tid: seq<Byte>)
    requires |tid| == 12
    ensures Encoded(V4([192, 0, 2, 1], 32853), true, tid) == [0x00, 0x01, 0xA1, 0x47, 0xE1, 0x12, 0xA6, 0x43]
    ensures Encoded(V4([192, 0, 2, 1], 32853), false, tid) == [0x00, 0x01, 0x80, 0x55, 0xC0, 0x00, 0x02, 0x01]
  {
    PortHigh();
    PortLow();
    HostA();
    HostB();
    HostC();
    HostD();
    var a := V4([192, 0, 2, 1], 32853);
    assert Bytes16(32853) == [0x80, 0x55];
    assert Mix([0x80, 0x55], true, COOKIE) == [0xA1, 0x47];
    assert Mix([192, 0, 2, 1], true, COOKIE) == [0xE1, 0x12, 0xA6, 0x43];
  }

  /** Fills part of the field, byte by byte. */
  method PutMixed(cfield: array<Byte>, at: nat, bs: seq<Byte>, xored: bool, mask: seq<Byte>)
    requires at + |bs| <= cfield.Length && |bs| <= |mask|
    modifies cfield
    ensures cfield[at..at + |bs|] == Mix(bs, xored, mask)
    ensures SameOutside(old(cfield[..]), cfield[..], at, at + |bs|)
  {
    ghost var r := Mix(bs, xored, mask);
    var i: nat := 0;
    while i < |bs|
      invariant i <= |bs|
      invariant cfield[at..at + i] == r[..i]
      invariant SameOutside(old(cfield[..]), cfield[..], at, at + |bs|)
    {
      cfield[at + i] := if xored then XorByte(bs[i], mask[i]) else bs[i];
      i := i + 1;
    }
  }

  lemma Assembled(t0: seq<Byte>, t1: seq<Byte>, t2: seq<Byte>, port: seq<Byte>, ip: seq<Byte>)
    requires |port| == 2 && 4 + |ip| <= |t0|
    requires SameOutside(t0, t1, 2, 4) && t1[2..4] == port
    requires SameOutside(t1, t2, 4, 4 + |ip|) && t2[4..4 + |ip|] == ip
    ensures t2[..4 + |ip|] == t0[..2] + port + ip
  {
    assert t2[..2] == t0[..2] && t2[2..4] == t1[2..4];
    assert t2[..4 + |ip|] == t2[..2] + t2[2..4] + t2[4..4 + |ip|];
  }

  method EncodeAddr(a: Addr, cfield: array<Byte>, xored: bool, tid: seq<Byte>) returns (clen: nat)
    requires WellFormed(a) && |tid| == 12 && cfield.Length >= 20
    modifies cfield
    ensures clen <= cfield.Length && cfield[..clen] == Encoded(a, xored, tid)
  {
    var b := if a.Unspec? then V4([0, 0, 0, 0], 0) else a;
    cfield[0], cfield[1] := 0, if b.V4? then 1 else 2;
    ghost var t0 := cfield[..];
    PutMixed(cfield, 2, Bytes16(b.port), xored, COOKIE);
    ghost var t1 := cfield[..];
    assert t1[2..4] == cfield[2..4];
    var mask := if b.V4? then COOKIE else COOKIE + tid;
    PutMixed(cfield, 4, b.ip, xored, mask);
    clen := 4 + |b.ip|;
    assert cfield[..][4..clen] == cfield[4..clen];
    Assembled(t0, t1, cfield[..], Mix(Bytes16(b.port), xored, COOKIE), Mix(b.ip, xored, mask));
    assert t0[..2] == [0, if b.V4? then 1 else 2];
    assert cfield[..clen] == cfield[..][..clen];
  }

  /** Takes the mask off, byte by byte. */
  method Unmix(bs: seq<Byte>, xored: bool, mask: seq<Byte>) returns (r: seq<Byte>)
    requires |bs| <= |mask|
    ensures r == Mix(bs, xored, mask)
  {
    r := [];
    while |r| < |bs|
      invariant |r| <= |bs| && r == Mix(bs, xored, mask)[..|r|]
      decreases |bs| - |r|
    {
      var i := |r|;
      r := r + [if xored then XorByte(bs[i], mask[i]) else bs[i]];
    }
  }

  method DecodeAddr(bs: seq<Byte>, xored: bool, tid: seq<Byte>) returns (r: Option<Addr>)
    requires |tid| == 12
    ensures r == Decoded(bs, xored, tid)
  {
    if |bs| < 8 || bs[0] != 0 { return None; }
    if bs[1] != 1 && bs[1] != 2 { return None; }
    if |bs| != if bs[1] == 1 then 8 else 20 { return None; }
    var port := Unmix(bs[2..4], xored, COOKIE);
    var ip := Unmix(bs[4..], xored, if bs[1] == 1 then COOKIE else COOKIE + tid);
    r := Some(if bs[1] == 1 then V4(ip, U16At(port, 0)) else V6(ip, U16At(port, 0)));
  }

  // ---------------------------------------------------------------- private and public addresses

  datatype Mapping = Mapping(pub: Addr, priv: Addr)

  /** The first mapping for an address, by its public or by its private side, or -1. */
  function Lookup(table: seq<Mapping>, a: Addr, public: bool, i: nat): (r: int)
    requires i <= |table|
    ensures r == -1 || (i <= r < |table| && AddrEqNoPort(a, if public then table[r].pub else table[r].priv))
    ensures forall k :: i <= k < (if r == -1 then |table| else r) ==>
                          !AddrEqNoPort(a, if public then table[k].pub else table[k].priv)
    decreases |table| - i
  {
    if i == |table| then -1
    else if AddrEqNoPort(a, if public then table[i].pub else table[i].priv) then i
    else Lookup(table, a, public, i + 1)
  }

  function ToPublic(table: seq<Mapping>, a: Addr): Addr
  {
    var i := Lookup(table, a, false, 0);
    if i == -1 then a else table[i].pub.SetPort(a.GetPort())
  }

  function ToPrivate(table: seq<Mapping>, a: Addr): Addr
  {
    var i := Lookup(table, a, true, 0);
    if i == -1 then a else table[i].priv.SetPort(a.GetPort())
  }

  method MapToPublic(table: seq<Mapping>, a: Addr) returns (r: Addr)
    ensures r == ToPublic(table, a)
  {
    var i: nat := 0;
    while i < |table|
      invariant i <= |table| && Lookup(table, a, false, 0) == Lookup(table, a, false, i)
    {
      if AddrEqNoPort(a, table[i].priv) { return table[i].pub.SetPort(a.GetPort()); }
      i := i + 1;
    }
    return a;
  }

  method MapToPrivate(table: seq<Mapping>, a: Addr) returns (r: Addr)
    ensures r == ToPrivate(table, a)
  {
    var i: nat := 0;
    while i < |table|
      invariant i <= |table| && Lookup(table, a, true, 0) == Lookup(table, a, true, i)
    {
      if AddrEqNoPort(a, table[i].pub) { return table[i].priv.SetPort(a.GetPort()); }
      i := i + 1;
    }
    return a;
  }

  predicate MappedAt(table: seq<Mapping>, a: Addr, i: nat)
  {
    i < |table| && AddrEqNoPort(a, table[i].priv)
  }

  predicate PublicAt(table: seq<Mapping>, a: Addr, i: nat)
  {
    i < |table| && AddrEqNoPort(a, table[i].pub)
  }

  predicate FirstMappedAt(table: seq<Mapping>, a: Addr, i: nat)
  {
    MappedAt(table, a, i) && forall k: nat :: k < i ==> !MappedAt(table, a, k)
  }

  /** No entry hides an address: where an entry is the first for it, that entry has a public address and
      none before it has the same, and where no entry is for it, it is nobody's public address. */
  ghost predicate Unshadowed(table: seq<Mapping>, a: Addr)
  {
    && (forall i: nat :: FirstMappedAt(table, a, i) ==>
                           table[i].pub.Decoded() && forall k: nat :: k < i ==> !PublicAt(table, table[i].pub, k))
    && ((forall i: nat :: !MappedAt(table, a, i)) ==> forall k: nat :: !PublicAt(table, a, k))
  }

  /** What an operator can check of a table: no two entries share a public address. */
  predicate PublicsDiffer(table: seq<Mapping>)
  {
    && (forall i :: 0 <= i < |table| ==> table[i].pub.Decoded())
    && (forall i, k :: 0 <= k < i < |table| ==> !AddrEqNoPort(table[i].pub, table[k].pub))
  }

  lemma {:induction false} LookupSame(table: seq<Mapping>, a: Addr, b: Addr, public: bool, i: nat)
    requires i <= |table| && AddrEqNoPort(a, b)
    ensures Lookup(table, a, public, i) == Lookup(table, b, public, i)
    decreases |table| - i
  {
    if i < |table| { LookupSame(table, a, b, public, i + 1); }
  }

  lemma LookupPrivate(table: seq<Mapping>, a: Addr)
    ensures var i := Lookup(table, a, false, 0);
            if i == -1 then forall k: nat :: !MappedAt(table, a, k) else FirstMappedAt(table, a, i)
  {
  }

  lemma LookupPublic(table: seq<Mapping>, a: Addr)
    ensures var j := Lookup(table, a, true, 0);
            if j == -1 then forall k: nat :: !PublicAt(table, a, k)
            else PublicAt(table, a, j) && forall k: nat :: k < j ==> !PublicAt(table, a, k)
  {
  }

  /** The public address of the entry at i leads back through the entry at j. Since i is the first entry
      for the address, coming back to it means j is i. */
  lemma MappedRoundTrip(table: seq<Mapping>, a: Addr, i: nat)
    requires a.Decoded() && FirstMappedAt(table, a, i) && table[i].pub.Decoded()
    requires Lookup(table, a, false, 0) == i
    ensures AddrEq(ToPrivate(table, ToPublic(table, a)), a) <==> forall k: nat :: k < i ==> !PublicAt(table, table[i].pub, k)
  {
    var pub := table[i].pub;
    LookupSame(table, pub, pub.SetPort(a.GetPort()), true, 0);
    LookupPublic(table, pub);
    var j := Lookup(table, pub, true, 0);
    assert PublicAt(table, pub, i);
    if j < i { assert !MappedAt(table, a, j); }
  }

  /** Going to the public address and back gives the same address exactly when no entry hides it. */
  lemma MapRoundTrip(table: seq<Mapping>, a: Addr)
    requires a.Decoded()
    ensures AddrEq(ToPrivate(table, ToPublic(table, a)), a) <==> Unshadowed(table, a)
  {
    LookupPrivate(table, a);
    var i := Lookup(table, a, false, 0);
    if i == -1 {
      LookupPublic(table, a);
    } else {
      assert forall k: nat :: FirstMappedAt(table, a, k) ==> k == i;
      if table[i].pub.Decoded() { MappedRoundTrip(table, a, i); }
    }
  }

  /** With different public addresses, every mapped address and every address that is nobody's public
      one comes back. */
  lemma CheckedTableRoundTrips(table: seq<Mapping>, a: Addr)
    requires a.Decoded() && PublicsDiffer(table)
    requires (exists i: nat :: MappedAt(table, a, i)) || forall k: nat :: !PublicAt(table, a, k)
    ensures AddrEq(ToPrivate(table, ToPublic(table, a)), a)
  {
    MapRoundTrip(table, a);
  }

  /** Two private addresses behind one public address: the second comes back as the first. */
  lemma SharedPublicShadows(pub: Addr, a: Addr, b: Addr)
    requires pub.Decoded() && a.Decoded() && b.Decoded() && !AddrEqNoPort(a, b)
    ensures var table := [Mapping(pub, a), Mapping(pub, b)];
            ToPrivate(table, ToPublic(table, b)) == a.SetPort(b.port) && !Unshadowed(table, b)
  {
    var table := [Mapping(pub, a), Mapping(pub, b)];
    LookupPublic(table, pub.SetPort(b.port));
    assert PublicAt(table, pub.SetPort(b.port), 0);
    LookupPrivate(table, b);
    assert MappedAt(table, b, 1) && !MappedAt(table, b, 0);
    MapRoundTrip(table, b);
  }

  // ---------------------------------------------------------------- address attributes in a message

  const MASKED: set<nat> := {0x0020, 0x0012, 0x0016}
  const PLAIN: set<nat> := {0x0001, 0x8023, 0x0002, 0x0004, 0x0005, 0x000B, 0x802B, 0x802C}

  /** The value of an address attribute of a type. */
  function FieldOf(kind: U16, a: Addr, tid: seq<Byte>): seq<Byte>
    requires WellFormed(a) && |tid| == 12
  {
    Encoded(a, kind in MASKED, tid)
  }

  /** Adds an address attribute: the public address, masked with the transaction id of the message. */
  method AddAddr(buf: array<Byte>, len: nat, kind: U16, a: Addr, table: seq<Mapping>, ghost had: seq<Attribute>)
    returns (ok: bool, len': nat)
    requires buf.Length >= MAX_MESSAGE && len <= buf.Length && Holds(buf[..len], had)
    requires WellFormed(ToPublic(table, a))
    modifies buf
    ensures !ok ==> len' == len && buf[..] == old(buf[..])
    ensures ok <==> len + 4 + |FieldOf(kind, ToPublic(table, a), old(buf[8..20]))| < MAX_MESSAGE
    ensures ok ==> HEADER <= len <= len' <= buf.Length && SameBefore(old(buf[..]), buf[..], len)
    ensures ok ==> buf[..len'][8..20] == old(buf[8..20])
    ensures ok ==> Holds(buf[..len'],
                         had + [Attribute(kind, FieldOf(kind, ToPublic(table, a), buf[..len'][8..20]))])
  {
    var tid := buf[8..20];
    var pub := MapToPublic(table, a);
    var cfield := new Byte[64](_ => 0);
    var clen := EncodeAddr(pub, cfield, kind in MASKED, tid);
    ghost var s := buf[..];
    ok, len' := Extend(buf, len, Attribute(kind, cfield[..clen]), had);
    if ok {
      assert buf[..len'][8..20] == s[8..20] == tid;
    }
  }

  predicate AnyNoPort(a: Addr) { !a.Decoded() || AllZero(a.ip) }

  /** A caller may give an address to stand in for an unspecified one. */
  function Substitute(a: Addr, default: Option<Addr>): Addr
  {
    if default.Some? && AnyNoPort(a) && !AnyNoPort(default.value) then default.value.SetPort(a.GetPort()) else a
  }

  /** The address in an attribute of a message with the transaction id, as a private address. */
  function AddrIn(x: Attribute, tid: seq<Byte>, table: seq<Mapping>, default: Option<Addr>): Option<Addr>
    requires |tid| == 12
  {
    match Decoded(x.value, x.kind in MASKED, tid)
    case None => None
    case Some(pub) => Some(Substitute(ToPrivate(table, pub), default))
  }

  function ReadAddr(s: seq<Byte>, at: nat, table: seq<Mapping>, default: Option<Addr>): Option<Addr>
    requires IsRef(s, at)
  {
    AddrIn(AttributeAt(s, at), s[8..20], table, default)
  }

  /** The first attribute of a type that holds an address. */
  function AddrFrom(s: seq<Byte>, at: int, kind: U16, table: seq<Mapping>, default: Option<Addr>): Option<Addr>
    requires at == -1 || IsRef(s, at)
    decreases if at == -1 then 0 else |s| - at
  {
    if at == -1 then None
    else if AttrType(s, at) == kind && kind in MASKED + PLAIN && ReadAddr(s, at, table, default).Some? then
      ReadAddr(s, at, table, default)
    else AddrFrom(s, Next(s, at), kind, table, default)
  }

  /** An attribute that answers a question for an address of a type. */
  predicate Answers(x: Attribute, kind: U16, tid: seq<Byte>, table: seq<Mapping>, default: Option<Addr>)
    requires |tid| == 12
  {
    x.kind == kind && kind in MASKED + PLAIN && AddrIn(x, tid, table, default).Some?
  }

  /** The attributes before the k-th give no answer. */
  predicate SilentBefore(attrs: seq<Attribute>, k: nat, kind: U16, tid: seq<Byte>, table: seq<Mapping>,
                         default: Option<Addr>)
    requires k <= |attrs| && |tid| == 12
  {
    forall j :: 0 <= j < k ==> !Answers(attrs[j], kind, tid, table, default)
  }

  /** The answer is that of the first attribute of a list that gives one; None when none does. */
  predicate FirstAnswer(attrs: seq<Attribute>, kind: U16, tid: seq<Byte>, table: seq<Mapping>,
                        default: Option<Addr>, r: Option<Addr>)
    requires |tid| == 12
  {
    if r.None? then SilentBefore(attrs, |attrs|, kind, tid, table, default)
    else exists k: nat :: k < |attrs| && SilentBefore(attrs, k, kind, tid, table, default)
                          && Answers(attrs[k], kind, tid, table, default)
                          && AddrIn(attrs[k], tid, table, default) == r
  }

  lemma SilentAfter(x: Attribute, rest: seq<Attribute>, k: nat, kind: U16, tid: seq<Byte>, table: seq<Mapping>,
                    default: Option<Addr>)
    requires |tid| == 12 && k <= |rest| && !Answers(x, kind, tid, table, default)
    requires SilentBefore(rest, k, kind, tid, table, default)
    ensures SilentBefore([x] + rest, k + 1, kind, tid, table, default)
  {
    forall j | 0 <= j < k + 1 ensures !Answers(([x] + rest)[j], kind, tid, table, default) {
      if j != 0 { assert ([x] + rest)[j] == rest[j - 1]; }
    }
  }

  lemma AnswerAfter(x: Attribute, rest: seq<Attribute>, kind: U16, tid: seq<Byte>, table: seq<Mapping>,
                    default: Option<Addr>, r: Option<Addr>)
    requires |tid| == 12 && !Answers(x, kind, tid, table, default)
    requires FirstAnswer(rest, kind, tid, table, default, r)
    ensures FirstAnswer([x] + rest, kind, tid, table, default, r)
  {
    var k: nat := |rest|;
    if r.Some? {
      k :| k < |rest| && SilentBefore(rest, k, kind, tid, table, default)
           && Answers(rest[k], kind, tid, table, default) && AddrIn(rest[k], tid, table, default) == r;
      assert ([x] + rest)[k + 1] == rest[k];
    }
    SilentAfter(x, rest, k, kind, tid, table, default);
  }

  lemma {:induction false} AddrIsFirst(s: seq<Byte>, at: int, kind: U16, tid: seq<Byte>, table: seq<Mapping>,
                                       default: Option<Addr>)
    requires at == -1 || (IsRef(s, at) && tid == s[8..20])
    requires |tid| == 12
    ensures FirstAnswer(ScanFrom(s, at), kind, tid, table, default, AddrFrom(s, at, kind, table, default))
    decreases if at == -1 then 0 else |s| - at
  {
    if at != -1 {
      var x, r := AttributeAt(s, at), AddrFrom(s, at, kind, table, default);
      if Answers(x, kind, tid, table, default) {
        assert ScanFrom(s, at)[0] == x && SilentBefore(ScanFrom(s, at), 0, kind, tid, table, default);
      } else {
        AddrIsFirst(s, Next(s, at), kind, tid, table, default);
        AnswerAfter(x, ScanFrom(s, Next(s, at)), kind, tid, table, default, r);
      }
    }
  }

  /** Asking for the first address of a type gives that of the first attribute, in the order of a scan
      of the message, that has the type and holds one. */
  method GetFirstAddr(s: seq<Byte>, kind: U16, table: seq<Mapping>, default: Option<Addr>) returns (r: Option<Addr>)
    ensures r == AddrFrom(s, First(s), kind, table, default)
    ensures |s| < HEADER ==> r == None
    ensures |s| >= HEADER ==> FirstAnswer(Scan(s), kind, s[8..20], table, default, r)
  {
    if |s| >= HEADER { AddrIsFirst(s, First(s), kind, s[8..20], table, default); }
    var at := First(s);
    while at != -1
      invariant at == -1 || IsRef(s, at)
      invariant AddrFrom(s, First(s), kind, table, default) == AddrFrom(s, at, kind, table, default)
      decreases if at == -1 then 0 else |s| - at
    {
      if kind in MASKED + PLAIN && AttrType(s, at) == kind {
        r := ReadAddr(s, at, table, default);
        if r.Some? { return; }
      }
      at := Next(s, at);
    }
    return None;
  }

  /** Which attributes are masked: XOR-MAPPED-ADDRESS, XOR-PEER-ADDRESS and XOR-RELAYED-ADDRESS are, and
      MAPPED-ADDRESS, ALTERNATE-SERVER, RESPONSE-ORIGIN and OTHER-ADDRESS are not. */
  lemma MaskedKinds(a: Addr, tid: seq<Byte>)
    requires WellFormed(a) && |tid| == 12
    ensures forall kind :: kind in {0x0020, 0x0012, 0x0016} ==> FieldOf(kind, a, tid) == Encoded(a, true, tid)
    ensures forall kind :: kind in {0x0001, 0x8023, 0x802B, 0x802C} ==> FieldOf(kind, a, tid) == Encoded(a, false, tid)
  {
  }

  /** The attributes that hold an address are those of these eleven types. */
  lemma AnswersMeans(x: Attribute, kind: U16, tid: seq<Byte>, table: seq<Mapping>, default: Option<Addr>)
    requires |tid| == 12
    ensures Answers(x, kind, tid, table, default) <==>
              && x.kind == kind && AddrIn(x, tid, table, default).Some?
              && kind in {0x0020, 0x0012, 0x0016, 0x0001, 0x8023, 0x0002, 0x0004, 0x0005, 0x000B, 0x802B, 0x802C}
  {
  }

  /** An unspecified address with a given default is read as the default, with the port of the former. */
  lemma DefaultStandsIn(x: Attribute, tid: seq<Byte>, table: seq<Mapping>, pub: Addr, d: Addr)
    requires |tid| == 12 && Decoded(x.value, x.kind in MASKED, tid) == Some(pub)
    requires var a := ToPrivate(table, pub); a.Decoded() ==> forall i :: 0 <= i < |a.ip| ==> a.ip[i] == 0
    requires d.Decoded() && exists i :: 0 <= i < |d.ip| && d.ip[i] != 0
    ensures AddrIn(x, tid, table, Some(d)) == Some(d.(port := ToPrivate(table, pub).GetPort()))
    ensures AddrIn(x, tid, table, None) == Some(ToPrivate(table, pub))
  {
  }

  lemma {:induction false} AddrWhereFound(s: seq<Byte>, at: int, kind: U16, table: seq<Mapping>, default: Option<Addr>)
    requires at == -1 || IsRef(s, at)
    requires kind in MASKED + PLAIN && FindFrom(s, at, kind) != -1
    requires ReadAddr(s, FindFrom(s, at, kind), table, default).Some?
    ensures AddrFrom(s, at, kind, table, default) == ReadAddr(s, FindFrom(s, at, kind), table, default)
    decreases if at == -1 then 0 else |s| - at
  {
    if at != -1 && AttrType(s, at) != kind { AddrWhereFound(s, Next(s, at), kind, table, default); }
  }

  /** An address added to a message is read back as an equal address, for every address, transaction
      id and attribute type, unless the map of addresses hides it or a default replaces it. */
  lemma AddressReadsBack(s: seq<Byte>, had: seq<Attribute>, more: seq<Attribute>, kind: U16, a: Addr,
                         table: seq<Mapping>, default: Option<Addr>)
    requires kind in MASKED + PLAIN && Lacks(had, kind) && a.Decoded() && Unshadowed(table, a)
    requires WellFormed(ToPublic(table, a)) && |s| >= HEADER
    requires Holds(s, had + [Attribute(kind, FieldOf(kind, ToPublic(table, a), s[8..20]))] + more)
    requires default.None? || AnyNoPort(default.value) || !AnyNoPort(a)
    ensures var r := AddrFrom(s, First(s), kind, table, default);
            r.Some? && AddrEq(r.value, a)
  {
    var pub := ToPublic(table, a);
    var x := Attribute(kind, FieldOf(kind, pub, s[8..20]));
    LookupPrivate(table, a);
    HoldsLen(s, had + [x] + more);
    var at := FindFollows(s, HEADER, had, x, more);
    Seen(s, at, x);
    FieldRoundTrip(pub, kind in MASKED, s[8..20]);
    MapRoundTrip(table, a);
    AddrWhereFound(s, HEADER, kind, table, default);
  }
}
