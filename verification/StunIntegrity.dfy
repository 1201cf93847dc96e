/** MESSAGE-INTEGRITY and FINGERPRINT (sections 15.4 and 15.5 of RFC 5389). The keyed hash is any
    function with the right size, and the secret is the long-term key or the short-term password. */
module StunIntegrity {
  import opened Addresses
  import opened StunType
  import opened StunWire
  import opened StunBuild

  const INTEGRITY: U16 := 0x0008
  const FINGERPRINT: U16 := 0x8028

  datatype Sha = Sha1 | Sha256 | Sha384 | Sha512

  function ShaSize(t: Sha): nat
  {
    match t case Sha1 => 20 case Sha256 => 32 case Sha384 => 48 case Sha512 => 64
  }

  type Hmac = (Sha, seq<Byte>, seq<Byte>) -> seq<Byte>

  ghost predicate Sized(hmac: Hmac)
  {
    forall t, key, data :: |hmac(t, key, data)| == ShaSize(t)
  }

  function SetLen(s: seq<Byte>, n: nat): seq<Byte>
    requires |s| >= 4 && HEADER <= n < HEADER + 0x10000
  {
    s[..2] + Bytes16(n - HEADER) + s[4..]
  }

  function Find(s: seq<Byte>, kind: U16): (r: int)
    ensures r == -1 || (IsRef(s, r) && AttrType(s, r) == kind)
  {
    FindFrom(s, First(s), kind)
  }

  /** The value that MESSAGE-INTEGRITY has to have at an offset: the hash of the bytes before it,
      with the length field as if it were the last attribute. */
  function Expected(s: seq<Byte>, at: nat, hmac: Hmac, sha: Sha, secret: seq<Byte>): seq<Byte>
    requires HEADER <= at <= |s| && at + 4 + ShaSize(sha) < HEADER + 0x10000
  {
    hmac(sha, secret, SetLen(s, at + 4 + ShaSize(sha))[..at])
  }

  datatype Verdict = Failure | Wrong | Right

  /** What checking a message means. */
  function Verify(s: seq<Byte>, hmac: Hmac, sha: Sha, secret: seq<Byte>): Verdict
  {
    var at := Find(s, INTEGRITY);
    if at == -1 || AttrLen(s, at) != ShaSize(sha) then Failure
    else if s[at + 4..at + 4 + ShaSize(sha)] == Expected(s, at, hmac, sha, secret) then Right
    else Wrong
  }

  // ---------------------------------------------------------------- finding

  /** The first attribute of its kind is found where the ones before it end. */
  lemma {:induction false} FindFollows(s: seq<Byte>, at: nat, attrs: seq<Attribute>, a: Attribute, more: seq<Attribute>)
    returns (pos: nat)
    requires MessageLen(s) == |s| && HEADER <= at && Follow(s, at, attrs + [a] + more) && Lacks(attrs, a.kind)
    ensures pos == at + Total(attrs) && IsRef(s, at) && FindFrom(s, at, a.kind) == pos && AttrIs(s, pos, a)
    decreases |attrs|
  {
    var all := attrs + [a] + more;
    Seen(s, at, all[0]);
    if attrs == [] {
      pos := at;
    } else {
      assert all[0] == attrs[0] && attrs[0].kind != a.kind;
      assert all[1..] == attrs[1..] + [a] + more;
      pos := FindFollows(s, at + SizeOf(attrs[0]), attrs[1..], a, more);
    }
  }

  lemma {:induction false} FollowTotal(s: seq<Byte>, at: nat, attrs: seq<Attribute>)
    requires Follow(s, at, attrs)
    ensures at + Total(attrs) == |s|
    decreases |attrs|
  {
    if attrs != [] { FollowTotal(s, at + SizeOf(attrs[0]), attrs[1..]); }
  }

  /** The bytes before an attribute, with the same length field, do not depend on what follows. */
  lemma SamePrefix(s: seq<Byte>, t: seq<Byte>, at: nat, n: nat)
    requires HEADER <= at <= |s| && at <= |t| && SameBefore(s, t, at) && HEADER <= n < HEADER + 0x10000
    ensures SetLen(s, n)[..at] == SetLen(t, n)[..at]
  {
  }

  lemma VerifiesAt(t: seq<Byte>, at: nat, value: seq<Byte>, hmac: Hmac, sha: Sha, secret: seq<Byte>)
    requires HEADER <= at && at + 4 + ShaSize(sha) < HEADER + 0x10000
    requires Find(t, INTEGRITY) == at && AttrIs(t, at, Attribute(INTEGRITY, value)) && |value| == ShaSize(sha)
    requires value == Expected(t, at, hmac, sha, secret)
    ensures Verify(t, hmac, sha, secret) == Right
  {
  }

  /** A message that was signed at its end and then extended still verifies. */
  lemma SignedVerifies(s: seq<Byte>, t: seq<Byte>, had: seq<Attribute>, more: seq<Attribute>, value: seq<Byte>,
                       hmac: Hmac, sha: Sha, secret: seq<Byte>)
    requires Holds(s, had) && Lacks(had, INTEGRITY) && |s| + 4 + ShaSize(sha) < MAX_MESSAGE
    requires value == Expected(s, |s|, hmac, sha, secret) && |value| == ShaSize(sha)
    requires |s| <= |t| && SameBefore(s, t, |s|) && Holds(t, had + [Attribute(INTEGRITY, value)] + more)
    ensures Verify(t, hmac, sha, secret) == Right
  {
    FollowTotal(s, HEADER, had);
    HoldsLen(t, had + [Attribute(INTEGRITY, value)] + more);
    var at := FindFollows(t, HEADER, had, Attribute(INTEGRITY, value), more);
    SamePrefix(s, t, |s|, |s| + 4 + ShaSize(sha));
    VerifiesAt(t, at, value, hmac, sha, secret);
  }

  // ---------------------------------------------------------------- signing and checking a buffer

  /** Writing the value of a fresh attribute gives the attribute with that value. */
  lemma AddedWith(s: seq<Byte>, t: seq<Byte>, u: seq<Byte>, clen: nat, kind: U16, junk: seq<Byte>, value: seq<Byte>, n: nat)
    requires Added(s, t, clen, Attribute(kind, junk), n) && |junk| == |value|
    requires SameOutside(t, u, clen + 4, clen + 4 + |value|) && u[clen + 4..clen + 4 + |value|] == value
    ensures Added(s, u, clen, Attribute(kind, value), n)
  {
    assert u[2] == t[2] && u[3] == t[3];
  }

  lemma LengthBytes(s: seq<Byte>, n: U16)
    requires |s| >= 4 && U16At(s, 2) == n
    ensures s[2..4] == Bytes16(n)
  {
  }

  lemma SignedPrefix(s: seq<Byte>, t: seq<Byte>, clen: nat, n: nat)
    requires HEADER <= clen <= |s| && clen <= |t| && SameBefore(s, t, clen) && HEADER <= n < HEADER + 0x10000
    requires U16At(t, 2) == n - HEADER
    ensures t[..clen] == SetLen(s[..clen], n)[..clen]
  {
    LengthBytes(t, n - HEADER);
    assert t[2] == t[2..4][0] && t[3] == t[2..4][1];
  }

  /** Adds an attribute whose value needs no padding. */
  method Reserve(buf: array<Byte>, len: nat, kind: U16, junk: seq<Byte>, ghost had: seq<Attribute>) returns (ok: bool, len': nat)
    requires buf.Length >= MAX_MESSAGE && len <= buf.Length && Holds(buf[..len], had) && |junk| % 4 == 0
    modifies buf
    ensures ok <==> len + 4 + |junk| < MAX_MESSAGE
    ensures !ok ==> len' == len && buf[..] == old(buf[..])
    ensures ok ==> len' == len + 4 + |junk| && Added(old(buf[..]), buf[..], len, Attribute(kind, junk), len')
  {
    HoldsLen(buf[..len], had);
    Round4Add(len, |junk|);
    ok, len' := AddAttribute(buf, len, kind, junk);
  }

  lemma HashIs(s: seq<Byte>, t: seq<Byte>, clen: nat, hmac: Hmac, sha: Sha, secret: seq<Byte>)
    requires HEADER <= clen <= |s| && clen <= |t| && SameBefore(s, t, clen) && Sized(hmac)
    requires clen + 4 + ShaSize(sha) < HEADER + 0x10000 && U16At(t, 2) == clen + 4 + ShaSize(sha) - HEADER
    ensures hmac(sha, secret, t[..clen]) == Expected(s[..clen], clen, hmac, sha, secret)
    ensures |hmac(sha, secret, t[..clen])| == ShaSize(sha)
  {
    SignedPrefix(s, t, clen, clen + 4 + ShaSize(sha));
  }

  /** Appends MESSAGE-INTEGRITY. The attribute is added with the bytes that happen to be in the
      local buffer, and the hash, computed with the new length in place, then overwrites them. */
  method AddIntegrity(buf: array<Byte>, len: nat, hmac: Hmac, sha: Sha, secret: seq<Byte>, junk: seq<Byte>,
                      ghost had: seq<Attribute>) returns (ok: bool, len': nat)
    requires buf.Length >= MAX_MESSAGE && len <= buf.Length && Holds(buf[..len], had)
    requires Sized(hmac) && |junk| == ShaSize(sha)
    modifies buf
    ensures ok <==> len + 4 + ShaSize(sha) < MAX_MESSAGE
    ensures !ok ==> len' == len && buf[..] == old(buf[..])
    ensures ok ==> len' == len + 4 + ShaSize(sha)
    ensures ok ==> Holds(buf[..len'], had + [Attribute(INTEGRITY, Expected(old(buf[..len]), len, hmac, sha, secret))])
    ensures SameBefore(old(buf[..]), buf[..], len)
  {
    ghost var s := buf[..];
    assert buf[..len] == s[..len];
    ok, len' := Reserve(buf, len, INTEGRITY, junk, had);
    if !ok { return; }
    assert buf[..len' - 4 - ShaSize(sha)] == buf[..][..len];
    var value := hmac(sha, secret, buf[..len' - 4 - ShaSize(sha)]);
    HashIs(s, buf[..], len, hmac, sha, secret);
    Seal(buf, s, len, len', INTEGRITY, junk, value);
    AddHolds(s, buf[..], len, Attribute(INTEGRITY, value), len', had);
    assert buf[..len'] == buf[..][..len'];
  }

  /** Overwrites the value of the last attribute. */
  method Seal(buf: array<Byte>, ghost s: seq<Byte>, ghost clen: nat, n: nat, ghost kind: U16, ghost junk: seq<Byte>, value: seq<Byte>)
    requires Added(s, buf[..], clen, Attribute(kind, junk), n) && |junk| == |value| && n == clen + 4 + |value|
    modifies buf
    ensures Added(s, buf[..], clen, Attribute(kind, value), n)
  {
    ghost var t := buf[..];
    Copy(buf, n - |value|, value);
    assert buf[n - |value|..n] == buf[..][clen + 4..clen + 4 + |value|];
    AddedWith(s, t, buf[..], clen, kind, junk, value, n);
  }

  lemma SetLenTwice(s: seq<Byte>, t: seq<Byte>, u: seq<Byte>)
    requires |s| >= 4 && SameOutside(s, t, 2, 4) && SameOutside(t, u, 2, 4) && U16At(u, 2) == U16At(s, 2)
    ensures u == s
  {
    LengthBytes(s, U16At(s, 2));
    LengthBytes(u, U16At(s, 2));
    assert s[2] == s[2..4][0] && s[3] == s[2..4][1] && u[2] == u[2..4][0] && u[3] == u[2..4][1];
  }

  /** The hash of the bytes before an offset. The length field is rewritten and then restored. */
  method HashBefore(buf: array<Byte>, len: nat, at: nat, orig: nat, hmac: Hmac, sha: Sha, secret: seq<Byte>)
    returns (value: seq<Byte>)
    requires HEADER <= at <= len <= buf.Length && at + 4 + ShaSize(sha) < HEADER + 0x10000
    requires orig == U16At(buf[..], 2) + HEADER
    modifies buf
    ensures value == Expected(old(buf[..len]), at, hmac, sha, secret)
    ensures buf[..] == old(buf[..])
  {
    ghost var s := buf[..];
    var n := at + 4 + ShaSize(sha);
    Put16(buf, 2, n - HEADER);
    ghost var t := buf[..];
    SignedPrefix(s, t, at, n);
    SamePrefix(s[..len], s[..at], at, n);
    assert buf[..at] == t[..at] && s[..len] == old(buf[..len]);
    value := hmac(sha, secret, buf[..n - 4 - ShaSize(sha)]);
    Put16(buf, 2, orig - HEADER);
    SetLenTwice(s, t, buf[..]);
  }

  lemma Slice(s: seq<Byte>, n: nat, i: nat, j: nat)
    requires i <= j <= n <= |s|
    ensures s[..n][i..j] == s[i..j]
  {
  }

  /** Checks MESSAGE-INTEGRITY. The two later tests of the length in the source cannot fail. */
  method CheckIntegrity(buf: array<Byte>, len: nat, hmac: Hmac, sha: Sha, secret: seq<Byte>) returns (v: Verdict)
    requires len <= buf.Length
    modifies buf
    ensures v == Verify(old(buf[..len]), hmac, sha, secret)
    ensures buf[..] == old(buf[..])
  {
    var at := FindByType(buf[..len], INTEGRITY);
    if at == -1 || AttrLen(buf[..len], at) != ShaSize(sha) { return Failure; }
    var value := HashBefore(buf, len, at, MessageLen(buf[..len]), hmac, sha, secret);
    VerdictIs(buf[..], len, at, value, hmac, sha, secret);
    v := if buf[at + 4..at + 4 + ShaSize(sha)] == value then Right else Wrong;
  }

  lemma VerdictIs(buf: seq<Byte>, len: nat, at: nat, value: seq<Byte>, hmac: Hmac, sha: Sha, secret: seq<Byte>)
    requires len <= |buf| && at == Find(buf[..len], INTEGRITY) && AttrLen(buf[..len], at) == ShaSize(sha)
    requires value == Expected(buf[..len], at, hmac, sha, secret)
    ensures at + 4 + ShaSize(sha) <= len
    ensures Verify(buf[..len], hmac, sha, secret) == if buf[at + 4..at + 4 + ShaSize(sha)] == value then Right else Wrong
  {
    Slice(buf, len, at + 4, at + 4 + ShaSize(sha));
  }

  // ---------------------------------------------------------------- what the verdict means

  /** Where the k-th attribute of a scan lies. */
  function PlaceOf(attrs: seq<Attribute>, k: nat): nat
    requires k <= |attrs|
  {
    HEADER + Total(attrs[..k])
  }

  lemma TotalBefore(x: Attribute, rest: seq<Attribute>, k: nat)
    requires k <= |rest|
    ensures Total(([x] + rest)[..k + 1]) == SizeOf(x) + Total(rest[..k])
  {
    assert ([x] + rest)[..k + 1][1..] == rest[..k];
  }

  /** On any bytes the attributes of a scan lie one behind the other from the header on, each with its type,
      length and value in its place, and behind the last one there is no other. */
  lemma {:induction false} ScanLies(s: seq<Byte>, at: nat)
    requires IsRef(s, at)
    ensures var attrs := ScanFrom(s, at);
            && Lie(s, at, attrs)
            && !IsRef(s, at + Total(attrs))
    decreases |s| - at
  {
    var x, rest := AttributeAt(s, at), ScanFrom(s, Next(s, at));
    RefLies(s, at, x);
    if Next(s, at) != -1 { ScanLies(s, Next(s, at)); }
    LieMore(s, at, x, rest);
  }

  lemma LieMore(s: seq<Byte>, at: nat, x: Attribute, rest: seq<Attribute>)
    requires AttrIs(s, at, x) && Lie(s, at + SizeOf(x), rest) && !IsRef(s, at + SizeOf(x) + Total(rest))
    ensures Lie(s, at, [x] + rest) && !IsRef(s, at + Total([x] + rest))
  {
    assert ([x] + rest)[1..] == rest;
  }

  lemma RefLies(s: seq<Byte>, at: nat, x: Attribute)
    requires IsRef(s, at) && x == AttributeAt(s, at)
    ensures AttrIs(s, at, x)
    ensures Next(s, at) == if IsRef(s, at + SizeOf(x)) then at + SizeOf(x) else -1
  {
  }

  /** These attributes lie one behind the other from an offset on. */
  predicate Lie(s: seq<Byte>, at: nat, attrs: seq<Attribute>)
    decreases |attrs|
  {
    attrs == [] || (AttrIs(s, at, attrs[0]) && Lie(s, at + SizeOf(attrs[0]), attrs[1..]))
  }

  lemma NextIs(s: seq<Byte>, at: nat)
    requires IsRef(s, at) && Next(s, at) != -1
    ensures Next(s, at) == at + SizeOf(AttributeAt(s, at))
    ensures ScanFrom(s, at) == [AttributeAt(s, at)] + ScanFrom(s, Next(s, at))
  {
  }

  lemma {:induction false} FindPlace(s: seq<Byte>, at: nat, kind: U16) returns (k: nat)
    requires IsRef(s, at) && FindFrom(s, at, kind) != -1
    ensures FirstOf(ScanFrom(s, at), k, AttributeAt(s, FindFrom(s, at, kind)))
    ensures FindFrom(s, at, kind) == at + Total(ScanFrom(s, at)[..k])
    decreases |s| - at
  {
    if AttrType(s, at) == kind {
      k := 0;
      assert ScanFrom(s, at)[..0] == [];
    } else {
      var next, x := Next(s, at), AttributeAt(s, at);
      var a := AttributeAt(s, FindFrom(s, next, kind));
      NextIs(s, at);
      k := FindPlace(s, next, kind);
      FirstAfter(x, ScanFrom(s, next), k, a);
      TotalBefore(x, ScanFrom(s, next), k);
      k := k + 1;
    }
  }

  /** The k-th attribute of a scan is the first of its type. */
  predicate FirstKind(s: seq<Byte>, kind: U16, k: nat)
  {
    k < |Scan(s)| && Scan(s)[k].kind == kind && FirstOf(Scan(s), k, Scan(s)[k])
  }

  lemma OnlyOneFirst(s: seq<Byte>, kind: U16, k: nat, n: nat)
    requires FirstKind(s, kind, k) && FirstKind(s, kind, n)
    ensures k == n
  {
  }

  /** The bytes that are hashed: those before a place, with the length that ends behind the hash. */
  function Hashed(s: seq<Byte>, at: nat, size: nat): seq<Byte>
    requires 4 <= at <= |s| && HEADER <= at + 4 + size < HEADER + 0x10000
  {
    s[..2] + Bytes16(at + 4 + size - HEADER) + s[4..at]
  }

  /** The k-th attribute is the first integrity attribute, and is the hash that it has to be. */
  ghost predicate SignedAt(s: seq<Byte>, k: nat, hmac: Hmac, sha: Sha, secret: seq<Byte>)
  {
    && FirstKind(s, 0x0008, k) && |Scan(s)[k].value| == ShaSize(sha)
    && var at := PlaceOf(Scan(s), k);
       && at <= |s| && at + 4 + ShaSize(sha) < HEADER + 0x10000
       && Scan(s)[k].value == hmac(sha, secret, Hashed(s, at, ShaSize(sha)))
  }

  lemma ExpectedIs(s: seq<Byte>, at: nat, hmac: Hmac, sha: Sha, secret: seq<Byte>)
    requires HEADER <= at <= |s| && at + 4 + ShaSize(sha) < HEADER + 0x10000
    ensures Expected(s, at, hmac, sha, secret) == hmac(sha, secret, Hashed(s, at, ShaSize(sha)))
  {
    Replaced(s, Bytes16(at + 4 + ShaSize(sha) - HEADER), at);
  }

  lemma Replaced(s: seq<Byte>, two: seq<Byte>, at: nat)
    requires 4 <= at <= |s| && |two| == 2
    ensures (s[..2] + two + s[4..])[..at] == s[..2] + two + s[4..at]
  {
    assert s[4..][..at - 4] == s[4..at];
  }

  /** A message on any bytes fails exactly when a scan gives no integrity attribute or the first one has
      another size, and is right exactly when that one is the hash of what comes before it. */
  lemma VerdictMeans(s: seq<Byte>, hmac: Hmac, sha: Sha, secret: seq<Byte>)
    ensures Verify(s, hmac, sha, secret) == Failure <==>
              Lacks(Scan(s), 0x0008) || exists k: nat :: FirstKind(s, 0x0008, k) && |Scan(s)[k].value| != ShaSize(sha)
    ensures Verify(s, hmac, sha, secret) == Right <==> exists k: nat :: SignedAt(s, k, hmac, sha, secret)
  {
    var at := Find(s, INTEGRITY);
    if at == -1 {
      var n := FindIsFirst(s, First(s), INTEGRITY);
    } else {
      var k := FindPlace(s, First(s), INTEGRITY);
      forall n: nat | FirstKind(s, 0x0008, n) ensures n == k { OnlyOneFirst(s, 0x0008, n, k); }
      VerdictAt(s, at, k, hmac, sha, secret);
    }
  }

  lemma VerdictAt(s: seq<Byte>, at: nat, k: nat, hmac: Hmac, sha: Sha, secret: seq<Byte>)
    requires Find(s, INTEGRITY) == at && FirstOf(Scan(s), k, AttributeAt(s, at)) && at == PlaceOf(Scan(s), k)
    ensures FirstKind(s, 0x0008, k)
    ensures Verify(s, hmac, sha, secret) == Failure <==> |Scan(s)[k].value| != ShaSize(sha)
    ensures Verify(s, hmac, sha, secret) == Right <==> SignedAt(s, k, hmac, sha, secret)
  {
    if |AttributeAt(s, at).value| == ShaSize(sha) { ExpectedIs(s, at, hmac, sha, secret); }
  }

  /** The sizes are those of the hashes, in bytes. */
  lemma ShaSizes()
    ensures 8 * ShaSize(Sha1) == 160 && 8 * ShaSize(Sha256) == 256
    ensures 8 * ShaSize(Sha384) == 384 && 8 * ShaSize(Sha512) == 512
  {
  }

  // ---------------------------------------------------------------- fingerprint

  /** The value of FINGERPRINT for the bytes before it: Crc.Stamp, or any other four bytes. */
  type Stamp = seq<Byte> -> seq<Byte>

  ghost predicate FourBytes(stamp: Stamp)
  {
    forall prefix :: |stamp(prefix)| == 4
  }

  /** Appends FINGERPRINT. The source ignores a refusal, and then writes over the last four bytes. */
  method AddFingerprint(buf: array<Byte>, len: nat, stamp: Stamp, ghost had: seq<Attribute>) returns (len': nat)
    requires buf.Length >= MAX_MESSAGE && len <= buf.Length && Holds(buf[..len], had) && FourBytes(stamp)
    modifies buf
    ensures len + 8 < MAX_MESSAGE ==> len' == len + 8 && SameBefore(old(buf[..]), buf[..], len)
    ensures len + 8 < MAX_MESSAGE ==> Holds(buf[..len'], had + [Attribute(FINGERPRINT, stamp(buf[..len]))])
    ensures len + 8 >= MAX_MESSAGE ==>
              && len' == len
              && buf[..] == old(buf[..len - 4]) + stamp(old(buf[..len - 8])) + old(buf[len..])
  {
    ghost var s := buf[..];
    assert buf[..len] == s[..len];
    var zero: seq<Byte> := [0, 0, 0, 0];
    var ok;
    ok, len' := Reserve(buf, len, FINGERPRINT, zero, had);
    if ok {
      StampLast(buf, s, len, len', zero, stamp);
      AddHolds(s, buf[..], len, Attribute(FINGERPRINT, stamp(buf[..len])), len', had);
      assert buf[..len'] == buf[..][..len'];
    } else {
      var value := stamp(buf[..len' - 8]);
      assert buf[..len' - 8] == s[..len - 8];
      Copy(buf, len' - 4, value);
      assert buf[len' - 4..len'] == buf[..][len - 4..len];
      Written(s, buf[..], len - 4, value);
    }
  }

  lemma EndReplaced(s: seq<Byte>, four: seq<Byte>, i: nat)
    requires |four| == 4 && i + 4 <= |s|
    ensures (s[..|s| - 4] + four)[i..|s|] == s[i..|s| - 4] + four
  {
    assert s[..|s| - 4][i..] == s[i..|s| - 4];
  }

  lemma LastFour(s: seq<Byte>, t: seq<Byte>, a: Attribute, four: seq<Byte>)
    requires Holds(s, [a]) && |four| == 4 <= |a.value| && |a.value| % 4 == 0
    requires t == s[..|s| - 4] + four
    ensures Holds(t, [Attribute(a.kind, a.value[..|a.value| - 4] + four)])
  {
    var n := |a.value|;
    assert Follow(s, HEADER, [a]) && AttrIs(s, HEADER, a);
    assert [a][1..] == [] && Follow(s, HEADER + SizeOf(a), [a][1..]);
    var b := Attribute(a.kind, a.value[..n - 4] + four);
    assert |s| == HEADER + 4 + n;
    EndReplaced(s, four, HEADER + 4);
    assert s[HEADER + 4..HEADER + n] == s[HEADER + 4..HEADER + 4 + n][..n - 4];
    assert AttrIs(t, HEADER, b);
    assert [b][1..] == [];
  }

  /** A message that is nearly as long as it may be gets no fingerprint: the last four bytes of what it
      holds are lost. */
  method StampFull(buf: array<Byte>, c: Class, method_: bv16, tid: seq<Byte>, kind: U16, value: seq<Byte>, stamp: Stamp)
    returns (len: nat)
    requires buf.Length >= MAX_MESSAGE && |tid| == 12 && |value| == 65480 && FourBytes(stamp)
    modifies buf
    ensures len == 65504 <= buf.Length
    ensures Scan(buf[..len]) == [Attribute(kind, value[..65476] + stamp(buf[..len - 8]))]
  {
    var a := Attribute(kind, value);
    assert [a][1..] == [] && Total([a]) == 65484;
    var k, n := Build(buf, c, method_, tid, [a]);
    assert [a][..k] == [a];
    ghost var s := buf[..n];
    assert s[..n - 4] == buf[..n - 4] && s[..n - 8] == buf[..n - 8];
    len := AddFingerprint(buf, n, stamp, [a]);
    assert buf[..len] == buf[..][..len] == s[..n - 4] + stamp(s[..n - 8]);
    assert buf[..len - 8] == buf[..len][..len - 8] == s[..n - 8];
    LastFour(s, buf[..len], a, stamp(s[..n - 8]));
    ScanExact(buf[..len], [Attribute(kind, value[..65476] + stamp(buf[..len - 8]))]);
  }

  lemma Written(s: seq<Byte>, t: seq<Byte>, at: nat, value: seq<Byte>)
    requires at + |value| <= |s| && SameOutside(s, t, at, at + |value|) && t[at..at + |value|] == value
    ensures t == s[..at] + value + s[at + |value|..]
  {
    forall k | 0 <= k < |t| ensures t[k] == (s[..at] + value + s[at + |value|..])[k] {
      if at <= k < at + |value| { assert t[k] == t[at..at + |value|][k - at]; }
    }
  }

  /** Writes the value of the fingerprint that was just added. */
  method StampLast(buf: array<Byte>, ghost s: seq<Byte>, ghost clen: nat, n: nat, ghost zero: seq<Byte>, stamp: Stamp)
    requires Added(s, buf[..], clen, Attribute(FINGERPRINT, zero), n) && |zero| == 4 && n == clen + 8 && FourBytes(stamp)
    modifies buf
    ensures Added(s, buf[..], clen, Attribute(FINGERPRINT, stamp(buf[..clen])), n)
  {
    ghost var t := buf[..];
    assert buf[..n - 8] == t[..clen];
    var value := stamp(buf[..n - 8]);
    Copy(buf, n - 4, value);
    assert buf[n - 4..n] == buf[..][clen + 4..clen + 4 + |value|];
    AddedWith(s, t, buf[..], clen, FINGERPRINT, zero, value, n);
    assert buf[..clen] == t[..clen];
  }

  // ---------------------------------------------------------------- the full check

  /** What the full check of a message means. */
  predicate FullOk(s: seq<Byte>, must: bool, stamp: Stamp)
  {
    && IsCommand(s)
    && var at := Find(s, FINGERPRINT);
       if at == -1 then MethodOf(Word(s[0], s[1])) == 1 || !must
       else AttrLen(s, at) == 4 && s[at + 4..at + 8] == stamp(s[..at])
  }

  method FullCheck(s: seq<Byte>, must: bool, stamp: Stamp) returns (ok: bool)
    ensures ok == FullOk(s, must, stamp)
  {
    if !IsCommand(s) { return false; }
    var at := FindByType(s, FINGERPRINT);
    if at == -1 {
      return MethodOf(Word(s[0], s[1])) == 1 || !must;
    }
    if AttrLen(s, at) != 4 { return false; }
    return s[at + 4..at + 8] == stamp(s[..at]);
  }

  /** The k-th attribute is the first fingerprint, and the stamp of what comes before it. */
  ghost predicate StampedAt(s: seq<Byte>, k: nat, stamp: Stamp)
  {
    && FirstKind(s, 0x8028, k) && |Scan(s)[k].value| == 4
    && PlaceOf(Scan(s), k) <= |s| && Scan(s)[k].value == stamp(s[..PlaceOf(Scan(s), k)])
  }

  /** The full check passes exactly for a well-formed message whose first fingerprint is right, or which has
      none and is a binding or need not have one. */
  lemma FullMeans(s: seq<Byte>, must: bool, stamp: Stamp)
    ensures FullOk(s, must, stamp) <==>
              IsCommand(s) && if Lacks(Scan(s), 0x8028) then MethodOf(Word(s[0], s[1])) == 1 || !must
                              else exists k: nat :: StampedAt(s, k, stamp)
  {
    if IsCommand(s) {
      var at := Find(s, FINGERPRINT);
      if at == -1 {
        var n := FindIsFirst(s, First(s), FINGERPRINT);
      } else {
        var k := FindPlace(s, First(s), FINGERPRINT);
        assert FirstKind(s, 0x8028, k) && PlaceOf(Scan(s), k) == at;
        forall n: nat | FirstKind(s, 0x8028, n) ensures n == k { OnlyOneFirst(s, 0x8028, n, k); }
        assert StampedAt(s, k, stamp) <==> (AttrLen(s, at) == 4 && s[at + 4..at + 8] == stamp(s[..at]));
      }
    }
  }

  /** A message with one fingerprint at its end passes the full check. */
  lemma FingerprintPasses(t: seq<Byte>, had: seq<Attribute>, value: seq<Byte>, must: bool, stamp: Stamp)
    requires Holds(t, had + [Attribute(FINGERPRINT, value)]) && Lacks(had, FINGERPRINT) && IsCommand(t)
    requires |t| >= 8 && value == stamp(t[..|t| - 8]) && |value| == 4
    ensures FullOk(t, must, stamp)
  {
    var a := Attribute(FINGERPRINT, value);
    assert had + [a] + [] == had + [a];
    HoldsLen(t, had + [a]);
    FollowTotal(t, HEADER, had + [a]);
    TotalSnoc(had, a);
    var at := FindFollows(t, HEADER, had, a, []);
  }

  // ---------------------------------------------------------------- a whole exchange

  lemma SameThrough(a: seq<Byte>, b: seq<Byte>, c: seq<Byte>, n: nat, k: nat)
    requires n <= k <= |a| == |b| == |c| && SameBefore(a, b, n) && SameBefore(b, c, k)
    ensures SameBefore(a, c, n)
  {
  }

  /** The lists of attributes as the lemmas above divide them. */
  lemma Divide(had: seq<Attribute>, mi: Attribute, more: seq<Attribute>, fp: Attribute)
    ensures had + [mi] + more + [fp] == had + [mi] + (more + [fp])
    ensures Lacks(had, fp.kind) && mi.kind != fp.kind && Lacks(more, fp.kind) ==> Lacks(had + [mi] + more, fp.kind)
  {
  }

  /** A message that is built, signed, extended and stamped is accepted in full, its integrity
      verifies with the same secret, and scanning it gives exactly what went in. */
  lemma SentIsAccepted(s: seq<Byte>, t: seq<Byte>, had: seq<Attribute>, more: seq<Attribute>,
                       value: seq<Byte>, stamped: seq<Byte>, hmac: Hmac, sha: Sha, secret: seq<Byte>, stamp: Stamp, must: bool)
    requires Holds(s, had) && Lacks(had, INTEGRITY) && Lacks(had, FINGERPRINT) && Lacks(more, FINGERPRINT)
    requires |s| + 4 + ShaSize(sha) < MAX_MESSAGE && |s| <= |t| && SameBefore(s, t, |s|)
    requires value == Expected(s, |s|, hmac, sha, secret) && |value| == ShaSize(sha)
    requires |t| >= 8 && stamped == stamp(t[..|t| - 8]) && |stamped| == 4 && IsCommand(t)
    requires Holds(t, had + [Attribute(INTEGRITY, value)] + more + [Attribute(FINGERPRINT, stamped)])
    ensures Verify(t, hmac, sha, secret) == Right && FullOk(t, must, stamp)
    ensures Scan(t) == had + [Attribute(INTEGRITY, value)] + more + [Attribute(FINGERPRINT, stamped)]
  {
    var mi, fp := Attribute(INTEGRITY, value), Attribute(FINGERPRINT, stamped);
    Divide(had, mi, more, fp);
    SignedVerifies(s, t, had, more + [fp], value, hmac, sha, secret);
    FingerprintPasses(t, had + [mi] + more, stamped, must, stamp);
    ScanExact(t, had + [mi] + more + [fp]);
  }

  /** Further attributes, and a fingerprint at the end. */
  method Finish(buf: array<Byte>, len: nat, more: seq<Attribute>, stamp: Stamp, ghost had: seq<Attribute>) returns (ok: bool, len': nat)
    requires buf.Length >= MAX_MESSAGE && len <= buf.Length && Holds(buf[..len], had) && FourBytes(stamp)
    modifies buf
    ensures ok <==> len + Total(more) + 8 < MAX_MESSAGE
    ensures ok ==> len + 8 <= len' <= buf.Length && SameBefore(old(buf[..]), buf[..], len)
    ensures ok ==> Holds(buf[..len'], had + more + [Attribute(FINGERPRINT, stamp(buf[..len'][..len' - 8]))])
  {
    ghost var s := buf[..];
    var k, n := AddAll(buf, len, more, had);
    if k < |more| { return false, n; }
    assert more[..k] == more;
    if n + 8 >= MAX_MESSAGE { return false, n; }
    ghost var t := buf[..];
    ok := true;
    len' := AddFingerprint(buf, n, stamp, had + more);
    SameThrough(s, t, buf[..], len, n);
    assert buf[..len'][..len' - 8] == buf[..n];
  }

  /** A message and its integrity attribute; s is the message before that. */
  method BuildSigned(buf: array<Byte>, c: Class, method_: bv16, tid: seq<Byte>, attrs: seq<Attribute>,
                     hmac: Hmac, sha: Sha, secret: seq<Byte>, junk: seq<Byte>) returns (ok: bool, len: nat, ghost s: seq<Byte>)
    requires buf.Length >= MAX_MESSAGE && |tid| == 12 && Sized(hmac) && |junk| == ShaSize(sha)
    modifies buf
    ensures len <= buf.Length && (ok <==> HEADER + Total(attrs) + 4 + ShaSize(sha) < MAX_MESSAGE)
    ensures ok ==> len == HEADER + Total(attrs) + 4 + ShaSize(sha)
    ensures ok ==> Holds(s, attrs) && Headed(s, TypeOf(c, method_), tid) && |s| + 4 + ShaSize(sha) == len < MAX_MESSAGE
    ensures ok ==> SameBefore(s, buf[..len], |s|)
    ensures ok ==> Holds(buf[..len], attrs + [Attribute(INTEGRITY, Expected(s, |s|, hmac, sha, secret))])
  {
    var k, n := Build(buf, c, method_, tid, attrs);
    ok, len, s := false, n, buf[..n];
    if k < |attrs| { return; }
    assert attrs[..k] == attrs;
    ok, len := AddIntegrity(buf, n, hmac, sha, secret, junk, attrs);
  }

  lemma SameOnward(s: seq<Byte>, t: seq<Byte>, u: seq<Byte>, v: seq<Byte>, n: nat)
    requires HEADER <= |s| <= n <= |t| == |u| && SameBefore(s, t[..n], |s|) && SameBefore(t, u, n)
    requires |s| <= |v| <= |u| && v == u[..|v|]
    ensures SameBefore(s, v, |s|) && SameBefore(s, v, HEADER)
  {
  }

  /** What a scan of a sent message gives: the attributes with the integrity and the fingerprint, which is
      the stamp of the bytes before it. */
  ghost predicate Carries(t: seq<Byte>, attrs: seq<Attribute>, more: seq<Attribute>, stamp: Stamp)
  {
    && |t| >= 8
    && var fp := Attribute(FINGERPRINT, stamp(t[..|t| - 8]));
       exists value :: Scan(t) == attrs + [Attribute(INTEGRITY, value)] + more + [fp]
  }

  /** A message that is built, signed, extended and stamped in a buffer, all of which fitted, is
      accepted in full and verifies. */
  method Send(buf: array<Byte>, c: Class, method_: bv16, tid: seq<Byte>, attrs: seq<Attribute>, more: seq<Attribute>,
              hmac: Hmac, sha: Sha, secret: seq<Byte>, junk: seq<Byte>, stamp: Stamp) returns (ok: bool, len: nat)
    requires buf.Length >= MAX_MESSAGE && |tid| == 12 && Sized(hmac) && |junk| == ShaSize(sha) && FourBytes(stamp)
    requires Lacks(attrs, INTEGRITY) && Lacks(attrs, FINGERPRINT) && Lacks(more, FINGERPRINT)
    modifies buf
    ensures ok <==> HEADER + Total(attrs) + 4 + ShaSize(sha) + Total(more) + 8 < MAX_MESSAGE
    ensures ok ==> len <= buf.Length && Verify(buf[..len], hmac, sha, secret) == Right && FullOk(buf[..len], true, stamp)
    ensures ok ==> Carries(buf[..len], attrs, more, stamp)
  {
    var signed, n, s := BuildSigned(buf, c, method_, tid, attrs, hmac, sha, secret, junk);
    if !signed { return false, n; }
    ghost var value := Expected(s, |s|, hmac, sha, secret);
    ghost var t := buf[..];
    assert buf[..n] == t[..n];
    ok, len := Finish(buf, n, more, stamp, attrs + [Attribute(INTEGRITY, value)]);
    if ok {
      ghost var u := buf[..len];
      assert u[..|u| - 8] == u[..len - 8];
      SameOnward(s, t, buf[..], u, n);
      Accepted(s, u, c, method_, tid, attrs, more, value, hmac, sha, secret, stamp);
    }
  }

  lemma Accepted(s: seq<Byte>, t: seq<Byte>, c: Class, method_: bv16, tid: seq<Byte>, had: seq<Attribute>, more: seq<Attribute>,
                 value: seq<Byte>, hmac: Hmac, sha: Sha, secret: seq<Byte>, stamp: Stamp)
    requires Holds(s, had) && Lacks(had, INTEGRITY) && Lacks(had, FINGERPRINT) && Lacks(more, FINGERPRINT)
    requires |s| + 4 + ShaSize(sha) < MAX_MESSAGE && |s| + 8 <= |t| && SameBefore(s, t, |s|) && SameBefore(s, t, HEADER)
    requires value == Expected(s, |s|, hmac, sha, secret) && Sized(hmac) && FourBytes(stamp)
    requires Headed(s, TypeOf(c, method_), tid)
    requires Holds(t, had + [Attribute(INTEGRITY, value)] + more + [Attribute(FINGERPRINT, stamp(t[..|t| - 8]))])
    ensures Verify(t, hmac, sha, secret) == Right && FullOk(t, true, stamp)
    ensures Carries(t, had, more, stamp)
  {
    var stamped := stamp(t[..|t| - 8]);
    HeadedKept(s, t, TypeOf(c, method_), tid);
    BuiltReadsBack(t, c, c, method_, tid, had + [Attribute(INTEGRITY, value)] + more + [Attribute(FINGERPRINT, stamped)]);
    SentIsAccepted(s, t, had, more, value, stamped, hmac, sha, secret, stamp, true);
  }
}
