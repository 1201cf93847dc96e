/** Building STUN messages in a buffer. */
module StunBuild {
  import opened Common
  import opened Addresses
  import opened StunType
  import opened StunWire

  /** Two buffers agree on the first n bytes, except for the length field. */
  predicate SameBefore(s: seq<Byte>, t: seq<Byte>, n: nat)
    requires n <= |s| && n <= |t|
  {
    forall i :: 0 <= i < n && i != 2 && i != 3 ==> s[i] == t[i]
  }

  /** What adding an attribute behind the first clen bytes does to a buffer: the new length is n.
      The padding keeps whatever bytes were there. */
  predicate Added(s: seq<Byte>, t: seq<Byte>, clen: nat, a: Attribute, n: nat)
  {
    && HEADER <= clen
    && n == Round4(clen + 4 + |a.value|) <= |s| == |t|
    && SameBefore(s, t, clen)
    && U16At(t, 2) == n - HEADER
    && U16At(t, clen) == a.kind
    && U16At(t, clen + 2) == |a.value|
    && t[clen + 4..clen + 4 + |a.value|] == a.value
    && t[clen + 4 + |a.value|..] == s[clen + 4 + |a.value|..]
  }

  lemma {:induction false} FollowMore(s: seq<Byte>, t: seq<Byte>, at: nat, attrs: seq<Attribute>, a: Attribute)
    requires |s| <= |t| && HEADER <= at && SameBefore(s, t, |s|) && Follow(s, at, attrs)
    requires AttrIs(t, |s|, a) && |t| == |s| + SizeOf(a)
    ensures Follow(t, at, attrs + [a])
    decreases |attrs|
  {
    if attrs == [] {
      assert (attrs + [a])[1..] == [];
    } else {
      var b := attrs[0];
      assert AttrIs(s, at, b);
      assert forall i :: at <= i < at + SizeOf(b) ==> s[i] == t[i];
      assert AttrIs(t, at, b);
      FollowMore(s, t, at + SizeOf(b), attrs[1..], a);
      assert (attrs + [a])[1..] == attrs[1..] + [a];
    }
  }

  lemma Round4Add(n: nat, k: nat)
    requires n % 4 == 0
    ensures Round4(n + 4 + k) == n + 4 + Round4(k)
  {
  }

  lemma NewIs(s: seq<Byte>, t: seq<Byte>, clen: nat, a: Attribute, n: nat)
    requires clen % 4 == 0 && Added(s, t, clen, a, n)
    ensures n == clen + SizeOf(a) && AttrIs(t[..n], clen, a)
  {
    var value := a.value;
    Round4Add(clen, |value|);
    assert t[..n][clen + 4..clen + 4 + |value|] == t[clen + 4..clen + 4 + |value|];
  }

  lemma HoldsLen(s: seq<Byte>, attrs: seq<Attribute>)
    requires Holds(s, attrs)
    ensures MessageLen(s) == |s| && |s| % 4 == 0
  {
  }

  /** An added attribute comes after those already there. */
  lemma AddHolds(s: seq<Byte>, t: seq<Byte>, clen: nat, a: Attribute, n: nat, attrs: seq<Attribute>)
    requires clen <= |s| && Holds(s[..clen], attrs) && Added(s, t, clen, a, n) && n < MAX_MESSAGE
    ensures n == clen + SizeOf(a) && Holds(t[..n], attrs + [a])
  {
    NewIs(s, t, clen, a, n);
    FollowMore(s[..clen], t[..n], HEADER, attrs, a);
  }

  // ---------------------------------------------------------------- writing into the buffer

  /** Buffers differ at most from i up to j. */
  predicate SameOutside(s: seq<Byte>, t: seq<Byte>, i: nat, j: nat)
  {
    |s| == |t| && forall k :: 0 <= k < |s| && !(i <= k < j) ==> s[k] == t[k]
  }

  method Put16(buf: array<Byte>, i: nat, n: U16)
    requires i + 2 <= buf.Length
    modifies buf
    ensures U16At(buf[..], i) == n && SameOutside(old(buf[..]), buf[..], i, i + 2)
  {
    buf[i], buf[i + 1] := n / 256, n % 256;
  }

  method Copy(buf: array<Byte>, at: nat, value: seq<Byte>)
    requires at + |value| <= buf.Length
    modifies buf
    ensures buf[at..at + |value|] == value && SameOutside(old(buf[..]), buf[..], at, at + |value|)
  {
    var i: nat := 0;
    while i < |value|
      invariant i <= |value|
      invariant buf[at..at + i] == value[..i]
      invariant SameOutside(old(buf[..]), buf[..], at, at + |value|)
    {
      buf[at + i] := value[i];
      i := i + 1;
    }
  }

  lemma AddedFrom(s0: seq<Byte>, s1: seq<Byte>, s2: seq<Byte>, s3: seq<Byte>, t: seq<Byte>, clen: nat, a: Attribute, n: nat)
    requires HEADER <= clen && n == Round4(clen + 4 + |a.value|) <= |s0|
    requires SameOutside(s0, s1, 2, 4) && SameOutside(s1, s2, clen, clen + 2)
    requires SameOutside(s2, s3, clen + 2, clen + 4) && SameOutside(s3, t, clen + 4, clen + 4 + |a.value|)
    requires U16At(s1, 2) == n - HEADER && U16At(s2, clen) == a.kind && U16At(s3, clen + 2) == |a.value|
    requires t[clen + 4..clen + 4 + |a.value|] == a.value
    ensures Added(s0, t, clen, a, n)
  {
    assert s1[2] == t[2] && s1[3] == t[3];
    assert s2[clen] == t[clen] && s2[clen + 1] == t[clen + 1];
    assert s3[clen + 2] == t[clen + 2] && s3[clen + 3] == t[clen + 3];
  }

  /** Adds an attribute behind the declared end of the message. It refuses exactly when the message
      would reach the largest size, and then changes nothing. */
  method AddAttribute(buf: array<Byte>, len: nat, kind: U16, value: seq<Byte>) returns (ok: bool, len': nat)
    requires buf.Length >= MAX_MESSAGE && len <= buf.Length && MessageLen(buf[..len]) != -1
    modifies buf
    ensures ok <==> Round4(MessageLen(old(buf[..len])) + 4 + |value|) < MAX_MESSAGE
    ensures !ok ==> len' == len && buf[..] == old(buf[..])
    ensures ok ==> Added(old(buf[..]), buf[..], MessageLen(old(buf[..len])), Attribute(kind, value), len')
  {
    ghost var s0 := buf[..];
    var clen: nat := MessageLen(buf[..len]);
    var newlen := Round4(clen + 4 + |value|);
    if newlen >= MAX_MESSAGE { return false, len; }
    ok, len' := true, newlen;
    Put16(buf, 2, newlen - HEADER);
    ghost var s1 := buf[..];
    Put16(buf, clen, kind);
    ghost var s2 := buf[..];
    Put16(buf, clen + 2, |value|);
    ghost var s3 := buf[..];
    Copy(buf, clen + 4, value);
    assert buf[clen + 4..clen + 4 + |value|] == buf[..][clen + 4..clen + 4 + |value|];
    AddedFrom(s0, s1, s2, s3, buf[..], clen, Attribute(kind, value), newlen);
  }

  // ---------------------------------------------------------------- whole messages

  /** The header has this type and transaction id, and the cookie. */
  predicate Headed(s: seq<Byte>, t: bv16, tid: seq<Byte>)
  {
    |s| >= HEADER && s[0] == High(t) && s[1] == Low(t) && s[4..8] == COOKIE && s[8..20] == tid
  }

  /** Starts a message: a header without attributes. The transaction id is drawn by the caller. */
  method InitCommand(buf: array<Byte>, t: bv16, tid: seq<Byte>) returns (len: nat)
    requires buf.Length >= MAX_MESSAGE && |tid| == 12
    modifies buf
    ensures len == HEADER && Holds(buf[..len], []) && Headed(buf[..len], t & 0x3FFF, tid)
    ensures buf[len..] == old(buf[len..])
  {
    len := HEADER;
    buf[0], buf[1] := High(t & 0x3FFF), Low(t & 0x3FFF);
    Put16(buf, 2, 0);
    Copy(buf, 4, COOKIE);
    assert buf[4..8] == buf[..20][4..8];
    ghost var s := buf[..];
    Copy(buf, 8, tid);
    assert forall k :: 0 <= k < 8 ==> buf[k] == s[k];
    assert buf[..20][4..8] == s[4..8] == COOKIE;
    assert buf[8..20] == buf[..20][8..20];
  }

  /** Adding to a message adds one attribute at its end and keeps every byte before, except in the
      length field. */
  method Extend(buf: array<Byte>, len: nat, a: Attribute, ghost had: seq<Attribute>) returns (ok: bool, len': nat)
    requires buf.Length >= MAX_MESSAGE && len <= buf.Length && Holds(buf[..len], had)
    modifies buf
    ensures ok <==> len + SizeOf(a) < MAX_MESSAGE
    ensures !ok ==> len' == len && buf[..] == old(buf[..])
    ensures ok ==> len' == len + SizeOf(a) && Holds(buf[..len'], had + [a])
    ensures SameBefore(old(buf[..]), buf[..], len)
  {
    ghost var s := buf[..];
    assert buf[..len] == s[..len];
    HoldsLen(s[..len], had);
    Round4Add(len, |a.value|);
    ok, len' := AddAttribute(buf, len, a.kind, a.value);
    if ok {
      AddHolds(s, buf[..], len, a, len', had);
      assert buf[..len'] == buf[..][..len'];
    }
  }

  function Total(attrs: seq<Attribute>): nat
  {
    if attrs == [] then 0 else SizeOf(attrs[0]) + Total(attrs[1..])
  }

  lemma {:induction false} TotalSnoc(attrs: seq<Attribute>, a: Attribute)
    ensures Total(attrs + [a]) == Total(attrs) + SizeOf(a)
  {
    if attrs == [] {
      assert (attrs + [a])[1..] == [];
    } else {
      assert (attrs + [a])[1..] == attrs[1..] + [a];
      TotalSnoc(attrs[1..], a);
    }
  }

  lemma {:induction false} TotalPrefix(attrs: seq<Attribute>, k: nat)
    requires k < |attrs|
    ensures Total(attrs[..k]) + SizeOf(attrs[k]) <= Total(attrs)
  {
    if k == 0 {
      assert attrs[..0] == [];
    } else {
      assert attrs[..k][1..] == attrs[1..][..k - 1];
      TotalPrefix(attrs[1..], k - 1);
    }
  }

  /** Adds attributes one by one until one is refused; k is how many were added. */
  method AddAll(buf: array<Byte>, len: nat, attrs: seq<Attribute>, ghost had: seq<Attribute>) returns (k: nat, len': nat)
    requires buf.Length >= MAX_MESSAGE && len <= buf.Length && Holds(buf[..len], had)
    modifies buf
    ensures k <= |attrs| && len <= len' <= buf.Length && Holds(buf[..len'], had + attrs[..k])
    ensures len' == len + Total(attrs[..k])
    ensures k == |attrs| <==> len + Total(attrs) < MAX_MESSAGE
    ensures k < |attrs| ==> len' + SizeOf(attrs[k]) >= MAX_MESSAGE
    ensures SameBefore(old(buf[..]), buf[..], len)
  {
    k, len' := 0, len;
    assert had + attrs[..0] == had;
    while k < |attrs|
      invariant k <= |attrs| && len <= len' <= buf.Length && Holds(buf[..len'], had + attrs[..k])
      invariant len' == len + Total(attrs[..k])
      invariant SameBefore(old(buf[..]), buf[..], len)
    {
      TotalPrefix(attrs, k);
      var ok;
      ok, len' := Extend(buf, len', attrs[k], had + attrs[..k]);
      if !ok { return; }
      TotalSnoc(attrs[..k], attrs[k]);
      assert attrs[..k] + [attrs[k]] == attrs[..k + 1];
      assert had + attrs[..k] + [attrs[k]] == had + attrs[..k + 1];
      k := k + 1;
    }
    assert attrs[..k] == attrs;
  }

  /** A message that the library built is accepted as a message, gives back its method, its class and
      no other, its transaction id, and by scanning exactly the attributes added to it. */
  lemma BuiltReadsBack(s: seq<Byte>, c: Class, d: Class, method_: bv16, tid: seq<Byte>, attrs: seq<Attribute>)
    requires Holds(s, attrs) && Headed(s, TypeOf(c, method_), tid)
    ensures IsCommand(s) && !ValidChannel(U16At(s, 0))
    ensures MethodOf(Word(s[0], s[1])) == method_ & 0x0FFF
    ensures IsClass(Word(s[0], s[1]), d) <==> c == d
    ensures s[8..20] == tid
    ensures Scan(s) == attrs
  {
    TypeRoundTrip(c, d, method_);
    ShortType(TypeOf(c, method_));
    ScanExact(s, attrs);
  }

  /** A binding request with SOFTWARE "abc", byte by byte. */
  lemma SampleRequest(s: seq<Byte>, tid: seq<Byte>)
    requires Holds(s, [Attribute(0x8022, [0x61, 0x62, 0x63])]) && Headed(s, TypeOf(Request, 1), tid)
    ensures |s| == 28
    ensures s[..27] == [0x00, 0x01, 0x00, 0x08, 0x21, 0x12, 0xA4, 0x42] + tid + [0x80, 0x22, 0x00, 0x03, 0x61, 0x62, 0x63]
  {
    var a := Attribute(0x8022, [0x61, 0x62, 0x63]);
    assert [a][1..] == [];
    assert Follow(s, HEADER, [a]) && AttrIs(s, HEADER, a) && Follow(s, HEADER + SizeOf(a), [a][1..]);
    BindingTypes();
    BindingBytes();
    assert s[..27] == s[..4] + s[4..8] + s[8..20] + s[20..24] + s[24..27];
    assert s[..4] == [s[0], s[1], s[2], s[3]] && s[20..24] == [s[20], s[21], s[22], s[23]];
  }

  lemma BindingBytes()
    ensures High(0x0001) == 0 && Low(0x0001) == 1
  {
  }

  lemma HeadedKept(s: seq<Byte>, s': seq<Byte>, t: bv16, tid: seq<Byte>)
    requires |s| >= HEADER && |s'| >= HEADER && SameBefore(s, s', HEADER) && Headed(s, t, tid)
    ensures Headed(s', t, tid)
  {
    assert s'[4..8] == s[4..8];
    assert s'[8..20] == s[8..20];
  }

  /** Starting a message and adding a list of attributes to it, as far as they fit. */
  method Build(buf: array<Byte>, c: Class, method_: bv16, tid: seq<Byte>, attrs: seq<Attribute>) returns (k: nat, len: nat)
    requires buf.Length >= MAX_MESSAGE && |tid| == 12
    modifies buf
    ensures k <= |attrs| && HEADER <= len <= buf.Length
    ensures Headed(buf[..len], TypeOf(c, method_), tid) && Holds(buf[..len], attrs[..k])
    ensures len == HEADER + Total(attrs[..k]) && (k == |attrs| <==> HEADER + Total(attrs) < MAX_MESSAGE)
    ensures k < |attrs| ==> len + SizeOf(attrs[k]) >= MAX_MESSAGE
    ensures IsCommand(buf[..len]) && Scan(buf[..len]) == attrs[..k]
    ensures MethodOf(Word(buf[0], buf[1])) == method_ & 0x0FFF && IsClass(Word(buf[0], buf[1]), c)
  {
    TypeRoundTrip(c, c, method_);
    len := InitCommand(buf, TypeOf(c, method_), tid);
    ghost var s := buf[..];
    assert s[..HEADER] == buf[..len];
    k, len := AddAll(buf, len, attrs, []);
    assert [] + attrs[..k] == attrs[..k];
    HeadedKept(s[..HEADER], buf[..len], TypeOf(c, method_), tid);
    BuiltReadsBack(buf[..len], c, c, method_, tid, attrs[..k]);
  }
}
