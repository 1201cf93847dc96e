/** The STUN wire format (sections 6 and 15 of RFC 5389): how attributes lie in a message and how
    the library walks over them. An attribute reference is an offset, and -1 is the null reference. */
module StunWire {
  import opened Common
  import opened Addresses

  type U16 = x: nat | x < 0x10000

  const HEADER: nat := 20
  const MAX_MESSAGE: nat := 65507
  const COOKIE: seq<Byte> := [0x21, 0x12, 0xA4, 0x42]

  function U16At(s: seq<Byte>, i: nat): U16
    requires i + 2 <= |s|
  {
    var high: nat, low: nat := s[i], s[i + 1];
    high * 256 + low
  }

  function Bytes16(n: U16): (bs: seq<Byte>)
    ensures |bs| == 2 && U16At(bs, 0) == n
  {
    [n / 256, n % 256]
  }

  function Round4(n: nat): (r: nat)
    ensures n <= r < n + 4 && r % 4 == 0 && (n % 4 == 0 ==> r == n)
  {
    if n % 4 == 0 then n else n + 4 - n % 4
  }

  /** The length a header declares, or -1 when the buffer is shorter than that. */
  function MessageLen(s: seq<Byte>): (n: int)
    ensures n == -1 || HEADER <= n <= |s|
  {
    if |s| < HEADER then -1
    else
      var n := U16At(s, 2) + HEADER;
      if n > |s| then -1 else n
  }

  predicate IsCommand(s: seq<Byte>)
  {
    && |s| >= HEADER
    && !ValidChannel(U16At(s, 0))
    && s[0] < 64
    && s[4..8] == COOKIE
    && U16At(s, 2) % 4 == 0
    && U16At(s, 2) + HEADER == |s|
  }

  /** Bytes are a message exactly when the first two bits are zero, the cookie is in its place and the length
      that is declared, a multiple of four, is that of what follows the header. */
  lemma CommandMeans(s: seq<Byte>)
    ensures IsCommand(s) <==>
              && |s| >= 20 && s[0] < 0x40
              && s[4] == 0x21 && s[5] == 0x12 && s[6] == 0xA4 && s[7] == 0x42
              && |s| % 4 == 0 && 256 * s[2] as int + s[3] == |s| - 20
  {
    if |s| >= 20 {
      assert s[4..8] == [s[4], s[5], s[6], s[7]];
      assert U16At(s, 0) < 0x4000 <==> s[0] < 0x40;
    }
  }

  /** The declared length, if the buffer holds that much. */
  lemma MessageLenMeans(s: seq<Byte>)
    ensures MessageLen(s) == -1 <==> |s| < 20 || 20 + 256 * s[2] as int + s[3] > |s|
    ensures MessageLen(s) != -1 ==> MessageLen(s) == 20 + 256 * s[2] as int + s[3]
  {
  }

  // ---------------------------------------------------------------- walking over attributes

  function AttrType(s: seq<Byte>, at: nat): U16
    requires at + 4 <= |s|
  {
    U16At(s, at)
  }

  function AttrLen(s: seq<Byte>, at: nat): U16
    requires at + 4 <= |s|
  {
    U16At(s, at + 2)
  }

  /** The attribute at an offset, with its padding, lies inside the declared message. */
  predicate IsRef(s: seq<Byte>, at: int)
  {
    HEADER <= at && at + 4 <= MessageLen(s) && at + 4 + Round4(AttrLen(s, at)) <= MessageLen(s)
  }

  function CheckValid(s: seq<Byte>, at: nat, remaining: nat): (r: int)
    requires at + remaining <= |s|
    ensures r == -1 || r == at
    ensures HEADER <= at && at + remaining == MessageLen(s) ==> (r == at <==> IsRef(s, at))
  {
    if remaining >= 4 && Round4(AttrLen(s, at)) <= remaining - 4 then at else -1
  }

  function First(s: seq<Byte>): (r: int)
    ensures r == if IsRef(s, HEADER) then HEADER else -1
  {
    var n := MessageLen(s);
    if n > HEADER then CheckValid(s, HEADER, n - HEADER) else -1
  }

  /** The offset just behind an attribute. */
  function After(s: seq<Byte>, at: nat): nat
    requires at + 4 <= |s|
  {
    at + 4 + Round4(AttrLen(s, at))
  }

  function Next(s: seq<Byte>, prev: nat): (r: int)
    requires IsRef(s, prev)
    ensures r == if IsRef(s, After(s, prev)) then After(s, prev) else -1
  {
    var end := MessageLen(s);
    if Round4(AttrLen(s, prev)) < end - prev - 4 then CheckValid(s, After(s, prev), end - After(s, prev)) else -1
  }

  datatype Attribute = Attribute(kind: U16, value: seq<Byte>)

  function AttributeAt(s: seq<Byte>, at: nat): Attribute
    requires IsRef(s, at)
  {
    Attribute(AttrType(s, at), s[at + 4..at + 4 + AttrLen(s, at)])
  }

  /** All attributes from a reference on. Every step moves on by at least four bytes inside the
      declared message, so the walk ends on any bytes whatever, after at most a quarter of them. */
  function ScanFrom(s: seq<Byte>, at: int): (attrs: seq<Attribute>)
    requires at == -1 || IsRef(s, at)
    ensures at != -1 ==> 4 * |attrs| <= MessageLen(s) - at
    ensures at == -1 ==> attrs == []
    decreases if at == -1 then 0 else |s| - at
  {
    if at == -1 then []
    else [AttributeAt(s, at)] + ScanFrom(s, Next(s, at))
  }

  function Scan(s: seq<Byte>): (attrs: seq<Attribute>)
    ensures |s| < HEADER ==> attrs == []
    ensures |s| >= HEADER ==> |attrs| <= (|s| - HEADER) / 4
  {
    ScanFrom(s, First(s))
  }

  /** The first attribute of a type, from a reference on. */
  function FindFrom(s: seq<Byte>, at: int, kind: U16): (r: int)
    requires at == -1 || IsRef(s, at)
    ensures r == -1 || (IsRef(s, r) && AttrType(s, r) == kind)
    decreases if at == -1 then 0 else |s| - at
  {
    if at == -1 || AttrType(s, at) == kind then at else FindFrom(s, Next(s, at), kind)
  }

  /** An attribute is the k-th of a list and the first of its type there. */
  predicate FirstOf(attrs: seq<Attribute>, k: nat, a: Attribute)
  {
    k < |attrs| && attrs[k] == a && forall j :: 0 <= j < k ==> attrs[j].kind != a.kind
  }

  predicate Lacks(attrs: seq<Attribute>, kind: U16)
  {
    forall i :: 0 <= i < |attrs| ==> attrs[i].kind != kind
  }

  lemma FirstAfter(x: Attribute, rest: seq<Attribute>, k: nat, a: Attribute)
    requires x.kind != a.kind && FirstOf(rest, k, a)
    ensures FirstOf([x] + rest, k + 1, a)
  {
    forall j | 0 <= j < k + 1 ensures ([x] + rest)[j].kind != a.kind {
      assert ([x] + rest)[j] == if j == 0 then x else rest[j - 1];
    }
  }

  lemma {:induction false} FindIsFirst(s: seq<Byte>, at: int, kind: U16) returns (k: nat)
    requires at == -1 || IsRef(s, at)
    ensures var r := FindFrom(s, at, kind);
            if r == -1 then Lacks(ScanFrom(s, at), kind) else FirstOf(ScanFrom(s, at), k, AttributeAt(s, r))
    decreases if at == -1 then 0 else |s| - at
  {
    k := 0;
    if at != -1 && AttrType(s, at) != kind {
      k := FindIsFirst(s, Next(s, at), kind);
      var r := FindFrom(s, at, kind);
      if r != -1 {
        FirstAfter(AttributeAt(s, at), ScanFrom(s, Next(s, at)), k, AttributeAt(s, r));
        k := k + 1;
      }
    }
  }

  /** The walk of stun_attr_get_first_by_type_str: it finds the first attribute of the type that a scan
      of the message gives, or there is none. */
  method FindByType(s: seq<Byte>, kind: U16) returns (at: int)
    ensures at == FindFrom(s, First(s), kind)
    ensures at == -1 <==> Lacks(Scan(s), kind)
    ensures at != -1 ==> IsRef(s, at) && AttrType(s, at) == kind && exists k :: FirstOf(Scan(s), k, AttributeAt(s, at))
  {
    ghost var k := FindIsFirst(s, First(s), kind);
    at := First(s);
    while at != -1
      invariant at == -1 || IsRef(s, at)
      invariant FindFrom(s, First(s), kind) == FindFrom(s, at, kind)
      decreases if at == -1 then 0 else |s| - at
    {
      if AttrType(s, at) == kind {
        assert FirstOf(Scan(s), k, AttributeAt(s, at));
        return;
      }
      at := Next(s, at);
    }
  }

  // ---------------------------------------------------------------- laying out attributes

  function SizeOf(a: Attribute): nat { 4 + Round4(|a.value|) }

  predicate AttrIs(s: seq<Byte>, at: nat, a: Attribute)
  {
    && at + SizeOf(a) <= |s|
    && U16At(s, at) == a.kind
    && U16At(s, at + 2) == |a.value|
    && s[at + 4..at + 4 + |a.value|] == a.value
  }

  /** From an offset on, exactly these attributes follow, up to the end. */
  predicate Follow(s: seq<Byte>, at: nat, attrs: seq<Attribute>)
    decreases |attrs|
  {
    if attrs == [] then at == |s|
    else AttrIs(s, at, attrs[0]) && Follow(s, at + SizeOf(attrs[0]), attrs[1..])
  }

  /** A message with these attributes. The padding bytes may be anything. */
  predicate Holds(s: seq<Byte>, attrs: seq<Attribute>)
  {
    && HEADER <= |s| < MAX_MESSAGE
    && |s| % 4 == 0
    && U16At(s, 2) == |s| - HEADER
    && Follow(s, HEADER, attrs)
  }

  /** An attribute that lies in a message is seen by the walk. */
  lemma Seen(s: seq<Byte>, at: nat, a: Attribute)
    requires MessageLen(s) == |s| && HEADER <= at && AttrIs(s, at, a)
    ensures IsRef(s, at) && AttributeAt(s, at) == a && After(s, at) == at + SizeOf(a)
  {
  }

  /** Scanning a message gives exactly its attributes, in order. */
  lemma {:induction false} ScanFollows(s: seq<Byte>, at: nat, attrs: seq<Attribute>)
    requires MessageLen(s) == |s| && HEADER <= at && Follow(s, at, attrs)
    ensures ScanFrom(s, if IsRef(s, at) then at else -1) == attrs
    decreases |attrs|
  {
    if attrs != [] {
      assert AttrIs(s, at, attrs[0]);
      assert AttributeAt(s, at) == attrs[0];
      ScanFollows(s, at + SizeOf(attrs[0]), attrs[1..]);
    }
  }

  lemma ScanExact(s: seq<Byte>, attrs: seq<Attribute>)
    requires Holds(s, attrs)
    ensures Scan(s) == attrs
  {
    ScanFollows(s, HEADER, attrs);
  }
}
