/** Messages in a byte stream (section 11.5 of RFC 5766): ChannelData framing, and cutting a stream
    of STUN messages and ChannelData messages into pieces. */
module StunStream {
  import opened Common
  import opened Addresses
  import opened StunWire
  import opened StunBuild

  /** A piece: its length in the stream, and its length without padding. */
  datatype Cut = Cut(len: nat, app: nat)

  predicate Starts(s: seq<Byte>, word: seq<Byte>) { |word| <= |s| && s[..|word|] == word }

  const GET: seq<Byte> := [71, 69, 84, 32]
  const PUT: seq<Byte> := [80, 85, 84, 32]
  const POST: seq<Byte> := [80, 79, 83, 84, 32]
  const DELETE: seq<Byte> := [68, 69, 76, 69, 84, 69, 32]

  /** Bytes that spell a text. */
  ghost predicate Spells(bs: seq<Byte>, text: string)
  {
    |bs| == |text| && forall i :: 0 <= i < |bs| ==> bs[i] == text[i] as int
  }

  lemma Spelled()
    ensures Spells(GET, "GET ") && Spells(PUT, "PUT ") && Spells(POST, "POST ") && Spells(DELETE, "DELETE ")
    ensures Spells(HTTP, " HTTP/") && Spells(BLANK_LINE, "\r\n\r\n") && Spells(CONTENT_LENGTH, "content-length: ")
  {
  }

  predicate Verb(s: seq<Byte>) { Starts(s, GET) || Starts(s, PUT) || Starts(s, POST) || Starts(s, DELETE) }

  const HTTP: seq<Byte> := [32, 72, 84, 84, 80, 47]
  const BLANK_LINE: seq<Byte> := [13, 10, 13, 10]
  const CONTENT_LENGTH: seq<Byte> := [99, 111, 110, 116, 101, 110, 116, 45, 108, 101, 110, 103, 116, 104, 58, 32]

  function Lower(b: Byte): Byte { if 65 <= b <= 90 then b + 32 else b }

  predicate Same(a: Byte, b: Byte, ignoreCase: bool) { a == b || (ignoreCase && Lower(a) == Lower(b)) }

  predicate IsAt(hay: seq<Byte>, needle: seq<Byte>, ignoreCase: bool, i: nat)
  {
    i + |needle| <= |hay| && forall k :: 0 <= k < |needle| ==> Same(needle[k], hay[i + k], ignoreCase)
  }

  /** The first place of some bytes in others, or -1. */
  function PlaceFrom(hay: seq<Byte>, needle: seq<Byte>, ignoreCase: bool, i: nat): (r: int)
    ensures r == -1 || (i <= r && IsAt(hay, needle, ignoreCase, r))
    ensures forall j: nat :: i <= j && (r == -1 || j < r) ==> !IsAt(hay, needle, ignoreCase, j)
    decreases |hay| - i
  {
    if i + |needle| > |hay| then -1
    else if IsAt(hay, needle, ignoreCase, i) then i
    else PlaceFrom(hay, needle, ignoreCase, i + 1)
  }

  method FindStr(hay: seq<Byte>, needle: seq<Byte>, ignoreCase: bool) returns (r: int)
    ensures r == PlaceFrom(hay, needle, ignoreCase, 0)
  {
    var i: nat := 0;
    while i + |needle| <= |hay|
      invariant PlaceFrom(hay, needle, ignoreCase, 0) == PlaceFrom(hay, needle, ignoreCase, i)
      decreases |hay| - i
    {
      var k: nat := 0;
      while k < |needle| && Same(needle[k], hay[i + k], ignoreCase)
        invariant k <= |needle| && forall j :: 0 <= j < k ==> Same(needle[j], hay[i + j], ignoreCase)
      {
        k := k + 1;
      }
      if k == |needle| { return i; }
      i := i + 1;
    }
    return -1;
  }

  /** Where the head of an HTTP request ends: at the first blank line after the first " HTTP/", or -1. */
  function HeadEnd(s: seq<Byte>): (r: int)
    ensures r == -1 || 14 <= r + 4 <= |s|
  {
    if |s| < 12 || !Verb(s) then -1
    else
      var h := PlaceFrom(s, HTTP, false, 4);
      if h == -1 || h + 10 > |s| then -1 else PlaceFrom(s, BLANK_LINE, false, h + 6)
  }

  function HeaderAt(s: seq<Byte>, end: nat): (r: int)
    requires end <= |s|
    ensures r == -1 || r + |CONTENT_LENGTH| <= end
  {
    PlaceFrom(s[..end], CONTENT_LENGTH, true, 0)
  }

  /** The length of the body, if the number says one. */
  function BodyLen(n: nat): nat { if n < 0x0FFF_FFFF then n else 0 }

  /** The length of an HTTP request, 0 if it is none. The number after the header is read by a library
      call, which is left open. */
  function HttpLen(s: seq<Byte>, number: seq<Byte> -> nat): nat
  {
    var end := HeadEnd(s);
    if end == -1 then 0
    else
      var at := HeaderAt(s, end);
      end + 4 + if at == -1 then 0 else BodyLen(number(s[at + |CONTENT_LENGTH|..]))
  }

  /** The HTTP test takes the head of a stream for its own. */
  predicate HttpCut(s: seq<Byte>, number: seq<Byte> -> nat) { 0 < HttpLen(s, number) <= |s| }

  predicate LooksLikeCommand(s: seq<Byte>)
  {
    && |s| >= HEADER
    && !ValidChannel(U16At(s, 0))
    && s[0] < 64
    && s[4..8] == COOKIE
    && U16At(s, 2) % 4 == 0
  }

  /** The sums are 16 bits wide. */
  function Wrap16(n: nat): U16 { n % 0x10000 }

  function ChannelLen(s: seq<Byte>, padding: bool): U16
    requires |s| >= 4
  {
    var n := Wrap16(4 + U16At(s, 2));
    if padding && n % 4 != 0 then Wrap16((n / 4 + 1) * 4) else n
  }

  /** The first message of a stream. */
  function FirstCut(s: seq<Byte>, padding: bool, number: seq<Byte> -> nat): (c: Option<Cut>)
    ensures c.Some? ==> c.value.len <= |s|
  {
    if LooksLikeCommand(s) && Wrap16(U16At(s, 2) + HEADER) <= |s| then
      var n := Wrap16(U16At(s, 2) + HEADER);
      Some(Cut(n, n))
    else if HttpCut(s, number) then
      Some(Cut(HttpLen(s, number), HttpLen(s, number)))
    else if |s| >= 4 && ValidChannel(U16At(s, 0)) && ChannelLen(s, padding) <= |s| then
      Some(Cut(ChannelLen(s, padding), Wrap16(4 + U16At(s, 2))))
    else None
  }

  // ---------------------------------------------------------------- more bytes arrive

  lemma SameStart(s: seq<Byte>, more: seq<Byte>)
    requires |s| >= 4
    ensures U16At(s + more, 0) == U16At(s, 0) && U16At(s + more, 2) == U16At(s, 2) && (s + more)[0] == s[0]
  {
  }

  predicate CommandCut(s: seq<Byte>) { LooksLikeCommand(s) && Wrap16(U16At(s, 2) + HEADER) <= |s| }

  lemma VerbIsNoCommand(s: seq<Byte>)
    requires Verb(s)
    ensures s[0] >= 64
  {
    assert Starts(s, GET) ==> s[0] == s[..4][0];
    assert Starts(s, PUT) ==> s[0] == s[..4][0];
    assert Starts(s, POST) ==> s[0] == s[..5][0];
    assert Starts(s, DELETE) ==> s[0] == s[..7][0];
  }

  /** What the last test cuts off when there are bytes enough. */
  predicate ChannelCut(s: seq<Byte>, padding: bool, c: Cut)
  {
    |s| >= 4 && ValidChannel(U16At(s, 0)) && c == Cut(ChannelLen(s, padding), Wrap16(4 + U16At(s, 2)))
  }

  /** When more bytes arrive, the cut stays exactly if it is a STUN message, or the HTTP test now takes the same
      piece, or the HTTP test now takes none and the piece is that of the channel test. */
  lemma CutStable(s: seq<Byte>, more: seq<Byte>, padding: bool, number: seq<Byte> -> nat)
    requires FirstCut(s, padding, number).Some?
    ensures var c, t := FirstCut(s, padding, number).value, s + more;
            FirstCut(t, padding, number) == Some(c) <==>
              || CommandCut(s)
              || (if HttpCut(t, number) then c == Cut(HttpLen(t, number), HttpLen(t, number)) else ChannelCut(s, padding, c))
  {
    SameStart(s, more);
    if CommandCut(s) { assert (s + more)[4..8] == s[4..8]; }
    if HttpCut(s, number) { VerbIsNoCommand(s); }
  }

  lemma IsAtLater(s: seq<Byte>, more: seq<Byte>, needle: seq<Byte>, ignoreCase: bool, i: nat)
    requires i + |needle| <= |s|
    ensures IsAt(s + more, needle, ignoreCase, i) <==> IsAt(s, needle, ignoreCase, i)
  {
    forall k | 0 <= k < |needle|
      ensures Same(needle[k], (s + more)[i + k], ignoreCase) <==> Same(needle[k], s[i + k], ignoreCase)
    {
      assert (s + more)[i + k] == s[i + k];
    }
  }

  lemma {:induction false} FindLater(s: seq<Byte>, more: seq<Byte>, needle: seq<Byte>, ignoreCase: bool, i: nat)
    requires PlaceFrom(s, needle, ignoreCase, i) != -1
    ensures PlaceFrom(s + more, needle, ignoreCase, i) == PlaceFrom(s, needle, ignoreCase, i)
    decreases |s| - i
  {
    IsAtLater(s, more, needle, ignoreCase, i);
    if !IsAt(s, needle, ignoreCase, i) { FindLater(s, more, needle, ignoreCase, i + 1); }
  }

  lemma VerbLater(s: seq<Byte>, more: seq<Byte>)
    requires Verb(s)
    ensures Verb(s + more)
  {
    var t := s + more;
    assert Starts(s, GET) ==> t[..4] == s[..4];
    assert Starts(s, PUT) ==> t[..4] == s[..4];
    assert Starts(s, POST) ==> t[..5] == s[..5];
    assert Starts(s, DELETE) ==> t[..7] == s[..7];
  }

  lemma HeadEndLater(s: seq<Byte>, more: seq<Byte>)
    requires HeadEnd(s) != -1
    ensures HeadEnd(s + more) == HeadEnd(s) && HeaderAt(s + more, HeadEnd(s)) == HeaderAt(s, HeadEnd(s))
  {
    VerbLater(s, more);
    FindLater(s, more, HTTP, false, 4);
    FindLater(s, more, BLANK_LINE, false, PlaceFrom(s, HTTP, false, 4) + 6);
    assert (s + more)[..HeadEnd(s)] == s[..HeadEnd(s)];
  }

  /** Once the head of an HTTP request is complete, more bytes change its length only through the number
      after the content-length header. */
  lemma HttpStable(s: seq<Byte>, more: seq<Byte>, number: seq<Byte> -> nat)
    requires HeadEnd(s) != -1
    ensures var t, at := s + more, HeaderAt(s, HeadEnd(s));
            HttpLen(t, number) == HttpLen(s, number) <==>
              (at == -1 || BodyLen(number(t[at + |CONTENT_LENGTH|..])) == BodyLen(number(s[at + |CONTENT_LENGTH|..])))
  {
    HeadEndLater(s, more);
  }

  // ---------------------------------------------------------------- channel messages

  /** Writes the header of a channel message and gives its length; the data is put behind it. */
  method InitChannel(buf: array<Byte>, number: U16, length: int, padding: bool) returns (ok: bool, len: nat)
    requires buf.Length >= MAX_MESSAGE
    modifies buf
    ensures ok <==> 0 <= length && 4 + length <= MAX_MESSAGE
    ensures !ok ==> buf[..] == old(buf[..])
    ensures ok ==> len == 4 + if padding then Round4(length) else length
    ensures ok ==> U16At(buf[..], 0) == number && U16At(buf[..], 2) == length && SameOutside(old(buf[..]), buf[..], 0, 4)
  {
    if length < 0 || MAX_MESSAGE < 4 + length { return false, 0; }
    Put16(buf, 0, number);
    Put16(buf, 2, length);
    ok, len := true, 4 + if padding then Round4(length) else length;
  }

  /** Recognises a channel message: its number and its length without padding. */
  function ChannelMessage(s: seq<Byte>, mandatory: bool): Option<(U16, nat)>
  {
    if |s| < 4 || !ValidChannel(U16At(s, 0)) then None
    else
      var actual := (if |s| > 0xFFFF then 0xFFFF else |s|) - 4;
      var header := U16At(s, 2);
      if header > actual then None
      else if header != actual && actual % 4 != 0 && (mandatory || header == 0 || actual - header > 3) then None
      else Some((U16At(s, 0), header + 4))
  }

  // ---------------------------------------------------------------- frames

  datatype Frame = Command(bytes: seq<Byte>) | Channel(number: U16, data: seq<Byte>, pad: seq<Byte>)

  function Bytes(f: Frame): seq<Byte>
    requires Fits(f)
  {
    match f
    case Command(bs) => bs
    case Channel(number, data, pad) => Bytes16(number) + Bytes16(|data|) + data + pad
  }

  /** What the library builds: messages below the largest size, and channel messages with padding. */
  predicate Fits(f: Frame)
  {
    match f
    case Command(bs) => IsCommand(bs) && |bs| < MAX_MESSAGE
    case Channel(number, data, pad) =>
      ValidChannel(number) && 4 + |data| <= MAX_MESSAGE && |data| + |pad| == Round4(|data|)
  }

  function AppLen(f: Frame): nat
  {
    match f case Command(bs) => |bs| case Channel(_, data, _) => 4 + |data|
  }

  lemma ChannelBytes(f: Frame)
    requires f.Channel? && Fits(f)
    ensures var s := Bytes(f);
            && |s| == 4 + Round4(|f.data|)
            && U16At(s, 0) == f.number
            && U16At(s, 2) == |f.data|
  {
    var s := Bytes(f);
    assert s[..2] == Bytes16(f.number) && s[2..4] == Bytes16(|f.data|);
    assert s[0] == s[..2][0] && s[1] == s[..2][1] && s[2] == s[2..4][0] && s[3] == s[2..4][1];
  }

  lemma PaddedLen(n: nat)
    requires 4 + n <= MAX_MESSAGE
    ensures var m := 4 + n;
            (if m % 4 != 0 then Wrap16((m / 4 + 1) * 4) else m) == 4 + Round4(n)
  {
  }

  /** A channel message is recognised, with its number and its length without padding. */
  lemma ChannelRecognised(f: Frame, mandatory: bool)
    requires f.Channel? && Fits(f)
    ensures ChannelMessage(Bytes(f), mandatory) == Some((f.number, AppLen(f)))
  {
    ChannelBytes(f);
  }

  /** A channel message is recognised exactly when it begins with a channel number, holds the bytes its header
      declares, and what it holds beyond them is padding: up to a multiple of four bytes in all, or where that
      is not asked for up to three bytes. Its length without padding is what the header says. Of a longer
      buffer 65535 bytes are looked at. */
  lemma ChannelMessageMeans(s: seq<Byte>, mandatory: bool)
    ensures var n := if |s| > 0xFFFF then 0xFFFF else |s|;
            ChannelMessage(s, mandatory).Some? <==>
              && n >= 4 && 0x4000 <= U16At(s, 0) <= 0x7FFF && 4 + U16At(s, 2) <= n
              && (|| 4 + U16At(s, 2) == n
                  || n % 4 == 0
                  || (!mandatory && U16At(s, 2) > 0 && n <= 4 + U16At(s, 2) + 3))
    ensures ChannelMessage(s, mandatory).Some? ==> ChannelMessage(s, mandatory).value == (U16At(s, 0), 4 + U16At(s, 2))
  {
  }

  /** A truncated channel message is not recognised. */
  lemma TruncatedChannel(f: Frame, n: nat, mandatory: bool)
    requires f.Channel? && Fits(f) && n < 4 + |f.data|
    ensures ChannelMessage(Bytes(f)[..n], mandatory) == None
  {
    ChannelBytes(f);
    var s, t := Bytes(f), Bytes(f)[..n];
    if n >= 4 { assert U16At(t, 0) == U16At(s, 0) && U16At(t, 2) == U16At(s, 2); }
  }

  /** The 16-bit sum makes the cut wrong for exactly the messages of 65536 bytes or more. */
  lemma CommandCutExact(s: seq<Byte>, more: seq<Byte>, padding: bool, number: seq<Byte> -> nat)
    requires IsCommand(s)
    ensures FirstCut(s + more, padding, number) == Some(Cut(|s|, |s|)) <==> |s| < 0x10000
  {
    SameStart(s, more);
    assert (s + more)[4..8] == s[4..8];
  }

  /** The HTTP test does not spoil the cut of a frame: it is not asked, or it refuses, or it happens to
      cut the same piece. */
  predicate CutRight(f: Frame, more: seq<Byte>, number: seq<Byte> -> nat)
    requires Fits(f)
  {
    var s := Bytes(f) + more;
    f.Command? || !HttpCut(s, number) || HttpLen(s, number) == |Bytes(f)| == AppLen(f)
  }

  lemma CutChannel(s: seq<Byte>, n: nat, more: seq<Byte>, number: seq<Byte> -> nat)
    requires 4 + n <= MAX_MESSAGE && |s| == 4 + Round4(n) && ValidChannel(U16At(s, 0)) && U16At(s, 2) == n
    ensures FirstCut(s + more, true, number) == Some(Cut(|s|, 4 + n)) <==>
              (!HttpCut(s + more, number) || HttpLen(s + more, number) == |s| == 4 + n)
  {
    SameStart(s, more);
    PaddedLen(n);
    assert ChannelLen(s + more, true) == |s|;
    assert !LooksLikeCommand(s + more);
  }

  /** A frame at the head of a stream is cut off, whatever follows, exactly when the HTTP test does not
      take a channel message for a request. */
  lemma CutFrame(f: Frame, more: seq<Byte>, number: seq<Byte> -> nat)
    requires Fits(f)
    ensures |Bytes(f)| > 0
    ensures FirstCut(Bytes(f) + more, true, number) == Some(Cut(|Bytes(f)|, AppLen(f))) <==> CutRight(f, more, number)
  {
    match f
    case Command(bs) => CommandCutExact(bs, more, true, number);
    case Channel(_, data, _) =>
      ChannelBytes(f);
      CutChannel(Bytes(f), |data|, more, number);
  }

  const REQUEST: seq<Byte> := [71, 69, 84, 32, 47, 32, 72, 84, 84, 80, 47, 49, 46, 49, 13, 10, 13, 10]

  lemma NotAt(hay: seq<Byte>, needle: seq<Byte>, i: nat)
    requires needle != [] && i < |hay| && hay[i] != needle[0]
    ensures !IsAt(hay, needle, false, i)
  {
    if i + |needle| <= |hay| { assert !Same(needle[0], hay[i + 0], false); }
  }

  lemma RequestPlaces(s: seq<Byte>)
    requires Starts(s, REQUEST)
    ensures PlaceFrom(s, HTTP, false, 4) == 5
    ensures PlaceFrom(s, BLANK_LINE, false, 11) == 14
  {
    assert forall k :: 0 <= k < 18 ==> s[k] == s[..18][k];
    NotAt(s, HTTP, 4);
    assert IsAt(s, HTTP, false, 5);
    NotAt(s, BLANK_LINE, 11);
    NotAt(s, BLANK_LINE, 12);
    NotAt(s, BLANK_LINE, 13);
    assert IsAt(s, BLANK_LINE, false, 14);
  }

  lemma RequestHead(s: seq<Byte>, number: seq<Byte> -> nat)
    requires Starts(s, REQUEST)
    ensures HttpLen(s, number) == 18
  {
    assert s[..4] == s[..18][..4] == GET;
    RequestPlaces(s);
  }

  lemma PartOfCommand(s: seq<Byte>, n: nat, number: seq<Byte> -> nat)
    requires IsCommand(s) && |s| < 0x10000 && n < |s|
    ensures !HttpCut(s[..n], number) && FirstCut(s[..n], true, number) == None
  {
    var t := s[..n];
    if n >= 4 { assert U16At(t, 0) == U16At(s, 0) && U16At(t, 2) == U16At(s, 2) && t[0] == s[0]; }
    if HttpCut(t, number) { VerbIsNoCommand(t); }
  }

  lemma PartOfChannel(s: seq<Byte>, k: nat, n: nat, number: seq<Byte> -> nat)
    requires 4 + k <= MAX_MESSAGE && |s| == 4 + Round4(k) && ValidChannel(U16At(s, 0)) && U16At(s, 2) == k && n < |s|
    ensures FirstCut(s[..n], true, number) == None <==> !HttpCut(s[..n], number)
  {
    var t := s[..n];
    PaddedLen(k);
    if n >= 4 {
      assert U16At(t, 0) == U16At(s, 0) && U16At(t, 2) == U16At(s, 2);
      assert ChannelLen(t, true) == |s|;
    }
  }

  /** A frame that has not arrived whole is not cut off, unless the HTTP test takes the part for a request. */
  lemma PartIsNotCut(f: Frame, n: nat, number: seq<Byte> -> nat)
    requires Fits(f) && n < |Bytes(f)|
    ensures FirstCut(Bytes(f)[..n], true, number) == None <==> !HttpCut(Bytes(f)[..n], number)
    ensures f.Command? ==> FirstCut(Bytes(f)[..n], true, number) == None
  {
    match f
    case Command(bs) => PartOfCommand(bs, n, number);
    case Channel(_, data, _) =>
      ChannelBytes(f);
      PartOfChannel(Bytes(f), |data|, n, number);
  }

  /** Where no padding is used, a channel message without it is cut off by the same rule. */
  lemma UnpaddedIsCut(s: seq<Byte>, more: seq<Byte>, number: seq<Byte> -> nat)
    requires 4 <= |s| <= MAX_MESSAGE && ValidChannel(U16At(s, 0)) && U16At(s, 2) == |s| - 4
    ensures FirstCut(s + more, false, number) == Some(Cut(|s|, |s|)) <==>
              (!HttpCut(s + more, number) || HttpLen(s + more, number) == |s|)
  {
    SameStart(s, more);
  }

  /** A ChannelData message on channel 0x4745 with 21536 bytes of data begins like a GET request. When the
      data goes on with the rest of one, 18 of its 21540 bytes are cut off. */
  lemma ChannelCutAsHttp(fill: seq<Byte>, more: seq<Byte>, number: seq<Byte> -> nat)
    requires |fill| == 21522
    ensures var f := Channel(0x4745, REQUEST[4..] + fill, []);
            Fits(f) && |Bytes(f)| == 21540 && FirstCut(Bytes(f) + more, true, number) == Some(Cut(18, 18))
  {
    var f := Channel(0x4745, REQUEST[4..] + fill, []);
    ChannelBytes(f);
    SameStart(Bytes(f), more);
    assert (Bytes(f) + more)[..18] == REQUEST;
    RequestHead(Bytes(f) + more, number);
  }

  /** A stream has the head of a request, which ends at e: it begins with a verb, " HTTP/" first comes at h
      behind it, and the first blank line behind that is at e. */
  ghost predicate HeadAt(s: seq<Byte>, h: nat, e: nat)
  {
    && |s| >= 12 && (Starts(s, GET) || Starts(s, POST) || Starts(s, PUT) || Starts(s, DELETE))
    && 4 <= h && IsAt(s, HTTP, false, h) && (forall j: nat :: 4 <= j < h ==> !IsAt(s, HTTP, false, j))
    && h + 6 <= e && IsAt(s, BLANK_LINE, false, e) && (forall j: nat :: h + 6 <= j < e ==> !IsAt(s, BLANK_LINE, false, j))
  }

  lemma FirstPlace(hay: seq<Byte>, needle: seq<Byte>, ignoreCase: bool, i: nat, at: nat)
    requires i <= at && IsAt(hay, needle, ignoreCase, at)
    requires forall j: nat :: i <= j < at ==> !IsAt(hay, needle, ignoreCase, j)
    ensures PlaceFrom(hay, needle, ignoreCase, i) == at
  {
  }

  /** The test finds the end of the head, or there is none. */
  lemma HeadEndMeans(s: seq<Byte>)
    ensures forall h: nat, e: nat :: HeadAt(s, h, e) ==> HeadEnd(s) == e
    ensures HeadEnd(s) != -1 ==> exists h: nat :: HeadAt(s, h, HeadEnd(s))
  {
    forall h: nat, e: nat | HeadAt(s, h, e) ensures HeadEnd(s) == e {
      FirstPlace(s, HTTP, false, 4, h);
      FirstPlace(s, BLANK_LINE, false, h + 6, e);
    }
    if HeadEnd(s) != -1 { assert HeadAt(s, PlaceFrom(s, HTTP, false, 4), HeadEnd(s)); }
  }

  /** The content-length header in a head that ends at e first comes at n. */
  ghost predicate LengthAt(s: seq<Byte>, e: nat, n: nat)
  {
    && n + 16 <= e <= |s| && IsAt(s[..e], CONTENT_LENGTH, true, n)
    && forall j: nat :: j < n ==> !IsAt(s[..e], CONTENT_LENGTH, true, j)
  }

  lemma HeadEndIs(s: seq<Byte>, h: nat, e: nat)
    requires HeadAt(s, h, e)
    ensures HeadEnd(s) == e && e + 4 <= |s|
  {
    HeadEndMeans(s);
  }

  lemma LengthIs(s: seq<Byte>, e: nat, n: nat)
    requires LengthAt(s, e, n)
    ensures HeaderAt(s, e) == n
  {
    FirstPlace(s[..e], CONTENT_LENGTH, true, 0, n);
  }

  lemma NoLength(s: seq<Byte>, e: nat)
    requires e <= |s| && forall n: nat :: !LengthAt(s, e, n)
    ensures HeaderAt(s, e) == -1
  {
    var at := HeaderAt(s, e);
    if at != -1 { assert LengthAt(s, e, at); }
  }

  /** The length of a request is that of its head and its body: what the content-length header says, if that
      is less than 0x0FFFFFFF, and nothing otherwise. */
  lemma RequestLength(s: seq<Byte>, h: nat, e: nat, n: nat, number: seq<Byte> -> nat)
    requires HeadAt(s, h, e) && LengthAt(s, e, n)
    ensures var k := number(s[n + 16..]); HttpLen(s, number) == if k < 0x0FFFFFFF then e + 4 + k else e + 4
  {
    HeadEndIs(s, h, e);
    LengthIs(s, e, n);
  }

  lemma PlainRequestLength(s: seq<Byte>, h: nat, e: nat, number: seq<Byte> -> nat)
    requires HeadAt(s, h, e) && forall n: nat :: !LengthAt(s, e, n)
    ensures HttpLen(s, number) == e + 4 <= |s|
  {
    HeadEndIs(s, h, e);
    NoLength(s, e);
  }

  lemma HttpIsCut(s: seq<Byte>, len: nat, padding: bool, number: seq<Byte> -> nat)
    requires HttpLen(s, number) == len && 0 < len <= |s|
    ensures FirstCut(s, padding, number) == Some(Cut(len, len))
  {
    HttpWins(s, padding, number);
  }

  /** A request is cut off with its body, as soon as all of it is there. */
  lemma RequestIsCut(s: seq<Byte>, h: nat, e: nat, n: nat, body: nat, padding: bool, number: seq<Byte> -> nat)
    requires HeadAt(s, h, e) && LengthAt(s, e, n) && number(s[n + 16..]) == body < 0x0FFFFFFF
    ensures e + 4 + body <= |s| ==> FirstCut(s, padding, number) == Some(Cut(e + 4 + body, e + 4 + body))
  {
    RequestLength(s, h, e, n, number);
    if e + 4 + body <= |s| { HttpIsCut(s, e + 4 + body, padding, number); }
  }

  const FIRST_LINE: seq<Byte> := [80, 79, 83, 84, 32, 47, 32, 72, 84, 84, 80, 47, 49, 46, 49]
  const FIVE: seq<Byte> := [67, 111, 110, 116, 101, 110, 116, 45, 76, 101, 110, 103, 116, 104, 58, 32, 53]
  const HELLO: seq<Byte> := [104, 101, 108, 108, 111]

  lemma Mismatch(hay: seq<Byte>, needle: seq<Byte>, ignoreCase: bool, i: nat, k: nat)
    requires k < |needle| && i + k < |hay| && !Same(needle[k], hay[i + k], ignoreCase)
    ensures !IsAt(hay, needle, ignoreCase, i)
  {
  }

  /** The sample: a first line without content-length, a header in mixed case, and a blank line. */
  predicate IsSample(s: seq<Byte>)
  {
    |s| >= 38 && s[..15] == FIRST_LINE && s[15..17] == [13, 10] && s[17..34] == FIVE && s[34..38] == BLANK_LINE
  }

  lemma SampleAt(s: seq<Byte>, k: nat)
    requires IsSample(s) && k < 38
    ensures s[k] == if k < 15 then FIRST_LINE[k] else if k < 17 then [13, 10][k - 15]
                    else if k < 34 then FIVE[k - 17] else BLANK_LINE[k - 34]
  {
    if k < 15 { assert s[k] == s[..15][k]; }
    else if k < 17 { assert s[k] == s[15..17][k - 15]; }
    else if k < 34 { assert s[k] == s[17..34][k - 17]; }
    else { assert s[k] == s[34..38][k - 34]; }
  }

  lemma SampleHttp(s: seq<Byte>)
    requires IsSample(s)
    ensures Starts(s, POST) && IsAt(s, HTTP, false, 6) && !IsAt(s, HTTP, false, 4) && !IsAt(s, HTTP, false, 5)
  {
    assert s[..5] == FIRST_LINE[..5] == POST;
    forall k | 0 <= k < 6 ensures Same(HTTP[k], s[6 + k], false) { SampleAt(s, 6 + k); }
    SampleAt(s, 5);
    Mismatch(s, HTTP, false, 4, 1);
    Mismatch(s, HTTP, false, 5, 0);
  }

  lemma SampleBlank(s: seq<Byte>, j: nat)
    requires IsSample(s) && 12 <= j <= 34
    ensures IsAt(s, BLANK_LINE, false, j) <==> j == 34
  {
    if j == 34 {
      forall k | 0 <= k < 4 ensures Same(BLANK_LINE[k], s[34 + k], false) { SampleAt(s, 34 + k); }
    } else if j == 15 {
      SampleAt(s, 17);
      Mismatch(s, BLANK_LINE, false, 15, 2);
    } else {
      SampleAt(s, j);
      Mismatch(s, BLANK_LINE, false, j, 0);
    }
  }

  lemma SampleHead(s: seq<Byte>)
    requires IsSample(s)
    ensures HeadAt(s, 6, 34)
  {
    SampleHttp(s);
    forall j: nat | 12 <= j <= 34 ensures IsAt(s, BLANK_LINE, false, j) <==> j == 34 { SampleBlank(s, j); }
  }

  lemma SampleLength(s: seq<Byte>)
    requires IsSample(s)
    ensures LengthAt(s, 34, 17)
  {
    var t := s[..34];
    forall k | 0 <= k < 16 ensures Same(CONTENT_LENGTH[k], t[17 + k], true) {
      SampleAt(s, 17 + k);
      SameLetter(k);
    }
    forall j: nat | j < 17 ensures !IsAt(t, CONTENT_LENGTH, true, j) {
      SampleAt(s, j);
      Mismatch(t, CONTENT_LENGTH, true, j, 0);
    }
  }

  lemma SameLetter(k: nat)
    requires k < 16
    ensures Same(CONTENT_LENGTH[k], FIVE[k], true)
  {
  }

  lemma SampleSpelled()
    ensures Spells(FIRST_LINE, "POST / HTTP/1.1") && Spells(FIVE, "Content-Length: 5") && Spells(HELLO, "hello")
  {
  }

  lemma SampleParts(s: seq<Byte>, more: seq<Byte>)
    requires s == FIRST_LINE + [13, 10] + FIVE + BLANK_LINE + HELLO + more
    ensures IsSample(s) && |s| >= 43
  {
    assert s[15..17] == [13, 10];
    assert s[17..34] == FIVE;
    assert s[34..38] == BLANK_LINE;
  }

  /** A POST with the five bytes "hello" is cut off whole, 43 bytes, whatever follows. */
  lemma PostIsCut(s: seq<Byte>, more: seq<Byte>, padding: bool, number: seq<Byte> -> nat)
    requires s == FIRST_LINE + [13, 10] + FIVE + BLANK_LINE + HELLO + more && number(s[33..]) == 5
    ensures FirstCut(s, padding, number) == Some(Cut(43, 43))
  {
    SampleParts(s, more);
    SampleCut(s, padding, number);
  }

  lemma SampleCut(s: seq<Byte>, padding: bool, number: seq<Byte> -> nat)
    requires IsSample(s) && |s| >= 43 && number(s[33..]) == 5
    ensures FirstCut(s, padding, number) == Some(Cut(43, 43))
  {
    SampleHead(s);
    SampleLength(s);
    RequestIsCut(s, 6, 34, 17, 5, padding, number);
  }

  lemma PlaceIs(hay: seq<Byte>, needle: seq<Byte>, i: nat, at: nat)
    requires needle != [] && i <= at && IsAt(hay, needle, false, at)
    requires forall j :: i <= j < at ==> hay[j] != needle[0]
    ensures PlaceFrom(hay, needle, false, i) == at
  {
    forall j: nat | i <= j < at ensures !IsAt(hay, needle, false, j) { NotAt(hay, needle, j); }
  }

  lemma NoPlace(hay: seq<Byte>, needle: seq<Byte>, ignoreCase: bool, i: nat)
    requires needle != [] && forall j :: i <= j < |hay| ==> !Same(needle[0], hay[j], ignoreCase)
    ensures PlaceFrom(hay, needle, ignoreCase, i) == -1
  {
    forall j: nat | i <= j ensures !IsAt(hay, needle, ignoreCase, j) {
      if j + |needle| <= |hay| { assert !Same(needle[0], hay[j + 0], ignoreCase); }
    }
  }

  /** A channel message that holds the first line of a request and no blank line. */
  predicate HalfRequest(s: seq<Byte>)
  {
    Starts(s, REQUEST[..11]) && forall j :: 11 <= j < |s| ==> s[j] !in {13, 67, 99}
  }

  lemma FirstLine(s: seq<Byte>)
    requires Starts(s, REQUEST[..11])
    ensures Verb(s) && PlaceFrom(s, HTTP, false, 4) == 5
    ensures forall k :: 0 <= k < 11 ==> s[k] == REQUEST[k]
  {
    assert forall k :: 0 <= k < 11 ==> s[k] == s[..11][k] == REQUEST[k];
    assert s[..4] == GET;
    NotAt(s, HTTP, 4);
    assert IsAt(s, HTTP, false, 5);
  }

  lemma HalfHasNoEnd(s: seq<Byte>)
    requires HalfRequest(s)
    ensures HeadEnd(s) == -1
  {
    FirstLine(s);
    NoPlace(s, BLANK_LINE, false, 11);
  }

  lemma HalfNoHeader(s: seq<Byte>)
    requires HalfRequest(s)
    ensures PlaceFrom(s, CONTENT_LENGTH, true, 0) == -1
  {
    FirstLine(s);
    NoPlace(s, CONTENT_LENGTH, true, 0);
  }

  lemma BlankLineEnds(s: seq<Byte>, t: seq<Byte>)
    requires HalfRequest(s) && t == s + BLANK_LINE
    ensures HeadEnd(t) == |s|
  {
    assert t[..11] == s[..11];
    FirstLine(t);
    assert IsAt(t, BLANK_LINE, false, |s|);
    PlaceIs(t, BLANK_LINE, 11, |s|);
  }

  lemma HttpWins(s: seq<Byte>, padding: bool, number: seq<Byte> -> nat)
    requires HttpCut(s, number)
    ensures FirstCut(s, padding, number) == Some(Cut(HttpLen(s, number), HttpLen(s, number)))
  {
    VerbIsNoCommand(s);
  }

  /** It is cut off whole, until a blank line arrives behind it: then the cut takes in the blank line. */
  lemma ChannelCutChanges(f: Frame, fill: seq<Byte>, number: seq<Byte> -> nat)
    requires |fill| == 21529 && forall j :: 0 <= j < |fill| ==> fill[j] !in {13, 67, 99}
    requires f == Channel(0x4745, REQUEST[4..11] + fill, [])
    ensures Fits(f)
    ensures FirstCut(Bytes(f), true, number) == Some(Cut(21540, 21540))
    ensures FirstCut(Bytes(f) + BLANK_LINE, true, number) == Some(Cut(21544, 21544))
  {
    var s := Bytes(f);
    ChannelBytes(f);
    assert s[..11] == REQUEST[..11] && s[11..] == fill;
    HalfHasNoEnd(s);
    CutFrame(f, [], number);
    assert s + [] == s;
    var t := s + BLANK_LINE;
    BlankLineEnds(s, t);
    HalfNoHeader(s);
    assert t[..|s|] == s;
    HttpWins(t, true, number);
  }

  /** A message of 65552 bytes is cut after 16. */
  lemma LongCommandCut(tid: seq<Byte>, body: seq<Byte>, more: seq<Byte>, padding: bool, number: seq<Byte> -> nat)
    requires |tid| == 12 && |body| == 0xFFFC
    ensures var s := [0, 1, 0xFF, 0xFC] + COOKIE + tid + body;
            IsCommand(s) && |s| == 65552 && FirstCut(s + more, padding, number) == Some(Cut(16, 16))
  {
    var s := [0, 1, 0xFF, 0xFC] + COOKIE + tid + body;
    assert s[..4] == [0, 1, 0xFF, 0xFC] && s[4..8] == COOKIE;
    assert s[0] == s[..4][0] && s[1] == s[..4][1] && s[2] == s[..4][2] && s[3] == s[..4][3];
    SameStart(s, more);
    assert (s + more)[4..8] == s[4..8];
  }

  function Stream(frames: seq<Frame>): seq<Byte>
    requires forall i :: 0 <= i < |frames| ==> Fits(frames[i])
  {
    if frames == [] then [] else Bytes(frames[0]) + Stream(frames[1..])
  }

  /** Cutting a stream until nothing more can be cut off. */
  function CutAll(s: seq<Byte>, number: seq<Byte> -> nat): seq<(seq<Byte>, nat)>
    decreases |s|
  {
    match FirstCut(s, true, number)
    case Some(c) => if c.len == 0 then [] else [(s[..c.len], c.app)] + CutAll(s[c.len..], number)
    case None => []
  }

  function Pieces(frames: seq<Frame>): seq<(seq<Byte>, nat)>
    requires forall i :: 0 <= i < |frames| ==> Fits(frames[i])
  {
    seq(|frames|, i requires 0 <= i < |frames| => (Bytes(frames[i]), AppLen(frames[i])))
  }

  /** Every frame of a stream is cut right where it stands. */
  predicate AllRight(frames: seq<Frame>, number: seq<Byte> -> nat)
    requires forall i :: 0 <= i < |frames| ==> Fits(frames[i])
  {
    frames == [] || (CutRight(frames[0], Stream(frames[1..]), number) && AllRight(frames[1..], number))
  }

  /** A stream of library-built messages is cut into exactly those messages if and only if the HTTP test
      spoils none of them. */
  lemma {:induction false} CutStream(frames: seq<Frame>, number: seq<Byte> -> nat)
    requires forall i :: 0 <= i < |frames| ==> Fits(frames[i])
    ensures CutAll(Stream(frames), number) == Pieces(frames) <==> AllRight(frames, number)
  {
    if frames == [] {
      assert FirstCut([], true, number) == None;
    } else {
      var f, more := frames[0], Stream(frames[1..]);
      assert Pieces(frames) == [(Bytes(f), AppLen(f))] + Pieces(frames[1..]);
      CutOne(f, more, Pieces(frames[1..]), number);
      CutStream(frames[1..], number);
    }
  }

  /** The cuts of a stream are a first frame and some pieces exactly when the frame is cut right and the
      rest is cut into the pieces. */
  lemma CutOne(f: Frame, more: seq<Byte>, pieces: seq<(seq<Byte>, nat)>, number: seq<Byte> -> nat)
    requires Fits(f)
    ensures CutAll(Bytes(f) + more, number) == [(Bytes(f), AppLen(f))] + pieces <==>
              CutRight(f, more, number) && CutAll(more, number) == pieces
  {
    CutFrame(f, more, number);
    if CutRight(f, more, number) {
      CutHead(Bytes(f), more, AppLen(f), number);
      SameTails((Bytes(f), AppLen(f)), CutAll(more, number), pieces);
    } else {
      WrongHead(Bytes(f) + more, Bytes(f), AppLen(f), number);
    }
  }

  lemma SameTails<T>(x: T, a: seq<T>, b: seq<T>)
    ensures [x] + a == [x] + b <==> a == b
  {
    assert ([x] + a)[1..] == a && ([x] + b)[1..] == b;
  }

  lemma WrongHead(s: seq<Byte>, bs: seq<Byte>, app: nat, number: seq<Byte> -> nat)
    requires FirstCut(s, true, number) != Some(Cut(|bs|, app))
    ensures var cut := CutAll(s, number); cut == [] || cut[0] != (bs, app)
  {
  }

  lemma CutHead(bs: seq<Byte>, more: seq<Byte>, app: nat, number: seq<Byte> -> nat)
    requires |bs| > 0 && FirstCut(bs + more, true, number) == Some(Cut(|bs|, app))
    ensures CutAll(bs + more, number) == [(bs, app)] + CutAll(more, number)
  {
    assert (bs + more)[..|bs|] == bs && (bs + more)[|bs|..] == more;
  }
}
