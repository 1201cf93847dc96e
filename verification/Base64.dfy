/** Base64 (section 4 of RFC 4648), which carries mobility tickets and keys as text. */
module Base64 {
  import opened Common
  import opened Addresses

  const PAD: Byte := 61

  // ---------------------------------------------------------------- the alphabet

  type Sextet = x: nat | x < 64

  function Symbol(v: Sextet): (c: Byte)
    ensures c < 128 && c != PAD
  {
    if v < 26 then 65 + v else if v < 52 then 71 + v else if v < 62 then v - 4 else if v == 62 then 43 else 47
  }

  /** The symbols of Table 1 of RFC 4648, sixteen to a row. */
  const ROW0: string := "ABCDEFGHIJKLMNOP"
  const ROW1: string := "QRSTUVWXYZabcdef"
  const ROW2: string := "ghijklmnopqrstuv"
  const ROW3: string := "wxyz0123456789+/"

  lemma Symbols0(i: nat)
    requires i < 16
    ensures |ROW0| == 16 && Symbol(i) == ROW0[i] as int
  {
    match i
    case 0 => case 1 => case 2 => case 3 => case 4 => case 5 => case 6 => case 7 =>
    case 8 => case 9 => case 10 => case 11 => case 12 => case 13 => case 14 => case _ =>
  }

  lemma Symbols1(i: nat)
    requires i < 16
    ensures |ROW1| == 16 && Symbol(16 + i) == ROW1[i] as int
  {
    match i
    case 0 => case 1 => case 2 => case 3 => case 4 => case 5 => case 6 => case 7 =>
    case 8 => case 9 => case 10 => case 11 => case 12 => case 13 => case 14 => case _ =>
  }

  lemma Symbols2(i: nat)
    requires i < 16
    ensures |ROW2| == 16 && Symbol(32 + i) == ROW2[i] as int
  {
    match i
    case 0 => case 1 => case 2 => case 3 => case 4 => case 5 => case 6 => case 7 =>
    case 8 => case 9 => case 10 => case 11 => case 12 => case 13 => case 14 => case _ =>
  }

  lemma Symbols3(i: nat)
    requires i < 16
    ensures |ROW3| == 16 && Symbol(48 + i) == ROW3[i] as int
  {
    match i
    case 0 => case 1 => case 2 => case 3 => case 4 => case 5 => case 6 => case 7 =>
    case 8 => case 9 => case 10 => case 11 => case 12 => case 13 => case 14 => case _ =>
  }

  predicate InAlphabet(c: Byte) { exists v: Sextet :: Symbol(v) == c }

  /** The value of a symbol; the padding and every other byte count as zero. */
  function Value(c: Byte): (v: Sextet)
    ensures InAlphabet(c) ==> Symbol(v) == c
    ensures Symbol(v) == c || v == 0
  {
    if 65 <= c <= 90 then c - 65
    else if 97 <= c <= 122 then c - 71
    else if 48 <= c <= 57 then c + 4
    else if c == 43 then 62
    else if c == 47 then 63
    else 0
  }

  lemma ValueOfSymbol(v: Sextet)
    ensures Value(Symbol(v)) == v && InAlphabet(Symbol(v))
  {
  }

  predicate IsTable(table: seq<Byte>) { |table| == 256 && forall c: Byte :: table[c] == Value(c) }

  /** Builds the decoding table from the symbols. */
  method BuildTable() returns (table: array<Byte>)
    ensures fresh(table) && IsTable(table[..])
  {
    table := new Byte[256](_ => 0);
    for i := 0 to 64
      invariant forall c: Byte :: table[c] == if Value(c) < i && InAlphabet(c) then Value(c) else 0
    {
      ValueOfSymbol(i);
      table[Symbol(i)] := i;
    }
    forall c: Byte ensures table[c] == Value(c) { assert InAlphabet(c) || Value(c) == 0; }
  }

  // ---------------------------------------------------------------- three bytes and four symbols

  /** 24 bits as three bytes and as four sextets. */
  function SixBits(a: Byte, b: Byte, c: Byte): (Sextet, Sextet, Sextet, Sextet)
  {
    (a / 4, a % 4 * 16 + b / 16, b % 16 * 4 + c / 64, c % 64)
  }

  function EightBits(w: Sextet, x: Sextet, y: Sextet, z: Sextet): (Byte, Byte, Byte)
  {
    (w * 4 + x / 16, x % 16 * 16 + y / 4, y % 4 * 64 + z)
  }

  lemma BytesBack(a: Byte, b: Byte, c: Byte)
    ensures var (w, x, y, z) := SixBits(a, b, c); EightBits(w, x, y, z) == (a, b, c)
  {
    var (_, x, y, _) := SixBits(a, b, c);
    Quotient(x, a % 4, b / 16, 16);
    Quotient(y, b % 16, c / 64, 4);
  }

  lemma SextetsBack(w: Sextet, x: Sextet, y: Sextet, z: Sextet)
    ensures var (a, b, c) := EightBits(w, x, y, z); SixBits(a, b, c) == (w, x, y, z)
  {
    var (a, b, c) := EightBits(w, x, y, z);
    Quotient(a, w, x / 16, 4);
    Quotient(b, x % 16, y / 4, 16);
    Quotient(c, y % 4, z, 64);
  }

  function Quad(a: Byte, b: Byte, c: Byte): (q: seq<Byte>)
    ensures |q| == 4
  {
    var (w, x, y, z) := SixBits(a, b, c);
    [Symbol(w), Symbol(x), Symbol(y), Symbol(z)]
  }

  function Triple(w: Byte, x: Byte, y: Byte, z: Byte): (t: seq<Byte>)
    ensures |t| == 3
  {
    var (a, b, c) := EightBits(Value(w), Value(x), Value(y), Value(z));
    [a, b, c]
  }

  lemma TripleOfQuad(a: Byte, b: Byte, c: Byte)
    ensures var q := Quad(a, b, c); Triple(q[0], q[1], q[2], q[3]) == [a, b, c]
  {
    var (w, x, y, z) := SixBits(a, b, c);
    ValueOfSymbol(w);
    ValueOfSymbol(x);
    ValueOfSymbol(y);
    ValueOfSymbol(z);
    BytesBack(a, b, c);
  }

  lemma QuadOfTriple(w: Byte, x: Byte, y: Byte, z: Byte)
    requires InAlphabet(w) && InAlphabet(x) && InAlphabet(y) && InAlphabet(z)
    ensures var t := Triple(w, x, y, z); Quad(t[0], t[1], t[2]) == [w, x, y, z]
  {
    SextetsBack(Value(w), Value(x), Value(y), Value(z));
  }

  lemma Quotient(t: nat, q: nat, r: nat, m: nat)
    requires r < m && t == q * m + r
    ensures t / m == q && t % m == r
  {
    var d := t / m - q;
    assert t == (t / m) * m + t % m;
    assert d * m == r - t % m;
    assert d >= 1 ==> d * m >= m;
    assert d <= -1 ==> d * m <= 0 - m;
  }

  /** Digits to the base 64, taken out of their number. */
  lemma Digits64(w: Sextet, x: Sextet, y: Sextet, z: Sextet, t: nat)
    requires t == w * 0x40000 + x * 0x1000 + y * 0x40 + z
    ensures t / 0x40000 % 64 == w && t / 0x1000 % 64 == x && t / 0x40 % 64 == y && t % 64 == z
  {
    Quotient(t, w, x * 0x1000 + y * 0x40 + z, 0x40000);
    Quotient(t, w * 0x40 + x, y * 0x40 + z, 0x1000);
    Quotient(t, w * 0x1000 + x * 0x40 + y, z, 0x40);
    Quotient(w * 0x40 + x, w, x, 64);
    Quotient(w * 0x1000 + x * 0x40 + y, w * 0x40 + x, y, 64);
  }

  lemma Digits256(a: Byte, b: Byte, c: Byte, t: nat)
    requires t == a * 0x10000 + b * 0x100 + c
    ensures t / 0x10000 % 0x100 == a && t / 0x100 % 0x100 == b && t % 0x100 == c
  {
    Quotient(t, a, b * 0x100 + c, 0x10000);
    Quotient(t, a * 0x100 + b, c, 0x100);
    Quotient(a * 0x100 + b, a, b, 0x100);
  }

  /** The two ways to write the same 24 bits. */
  lemma SameNumber(a: Byte, b: Byte, c: Byte)
    ensures var (w, x, y, z) := SixBits(a, b, c);
            a * 0x10000 + b * 0x100 + c == w * 0x40000 + x * 0x1000 + y * 0x40 + z
  {
  }

  // ---------------------------------------------------------------- what the two directions mean

  /** Four symbols for every three bytes begun. */
  function TextLen(n: nat): (r: nat)
    ensures r % 4 == 0
  {
    if n == 0 then 0 else 4 + if n <= 3 then 0 else TextLen(n - 3)
  }

  function Pads(n: nat): nat { if n == 0 then 0 else if n <= 3 then 3 - n else Pads(n - 3) }

  /** Three bytes for every four symbols. */
  function Whole(n: nat): nat { if n < 4 then 0 else 3 + Whole(n - 4) }

  const MOD_TABLE: seq<nat> := [0, 2, 1]

  lemma {:induction false} TextLengthsOf(q: nat, r: nat)
    requires r < 3
    ensures TextLen(3 * q + r) == 4 * (if r == 0 then q else q + 1) && Pads(3 * q + r) == MOD_TABLE[r]
  {
    if q > 0 { TextLengthsOf(q - 1, r); }
  }

  /** The lengths as the program computes them. */
  lemma TextLengths(n: nat)
    ensures TextLen(n) == 4 * ((n + 2) / 3) && Pads(n) == MOD_TABLE[n % 3]
  {
    var q, r := n / 3, n % 3;
    TextLengthsOf(q, r);
    if r == 0 { Quotient(n + 2, q, 2, 3); } else { Quotient(n + 2, q + 1, r - 1, 3); }
  }

  lemma {:induction false} WholeIs(n: nat)
    ensures Whole(n) == n / 4 * 3
  {
    if n >= 4 {
      WholeIs(n - 4);
      assert (n - 4) / 4 + 1 == n / 4;
    }
  }

  /** Groups of three bytes; the last one may be shorter, and says so by its padding. */
  function Encoded(d: seq<Byte>): (s: seq<Byte>)
    ensures |s| == TextLen(|d|)
  {
    if |d| == 0 then []
    else if |d| == 1 then Quad(d[0], 0, 0)[..2] + [PAD, PAD]
    else if |d| == 2 then Quad(d[0], d[1], 0)[..3] + [PAD]
    else Quad(d[0], d[1], d[2]) + Encoded(d[3..])
  }

  function Octets(s: seq<Byte>): (d: seq<Byte>)
    ensures |d| == Whole(|s|)
  {
    if |s| < 4 then [] else Triple(s[0], s[1], s[2], s[3]) + Octets(s[4..])
  }

  function BinaryLen(s: seq<Byte>): (n: nat)
    requires |s| % 4 == 0 < |s|
    ensures n <= Whole(|s|)
  {
    Whole(|s|) - (if s[|s| - 1] == PAD then 1 else 0) - (if s[|s| - 2] == PAD then 1 else 0)
  }

  function Decoded(s: seq<Byte>): Option<seq<Byte>>
    requires s != []
  {
    if |s| % 4 != 0 then None else Some(Octets(s)[..BinaryLen(s)])
  }

  /** The sample of section 10 of RFC 4648: "foobar" is "Zm9vYmFy", and its beginnings are padded. */
  lemma SampleEncoded()
    ensures Encoded([102]) == [90, 103, 61, 61]
    ensures Encoded([102, 111]) == [90, 109, 56, 61]
    ensures Encoded([102, 111, 111]) == [90, 109, 57, 118]
    ensures Encoded([102, 111, 111, 98, 97, 114]) == [90, 109, 57, 118, 89, 109, 70, 121]
  {
    var s := [102, 111, 111, 98, 97, 114];
    assert s[3..] == [98, 97, 114] && [98, 97, 114][3..] == [] && [102, 111, 111][3..] == [];
    assert Quad(102, 111, 111) == [90, 109, 57, 118] && Quad(98, 97, 114) == [89, 109, 70, 121];
    assert Quad(102, 0, 0)[..2] == [90, 103] && Quad(102, 111, 0)[..3] == [90, 109, 56];
  }

  // ---------------------------------------------------------------- the round trips

  /** The padding stands where the bits are zero. */
  lemma ShortGroups(a: Byte, b: Byte)
    ensures Octets(Encoded([a])) == [a, 0, 0] && Octets(Encoded([a, b])) == [a, b, 0]
  {
    TripleOfQuad(a, 0, 0);
    TripleOfQuad(a, b, 0);
    assert Encoded([a])[4..] == [] && Encoded([a, b])[4..] == [];
    assert Quad(a, 0, 0)[2] == Quad(a, 0, 0)[3] == Symbol(0) && Quad(a, b, 0)[3] == Symbol(0);
  }

  lemma OctetsCons(q: seq<Byte>, rest: seq<Byte>)
    requires |q| == 4
    ensures Octets(q + rest) == Triple(q[0], q[1], q[2], q[3]) + Octets(rest)
  {
    assert (q + rest)[4..] == rest;
  }

  lemma EncodedCons(t: seq<Byte>, rest: seq<Byte>)
    requires |t| == 3
    ensures Encoded(t + rest) == Quad(t[0], t[1], t[2]) + Encoded(rest)
  {
    assert (t + rest)[3..] == rest;
  }

  lemma SplitHead(d: seq<Byte>, n: nat) returns (t: seq<Byte>, rest: seq<Byte>)
    requires n <= |d|
    ensures |t| == n && d == t + rest && |rest| == |d| - n
  {
    t, rest := d[..n], d[n..];
  }

  lemma OctetsStep(t: seq<Byte>, rest: seq<Byte>)
    requires |t| == 3
    ensures Octets(Encoded(t + rest)) == t + Octets(Encoded(rest))
  {
    EncodedCons(t, rest);
    OctetsCons(Quad(t[0], t[1], t[2]), Encoded(rest));
    TripleOfQuad(t[0], t[1], t[2]);
  }

  lemma {:induction false} OctetsOfEncoded(d: seq<Byte>)
    ensures d <= Octets(Encoded(d))
    decreases |d|
  {
    if |d| == 1 {
      ShortGroups(d[0], 0);
      assert d == [d[0]];
    } else if |d| == 2 {
      ShortGroups(d[0], d[1]);
      assert d == [d[0], d[1]];
    } else if d != [] {
      var t, rest := SplitHead(d, 3);
      OctetsStep(t, rest);
      OctetsOfEncoded(rest);
    }
  }

  lemma BinaryLenCons(q: seq<Byte>, rest: seq<Byte>)
    requires |q| == 4 && |rest| % 4 == 0 < |rest|
    ensures BinaryLen(q + rest) == 3 + BinaryLen(rest)
  {
    var s := q + rest;
    assert s[|s| - 1] == rest[|rest| - 1] && s[|s| - 2] == rest[|rest| - 2];
  }

  lemma {:induction false} EncodedEnd(d: seq<Byte>)
    requires d != []
    ensures BinaryLen(Encoded(d)) == |d|
    decreases |d|
  {
    if |d| > 3 {
      var t, rest := SplitHead(d, 3);
      EncodedCons(t, rest);
      EncodedEnd(rest);
      BinaryLenCons(Quad(t[0], t[1], t[2]), Encoded(rest));
    } else if |d| == 3 {
      assert Encoded(d) == Quad(d[0], d[1], d[2]);
    }
  }

  lemma TakePrefix(a: seq<Byte>, b: seq<Byte>)
    requires a <= b
    ensures b[..|a|] == a
  {
  }

  lemma TakeAfter(a: seq<Byte>, b: seq<Byte>, n: nat)
    requires n <= |b|
    ensures (a + b)[..|a| + n] == a + b[..n]
  {
  }

  /** Decoding what was encoded gives it back, for every byte string but the empty one. */
  lemma DecodeEncode(d: seq<Byte>)
    requires d != []
    ensures Decoded(Encoded(d)) == Some(d)
  {
    OctetsOfEncoded(d);
    EncodedEnd(d);
    TakePrefix(d, Octets(Encoded(d)));
  }

  /** The padding is the last symbols of a text, as many as the last group lacks bytes, and nothing else. */
  lemma {:induction false} PaddingOfEncoded(d: seq<Byte>, k: nat)
    requires k < |Encoded(d)|
    ensures Encoded(d)[k] == PAD <==> k + Pads(|d|) >= |Encoded(d)|
    decreases |d|
  {
    if |d| > 3 {
      var t, rest := SplitHead(d, 3);
      EncodedCons(t, rest);
      PadsFit(|rest|);
      if k >= 4 { PaddingOfEncoded(rest, k - 4); }
    } else if |d| == 3 {
      assert Encoded(d) == Quad(d[0], d[1], d[2]);
    }
  }

  lemma {:induction false} PadsFit(n: nat)
    ensures Pads(n) <= TextLen(n) && Pads(n) < 3
  {
    if n > 3 { PadsFit(n - 3); }
  }

  /** The last group of a text: full, or padded with the spare bits zero. */
  predicate LastGroup(q: seq<Byte>)
    requires |q| == 4
  {
    && InAlphabet(q[0]) && InAlphabet(q[1])
    && if q[3] != PAD then InAlphabet(q[2]) && InAlphabet(q[3])
       else if q[2] != PAD then InAlphabet(q[2]) && Value(q[2]) % 4 == 0
       else Value(q[1]) % 16 == 0
  }

  predicate AllSymbols(s: seq<Byte>) { forall i :: 0 <= i < |s| ==> InAlphabet(s[i]) }

  /** Symbols, and then a last group. */
  predicate Canonical(s: seq<Byte>)
    requires |s| % 4 == 0 < |s|
  {
    AllSymbols(s[..|s| - 4]) && LastGroup(s[|s| - 4..])
  }

  lemma CanonicalCons(q: seq<Byte>, rest: seq<Byte>)
    requires |q| == 4 && |rest| % 4 == 0 < |rest|
    ensures Canonical(q + rest) <==> AllSymbols(q) && Canonical(rest)
  {
    var s := q + rest;
    assert s[|s| - 4..] == rest[|rest| - 4..];
    var front := rest[..|rest| - 4];
    assert s[..|s| - 4] == q + front;
    if AllSymbols(q + front) {
      forall i | 0 <= i < |q| ensures InAlphabet(q[i]) { assert (q + front)[i] == q[i]; }
      forall i | 0 <= i < |front| ensures InAlphabet(front[i]) { assert (q + front)[|q| + i] == front[i]; }
    }
  }

  lemma QuadIsSymbols(a: Byte, b: Byte, c: Byte)
    ensures AllSymbols(Quad(a, b, c))
  {
  }

  lemma LastGroupOfShort(d: seq<Byte>)
    requires 1 <= |d| <= 3
    ensures |Encoded(d)| == 4 && LastGroup(Encoded(d))
  {
    var b, c: Byte := if |d| > 1 then d[1] else 0, if |d| > 2 then d[2] else 0;
    var (w, x, y, z) := SixBits(d[0], b, c);
    ValueOfSymbol(x);
    ValueOfSymbol(y);
    QuadIsSymbols(d[0], b, c);
    if |d| == 3 { assert Encoded(d) == Quad(d[0], d[1], d[2]); }
  }

  lemma {:induction false} EncodedCanonical(d: seq<Byte>)
    requires d != []
    ensures Canonical(Encoded(d))
    decreases |d|
  {
    if |d| <= 3 {
      LastGroupOfShort(d);
      assert Encoded(d)[0..] == Encoded(d);
    } else {
      var t, rest := SplitHead(d, 3);
      EncodedCons(t, rest);
      EncodedCanonical(rest);
      QuadIsSymbols(t[0], t[1], t[2]);
      CanonicalCons(Quad(t[0], t[1], t[2]), Encoded(rest));
    }
  }

  lemma FullGroupBack(q: seq<Byte>)
    requires |q| == 4 && LastGroup(q) && q[3] != PAD
    ensures Encoded(Triple(q[0], q[1], q[2], q[3])) == q
  {
    var t := Triple(q[0], q[1], q[2], q[3]);
    QuadOfTriple(q[0], q[1], q[2], q[3]);
    assert t[3..] == [];
  }

  lemma TwoBytesBack(q: seq<Byte>)
    requires |q| == 4 && LastGroup(q) && q[3] == PAD != q[2]
    ensures Encoded(Triple(q[0], q[1], q[2], q[3])[..2]) == q
  {
    SextetsBack(Value(q[0]), Value(q[1]), Value(q[2]), 0);
  }

  lemma OneByteBack(q: seq<Byte>)
    requires |q| == 4 && LastGroup(q) && q[3] == PAD == q[2]
    ensures Encoded(Triple(q[0], q[1], q[2], q[3])[..1]) == q
  {
    SextetsBack(Value(q[0]), Value(q[1]), 0, 0);
  }

  lemma LastGroupBack(q: seq<Byte>)
    requires |q| == 4 && LastGroup(q)
    ensures Encoded(Octets(q)[..BinaryLen(q)]) == q
  {
    var t := Triple(q[0], q[1], q[2], q[3]);
    assert q[4..] == [] && Octets(q) == t && Whole(4) == 3;
    if q[3] != PAD {
      FullGroupBack(q);
      assert t[..3] == t;
    } else if q[2] != PAD {
      TwoBytesBack(q);
    } else {
      OneByteBack(q);
    }
  }

  lemma BackStep(s: seq<Byte>, q: seq<Byte>, rest: seq<Byte>, d: seq<Byte>)
    requires s == q + rest && |q| == 4 && |s| % 4 == |rest| % 4 == 0 < |rest| && AllSymbols(q)
    requires d == Octets(rest)[..BinaryLen(rest)] && Encoded(d) == rest
    ensures Encoded(Octets(s)[..BinaryLen(s)]) == s
  {
    OctetsCons(q, rest);
    BinaryLenCons(q, rest);
    var t := Triple(q[0], q[1], q[2], q[3]);
    TakeAfter(t, Octets(rest), BinaryLen(rest));
    EncodedCons(t, d);
    QuadOfTriple(q[0], q[1], q[2], q[3]);
    assert q == [q[0], q[1], q[2], q[3]];
  }

  lemma {:induction false} CanonicalBack(s: seq<Byte>)
    requires |s| % 4 == 0 < |s| && Canonical(s)
    ensures Encoded(Octets(s)[..BinaryLen(s)]) == s
    decreases |s|
  {
    if |s| == 4 {
      assert s[0..] == s;
      LastGroupBack(s);
    } else {
      var q, rest := SplitHead(s, 4);
      CanonicalCons(q, rest);
      CanonicalBack(rest);
      BackStep(s, q, rest, Octets(rest)[..BinaryLen(rest)]);
    }
  }

  /** Encoding what was decoded gives the text back exactly when it is one that an encoder writes. */
  lemma EncodeDecode(s: seq<Byte>)
    requires |s| % 4 == 0 < |s|
    ensures Encoded(Decoded(s).value) == s <==> Canonical(s)
  {
    if Canonical(s) { CanonicalBack(s); } else { EncodedCanonical(Decoded(s).value); }
  }

  lemma OneByte(w: Byte, x: Byte)
    ensures Decoded([w, x, PAD, PAD]) == Some([Value(w) * 4 + Value(x) / 16])
  {
    var s := [w, x, PAD, PAD];
    assert s[4..] == [];
    var t := Octets(s);
    assert t == Triple(w, x, PAD, PAD);
    assert Whole(4) == 3 && BinaryLen(s) == 1;
    assert t[..1] == [t[0]];
  }

  /** Two texts for the same byte: the spare bits of the second are lost. */
  lemma SpareBitsLost()
    ensures Decoded([65, 65, PAD, PAD]) == Decoded([65, 66, PAD, PAD]) == Some([0])
    ensures !Canonical([65, 66, PAD, PAD])
  {
    OneByte(65, 65);
    OneByte(65, 66);
    assert [65, 66, PAD, PAD][0..] == [65, 66, PAD, PAD];
  }

  // ---------------------------------------------------------------- the program

  /** Groups of three bytes, the last one filled up with zeros, before the padding is put in. */
  function Filled(d: seq<Byte>): (s: seq<Byte>)
    ensures |s| == TextLen(|d|)
    decreases |d|
  {
    if d == [] then []
    else Quad(d[0], if |d| > 1 then d[1] else 0, if |d| > 2 then d[2] else 0) + Filled(if |d| > 3 then d[3..] else [])
  }

  function Padded(s: seq<Byte>, n: nat): (r: seq<Byte>)
    requires n <= |s|
    ensures |r| == |s|
  {
    s[..|s| - n] + seq(n, _ => PAD)
  }

  lemma PaddedCons(q: seq<Byte>, s: seq<Byte>, n: nat)
    requires n <= |s|
    ensures Padded(q + s, n) == q + Padded(s, n)
  {
    assert (q + s)[..|q + s| - n] == q + s[..|s| - n];
  }

  lemma ShortPadded(d: seq<Byte>)
    requires 1 <= |d| <= 3
    ensures |Filled(d)| == 4 && Padded(Filled(d), Pads(|d|)) == Encoded(d)
  {
    assert seq(2, _ => PAD) == [PAD, PAD] && seq(1, _ => PAD) == [PAD] && seq(0, _ => PAD) == [];
    if |d| == 3 { assert d[3..] == []; }
  }

  /** Filling with zeros and putting the padding in is encoding. */
  lemma {:induction false} FilledIs(d: seq<Byte>)
    ensures Pads(|d|) <= |Filled(d)| && Padded(Filled(d), Pads(|d|)) == Encoded(d)
    decreases |d|
  {
    PadsFit(|d|);
    if d == [] {
      assert seq(0, _ => PAD) == [];
    } else if |d| <= 3 {
      ShortPadded(d);
    } else {
      FilledIs(d[3..]);
      PaddedCons(Quad(d[0], d[1], d[2]), Filled(d[3..]), Pads(|d|));
    }
  }

  /** Writes the four symbols of three bytes. */
  method PutGroup(out: array<Byte>, j: nat, a: Byte, b: Byte, c: Byte)
    requires j + 4 <= out.Length
    modifies out
    ensures out[..] == old(out[..j]) + Quad(a, b, c) + old(out[j + 4..])
  {
    var t := a * 0x10000 + b * 0x100 + c;
    ghost var (w, x, y, z) := SixBits(a, b, c);
    SameNumber(a, b, c);
    Digits64(w, x, y, z, t);
    out[j] := Symbol(t / 0x40000 % 64);
    out[j + 1] := Symbol(t / 0x1000 % 64);
    out[j + 2] := Symbol(t / 0x40 % 64);
    out[j + 3] := Symbol(t % 64);
  }

  lemma FilledStep(d: seq<Byte>, i: nat)
    requires i < |d|
    ensures var i' := if i + 3 <= |d| then i + 3 else |d|;
            Filled(d[i..]) == Quad(d[i], if i + 1 < |d| then d[i + 1] else 0, if i + 2 < |d| then d[i + 2] else 0)
                              + Filled(d[i'..])
  {
    if i + 3 < |d| { assert d[i..][3..] == d[i + 3..]; }
  }

  lemma FilledMore(out: seq<Byte>, out': seq<Byte>, j: nat, q: seq<Byte>, rest: seq<Byte>, rest': seq<Byte>)
    requires j + 4 <= |out| && |q| == 4 && rest == q + rest' && out' == out[..j] + q + out[j + 4..]
    ensures out'[..j + 4] + rest' == out[..j] + rest
  {
    assert out'[..j + 4] == out[..j] + q;
  }

  method PutGroups(out: array<Byte>, data: seq<Byte>)
    requires out.Length == TextLen(|data|) + 1
    modifies out
    ensures out[..TextLen(|data|)] == Filled(data)
  {
    var i: nat, j: nat := 0, 0;
    while i < |data|
      invariant i <= |data| && j < out.Length && out[..j] + Filled(data[i..]) == Filled(data)
    {
      ghost var was, rest := out[..], Filled(data[i..]);
      FilledStep(data, i);
      var b: Byte := if i + 1 < |data| then data[i + 1] else 0;
      var c: Byte := if i + 2 < |data| then data[i + 2] else 0;
      ghost var q := Quad(data[i], b, c);
      assert |was[..j] + rest| == j + |rest|;
      PutGroup(out, j, data[i], b, c);
      i := if i + 3 <= |data| then i + 3 else |data|;
      FilledMore(was, out[..], j, q, rest, Filled(data[i..]));
      j := j + 4;
      assert out[..][..j] == out[..j];
    }
  }

  method Encode(data: seq<Byte>) returns (out: array<Byte>)
    ensures fresh(out) && out.Length == |Encoded(data)| + 1
    ensures out[..] == Encoded(data) + [0]
  {
    TextLengths(|data|);
    FilledIs(data);
    var n := 4 * ((|data| + 2) / 3);
    out := new Byte[n + 1](_ => 0);
    PutGroups(out, data);
    PutPadding(out, n, MOD_TABLE[|data| % 3]);
    out[n] := 0;
    assert out[..] == out[..n] + [out[n]];
  }

  method PutPadding(out: array<Byte>, n: nat, pads: nat)
    requires pads <= n < out.Length
    modifies out
    ensures out[..n] == Padded(old(out[..n]), pads)
  {
    ghost var was := out[..n];
    for p := 0 to pads
      invariant out[..n] == Padded(was, p)
    {
      out[n - 1 - p] := PAD;
    }
  }

  method Lookup(table: array<Byte>, c: Byte) returns (v: Sextet)
    requires IsTable(table[..])
    ensures v == Value(c)
  {
    assert table[c] == table[..][c];
    v := if c == PAD then 0 else table[c];
  }

  method Regroup(w: Sextet, x: Sextet, y: Sextet, z: Sextet) returns (a: Byte, b: Byte, c: Byte)
    ensures (a, b, c) == EightBits(w, x, y, z)
  {
    var t := w * 0x40000 + x * 0x1000 + y * 0x40 + z;
    GroupNumber(w, x, y, z, t);
    a, b, c := t / 0x10000 % 0x100, t / 0x100 % 0x100, t % 0x100;
  }

  /** The three bytes of four symbols. */
  method GetGroup(table: array<Byte>, s: seq<Byte>, i: nat) returns (a: Byte, b: Byte, c: Byte)
    requires IsTable(table[..]) && i + 4 <= |s|
    ensures [a, b, c] == Triple(s[i], s[i + 1], s[i + 2], s[i + 3])
  {
    var w := Lookup(table, s[i]);
    var x := Lookup(table, s[i + 1]);
    var y := Lookup(table, s[i + 2]);
    var z := Lookup(table, s[i + 3]);
    a, b, c := Regroup(w, x, y, z);
  }

  lemma GroupNumber(w: Sextet, x: Sextet, y: Sextet, z: Sextet, t: nat)
    requires t == w * 0x40000 + x * 0x1000 + y * 0x40 + z
    ensures EightBits(w, x, y, z) == (t / 0x10000 % 0x100, t / 0x100 % 0x100, t % 0x100)
  {
    var (a, b, c) := EightBits(w, x, y, z);
    SextetsBack(w, x, y, z);
    SameNumber(a, b, c);
    Digits256(a, b, c, t);
  }

  /** As much of some bytes as an array holds. */
  ghost predicate Prefix(out: seq<Byte>, j: nat, done: seq<Byte>)
  {
    j <= |out| && j <= |done| && (j < |out| ==> j == |done|) && out[..j] == done[..j]
  }

  /** Writes a byte if there is room. */
  method Emit(out: array<Byte>, j: nat, x: Byte, ghost done: seq<Byte>) returns (j': nat)
    requires Prefix(out[..], j, done)
    modifies out
    ensures Prefix(out[..], j', done + [x])
  {
    j' := j;
    if j < out.Length {
      out[j] := x;
      j' := j + 1;
    }
  }

  lemma OctetsFrom(s: seq<Byte>, i: nat)
    requires i + 4 <= |s|
    ensures Octets(s[i..]) == Triple(s[i], s[i + 1], s[i + 2], s[i + 3]) + Octets(s[i + 4..])
  {
    assert s[i..][4..] == s[i + 4..];
  }

  lemma Finished(s: seq<Byte>, out: seq<Byte>, j: nat, done: seq<Byte>)
    requires |s| % 4 == 0 < |s| && |out| == BinaryLen(s) && Prefix(out, j, done) && done == Octets(s)
    ensures Some(out) == Decoded(s)
  {
    assert out[..j] == out;
  }

  method EmitGroup(out: array<Byte>, j: nat, a: Byte, b: Byte, c: Byte, ghost done: seq<Byte>) returns (j': nat)
    requires Prefix(out[..], j, done)
    modifies out
    ensures Prefix(out[..], j', done + [a, b, c])
  {
    j' := Emit(out, j, a, done);
    j' := Emit(out, j', b, done + [a]);
    j' := Emit(out, j', c, done + [a] + [b]);
    assert done + [a] + [b] + [c] == done + [a, b, c];
  }

  lemma DoneMore(done: seq<Byte>, t: seq<Byte>, rest: seq<Byte>)
    ensures done + (t + rest) == (done + t) + rest
  {
  }

  method GetGroups(out: array<Byte>, table: array<Byte>, s: seq<Byte>, ghost groups: nat) returns (j: nat)
    requires IsTable(table[..]) && out != table && |s| == 4 * groups
    modifies out
    ensures Prefix(out[..], j, Octets(s))
  {
    var i: nat := 0;
    j := 0;
    ghost var done: seq<Byte> := [];
    ghost var g := 0;
    while i < |s|
      invariant g <= groups && i == 4 * g && IsTable(table[..])
      invariant done + Octets(s[i..]) == Octets(s) && Prefix(out[..], j, done)
    {
      var a, b, c := GetGroup(table, s, i);
      OctetsFrom(s, i);
      DoneMore(done, [a, b, c], Octets(s[i + 4..]));
      j := EmitGroup(out, j, a, b, c, done);
      done, g := done + [a, b, c], g + 1;
      i := i + 4;
    }
    assert s[i..] == [];
  }

  method Decode(s: seq<Byte>) returns (r: Option<seq<Byte>>)
    requires s != []
    ensures r == Decoded(s)
  {
    var table := BuildTable();
    if |s| % 4 != 0 { return None; }
    WholeIs(|s|);
    var n: nat := |s| / 4 * 3;
    if s[|s| - 1] == PAD { n := n - 1; }
    if s[|s| - 2] == PAD { n := n - 1; }
    var out := new Byte[n](_ => 0);
    var j := GetGroups(out, table, s, |s| / 4);
    Finished(s, out[..], j, Octets(s));
    r := Some(out[..]);
  }
}
