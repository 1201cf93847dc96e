/** The message type of a STUN header: twelve method bits around two class bits (section 6 of
    RFC 5389). */
module StunType {
  import opened Addresses

  datatype Class = Request | Indication | Success | Error

  function MakeType(method_: bv16): bv16
  {
    var m := method_ & 0x0FFF;
    (m & 0x000F) | ((m & 0x0070) << 1) | ((m & 0x0380) << 2) | ((m & 0x0C00) << 2)
  }

  function TypeOf(c: Class, method_: bv16): bv16
  {
    var t := MakeType(method_);
    match c
    case Request => t & 0xFEEF
    case Indication => (t & 0xFEEF) | 0x0010
    case Success => (t & 0xFEEF) | 0x0100
    case Error => t | 0x0110
  }

  function MethodOf(t: bv16): bv16
  {
    (t & 0x000F) | ((t & 0x00E0) >> 1) | ((t & 0x0E00) >> 2) | ((t & 0x3000) >> 2)
  }

  function Bits(c: Class): bv16
  {
    match c case Request => 0x0000 case Indication => 0x0010 case Success => 0x0100 case Error => 0x0110
  }

  predicate IsClass(t: bv16, c: Class) { (t & 0x3FFF) & 0x0110 == Bits(c) }

  function High(t: bv16): Byte { (t >> 8) as int }

  function Low(t: bv16): Byte { (t & 0xFF) as int }

  function Word(high: Byte, low: Byte): bv16 { ((high as bv16) << 8) | (low as bv16) }

  lemma WordAgain(x: bv16)
    ensures (x as int) as bv16 == x
  {
  }

  lemma WordRoundTrip(t: bv16)
    ensures Word(High(t), Low(t)) == t
  {
    WordAgain(t >> 8);
    WordAgain(t & 0xFF);
  }

  /** A type for a method, with these class bits. */
  predicate Typed(t: bv16, method_: bv16, bits: bv16)
  {
    t & 0x3FFF == t && MethodOf(t) == method_ & 0x0FFF && (t & 0x3FFF) & 0x0110 == bits
  }

  lemma RequestTyped(m: bv16)
    ensures Typed(MakeType(m) & 0xFEEF, m, 0x0000)
  {
  }

  lemma IndicationTyped(m: bv16)
    ensures Typed((MakeType(m) & 0xFEEF) | 0x0010, m, 0x0010)
  {
  }

  lemma SuccessTyped(m: bv16)
    ensures Typed((MakeType(m) & 0xFEEF) | 0x0100, m, 0x0100)
  {
  }

  lemma ErrorTyped(m: bv16)
    ensures Typed(MakeType(m) | 0x0110, m, 0x0110)
  {
  }

  lemma TypeTyped(c: Class, method_: bv16)
    ensures Typed(TypeOf(c, method_), method_, Bits(c))
  {
    match c
    case Request => RequestTyped(method_);
    case Indication => IndicationTyped(method_);
    case Success => SuccessTyped(method_);
    case Error => ErrorTyped(method_);
  }

  /** The first two bytes of a header give back the method and exactly the class. */
  lemma TypeRoundTrip(c: Class, d: Class, method_: bv16)
    ensures var t := TypeOf(c, method_);
            var w := Word(High(t), Low(t));
            && t & 0x3FFF == t
            && MethodOf(w) == method_ & 0x0FFF
            && (IsClass(w, d) <==> c == d)
  {
    WordRoundTrip(TypeOf(c, method_));
    TypeTyped(c, method_);
  }

  /** Where the bits are: the method has four bits at the bottom, three above the lower class bit and five
      above the upper one, and the class bits are 4 and 8. */
  lemma TypeBits(c: Class, method_: bv16)
    ensures var t := TypeOf(c, method_);
            && t & 15 == method_ & 15
            && (t >> 5) & 7 == (method_ >> 4) & 7
            && (t >> 9) & 31 == (method_ >> 7) & 31
            && t >> 14 == 0
            && (t & 16 != 0 <==> c == Indication || c == Error)
            && (t & 256 != 0 <==> c == Success || c == Error)
  {
    match c
    case Request => RequestBits(method_);
    case Indication => IndicationBits(method_);
    case Success => SuccessBits(method_);
    case Error => ErrorBits(method_);
  }

  /** The method bits of a type, in their places. */
  predicate Placed(t: bv16, method_: bv16)
  {
    t & 15 == method_ & 15 && (t >> 5) & 7 == (method_ >> 4) & 7 && (t >> 9) & 31 == (method_ >> 7) & 31 && t >> 14 == 0
  }

  lemma RequestBits(m: bv16)
    ensures var t := MakeType(m) & 0xFEEF; Placed(t, m) && t & 16 == 0 && t & 256 == 0
  {
  }

  lemma IndicationBits(m: bv16)
    ensures var t := (MakeType(m) & 0xFEEF) | 0x0010; Placed(t, m) && t & 16 != 0 && t & 256 == 0
  {
  }

  lemma SuccessBits(m: bv16)
    ensures var t := (MakeType(m) & 0xFEEF) | 0x0100; Placed(t, m) && t & 16 == 0 && t & 256 != 0
  {
  }

  lemma ErrorBits(m: bv16)
    ensures var t := MakeType(m) | 0x0110; Placed(t, m) && t & 16 != 0 && t & 256 != 0
  {
  }

  /** The types of a binding: request, indication, success and error. */
  lemma BindingTypes()
    ensures TypeOf(Request, 1) == 0x0001 && TypeOf(Indication, 1) == 0x0011
    ensures TypeOf(Success, 1) == 0x0101 && TypeOf(Error, 1) == 0x0111
  {
  }

  /** A type of fourteen bits is no channel number, and its first byte has two zero bits. */
  lemma ShortType(t: bv16)
    ensures High(t & 0x3FFF) < 64
  {
  }
}
