/** The hashes of addresses, as a machine computes them that stores the low byte of a word first. */
module AddrHash {
  import opened Addresses

  function HashInt32(a: bv32): bv32
  {
    var b := a ^ (a >> 4);
    var c := (b ^ 0xdeadbeef) + (b << 5);
    c ^ (c >> 11)
  }

  function HashInt64(a: bv64): bv64
  {
    var b := a ^ (a >> 4);
    var c := (b ^ 0xdeadbeefdeadbeef) + (b << 5);
    c ^ (c >> 11)
  }

  /** The number in n bytes from an offset on. An address that is not there is zero. */
  function WordAt(ip: seq<Byte>, i: nat, n: nat): nat
    decreases n
  {
    if n == 0 then 0 else (if i < |ip| then ip[i] else 0) + 0x100 * WordAt(ip, i + 1, n - 1)
  }

  /** A port is stored with its high byte first. */
  function PortWord(p: Port): nat { p / 0x100 + 0x100 * (p % 0x100) }

  function Low32(n: nat): bv32 { (n % 0x1_0000_0000) as bv32 }

  function Low64(n: nat): bv64 { (n % 0x1_0000_0000_0000_0000) as bv64 }

  /** The sums are as wide as the words. */
  function Hash4(ip: seq<Byte>, port: nat): nat
  {
    HashInt32(Low32(WordAt(ip, 0, 4) + port)) as nat
  }

  function Hash6(ip: seq<Byte>, port: nat): nat
  {
    ((HashInt64(Low64(WordAt(ip, 0, 8))) << 3) + HashInt64(Low64(WordAt(ip, 8, 8) + port))) as nat % 0x1_0000_0000
  }

  /** The hash of an address with some port. */
  function HashWith(a: Addr, port: nat): nat
  {
    match a case V4(ip, _) => Hash4(ip, port) case V6(ip, _) => Hash6(ip, port) case Unspec => Hash6([], port)
  }

  function Hash(a: Addr): nat { HashWith(a, PortWord(a.GetPort())) }

  function HashNoPort(a: Addr): nat { HashWith(a, 0) }

  /** The bucket of an address in a table whose size is a power of two. */
  function Index(a: Addr, size: nat): (b: nat)
    requires size > 0
    ensures b < size
  {
    Hash(a) % size
  }

  function IndexNoPort(a: Addr, size: nat): (b: nat)
    requires size > 0
    ensures b < size
  {
    HashNoPort(a) % size
  }

  lemma SameIndexNoPort(a: Addr, b: Addr, size: nat)
    requires size > 0 && AddrEqNoPort(a, b)
    ensures IndexNoPort(a, size) == IndexNoPort(b, size)
  {
    assert HashNoPort(a) == HashNoPort(b);
  }

  /** Addresses that are equal up to the port lie in the same bucket of a table of permissions. */
  lemma NoPortRespects(size: nat, index: Addr -> nat)
    requires size > 0 && forall a :: index(a) == IndexNoPort(a, size)
    ensures RespectsAddr(index, size)
  {
    forall a, b | AddrEqNoPort(a, b) ensures index(a) == index(b) { SameIndexNoPort(a, b, size); }
  }
}
