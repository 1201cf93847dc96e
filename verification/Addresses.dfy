/** Transport addresses as the server compares them. */
module Addresses {

  type Byte = x: nat | x < 0x100
  type Port = x: nat | x < 0x1_0000

  /** An address union: nothing decoded (family zero), IPv4 or IPv6. The address bytes are in
      network order. */
  datatype Addr = Unspec | V4(ip: seq<Byte>, port: Port) | V6(ip: seq<Byte>, port: Port) {

    predicate Decoded() { V4? || V6? }

    function GetPort(): Port { if Decoded() then port else 0 }

    function SetPort(p: Port): Addr { if Decoded() then this.(port := p) else this }
  }

  /** Same family, address and port. An undecoded address equals nothing, itself included. */
  predicate AddrEq(a: Addr, b: Addr)
  {
    || (a.V4? && b.V4? && a.port == b.port && a.ip == b.ip)
    || (a.V6? && b.V6? && a.port == b.port && a.ip == b.ip)
  }

  predicate AddrEqNoPort(a: Addr, b: Addr)
  {
    (a.V4? && b.V4? && a.ip == b.ip) || (a.V6? && b.V6? && a.ip == b.ip)
  }

  predicate AllZero(ip: seq<Byte>)
  {
    forall i :: 0 <= i < |ip| ==> ip[i] == 0
  }

  predicate AddrAny(a: Addr)
  {
    !a.Decoded() || (a.port == 0 && AllZero(a.ip))
  }

  /** A bucket choice that does not tell equal addresses apart, as every hash of the family
      and the address bytes. */
  ghost predicate RespectsAddr(bucketOf: Addr -> nat, n: nat)
  {
    && (forall a :: bucketOf(a) < n)
    && (forall a, b :: AddrEqNoPort(a, b) ==> bucketOf(a) == bucketOf(b))
  }
}
