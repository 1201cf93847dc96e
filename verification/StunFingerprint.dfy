/** FINGERPRINT with the CRC of section 15.5 of RFC 5389. */
module StunFingerprint {
  import opened Addresses
  import opened StunType
  import opened StunWire
  import opened StunBuild
  import opened StunIntegrity
  import Crc

  /** A message that is built, signed, extended and stamped with its CRC is accepted in full by a check
      that computes the CRC of what comes before the fingerprint. */
  method SendWithCrc(buf: array<Byte>, c: Class, method_: bv16, tid: seq<Byte>, attrs: seq<Attribute>,
                     more: seq<Attribute>, hmac: Hmac, sha: Sha, secret: seq<Byte>, junk: seq<Byte>) returns (ok: bool, len: nat)
    requires buf.Length >= MAX_MESSAGE && |tid| == 12 && Sized(hmac) && |junk| == ShaSize(sha)
    requires Lacks(attrs, INTEGRITY) && Lacks(attrs, FINGERPRINT) && Lacks(more, FINGERPRINT)
    modifies buf
    ensures ok <==> HEADER + Total(attrs) + 4 + ShaSize(sha) + Total(more) + 8 < MAX_MESSAGE
    ensures ok ==> len <= buf.Length && Verify(buf[..len], hmac, sha, secret) == Right && FullOk(buf[..len], true, Crc.Stamp)
    ensures ok ==> Carries(buf[..len], attrs, more, Crc.Stamp)
  {
    ok, len := Send(buf, c, method_, tid, attrs, more, hmac, sha, secret, junk, Crc.Stamp);
  }
}
