/** What the two PIN/UV auth protocols put on the wire during the acquisition (sections 6.5.6 and 6.5.7 of CTAP 2.1). */
module PinWire {
  import opened Wrappers
  import opened ByteOrder
  import opened GetAssertion
  import opened PinCrypto
  import opened PinToken
  import opened Ceremony
  import opened SoftDevice
  import opened SoftLink
  import opened TwoParty

  /** The x-coordinate both sides agree on, as the token computes it. */
  function AgreedSecret(c: Crypto, k: Keys): seq<byte> {
    c.agree(k.mine, c.pointX(k.theirs), c.pointY(k.theirs))
  }

  /**
   pinHashEnc: the first 16 bytes of the PIN's SHA-256, under protocol one with the SHA-256 of the agreed
   secret as the key and an IV of zeros, under protocol two with the derived key and a fresh IV in front.
   */
  lemma {:induction false} SealedOnWire(lib: Libraries, s: Soft, input: Input, pin: seq<byte>, k: Keys)
    requires Lawful(lib.crypto) && Drew(lib, s, input, k)
    ensures var c, z := lib.crypto, AgreedSecret(lib.crypto, k);
            var left, iv := c.sha256(pin)[..16], k.clientPool[..16];
            TokenRequestFor(lib, s, input, pin, k).pinHashEnc
            == Some(if k.p == One then c.cbcEncrypt(c.sha256(z), Zeros(16), left)
                    else iv + c.cbcEncrypt(c.hkdf(z), iv, left))
  {
    var c := lib.crypto;
    assert |PinHash(c, pin)| == 16 && Blocks(PinHash(c, pin));
    assert c.validScalar(k.mine) && c.validScalar(k.theirs);
    assert AgreedSecret(c, k) == c.agree(k.theirs, c.pointX(k.mine), c.pointY(k.mine));
  }

  /** pinUvAuthParam: the HMAC of the client data hash under the token, cut to 16 bytes under protocol one. */
  lemma {:induction false} ParamOnWire(c: Crypto, p: Protocol, token: seq<byte>, clientDataHash: seq<byte>)
    requires Lawful(c)
    ensures ParamUnder(c, p, token, clientDataHash)
         == if p == One then c.hmac(token, clientDataHash)[..16] else c.hmac(token, clientDataHash)
    ensures |ParamUnder(c, p, token, clientDataHash)| == if p == One then 16 else 32
  {
    assert |c.hmac(token, clientDataHash)| == 32;
  }

  /** The right PIN is the one last set, and setting it leaves the token armed unless its latch is engaged. */
  lemma {:induction false} PinSetMatches(c: Crypto, t: Token, pin: seq<byte>)
    requires GoodProtocols(t.Advertised()) && !t.wrongProtocolEcho && !t.pinEchoDecrypt
    requires t.pin.Some? ==> !t.pin.value.locked
    ensures var n := SetPinOn(c, t, pin);
            && Armed(n) && n.pin.value.pinHash.value == PinHash(c, pin) && n.pin.value.retries == 8
            && n.Advertised() == t.Advertised()
  {
  }
}
