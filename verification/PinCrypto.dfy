/**
 The PIN/UV auth protocols over an abstract cryptographic library: key agreement, key derivation,
 authenticate, encrypt and decrypt (sections 6.5.4, 6.5.6 and 6.5.7 of CTAP 2.1).
 */
module PinCrypto {
  import opened Wrappers
  import opened ByteOrder
  import opened GetAssertion

  /** The library's primitives. Coordinates and digests are byte strings, `agree` yields the shared x-coordinate. */
  datatype Crypto = Crypto(
    validScalar: seq<byte> -> bool,
    pointX: seq<byte> -> seq<byte>,
    pointY: seq<byte> -> seq<byte>,
    onCurve: (seq<byte>, seq<byte>) -> bool,
    agree: (seq<byte>, seq<byte>, seq<byte>) -> seq<byte>,
    sha256: seq<byte> -> seq<byte>,
    hkdf: seq<byte> -> seq<byte>,
    hmac: (seq<byte>, seq<byte>) -> seq<byte>,
    cbcEncrypt: (seq<byte>, seq<byte>, seq<byte>) -> seq<byte>,
    cbcDecrypt: (seq<byte>, seq<byte>, seq<byte>) -> seq<byte>)

  /** Whole cipher blocks. */
  predicate Blocks(s: seq<byte>) {
    s != [] && |s| % 16 == 0
  }

  /** Public keys are points, key agreement is symmetric, decryption undoes encryption. */
  ghost predicate Lawful(c: Crypto) {
    && (forall s :: c.validScalar(s) ==>
          |c.pointX(s)| == 32 && |c.pointY(s)| == 32 && c.onCurve(c.pointX(s), c.pointY(s)))
    && (forall s, t :: c.validScalar(s) && c.validScalar(t) ==>
          c.agree(s, c.pointX(t), c.pointY(t)) == c.agree(t, c.pointX(s), c.pointY(s)))
    && (forall key, iv, p :: Blocks(p) ==>
          |c.cbcEncrypt(key, iv, p)| == |p| && c.cbcDecrypt(key, iv, c.cbcEncrypt(key, iv, p)) == p)
    && (forall m :: |c.sha256(m)| == 32)
    && (forall key, m :: |c.hmac(key, m)| == 32)
  }

  /** The laws can be met. */
  lemma {:induction false} LawfulExists()
    ensures exists c :: Lawful(c)
  {
    var c := Crypto(s => true, s => Zeros(32), s => Zeros(32), (x, y) => true, (s, x, y) => [], m => Zeros(32),
                    z => [], (key, m) => Zeros(32), (key, iv, p) => p, (key, iv, p) => p);
    assert Lawful(c);
  }

  datatype CryptoError = BadPeerKey | BadCiphertextLength | KeyGeneration | Random

  // ---- entropy: a source that yields its bytes in order and fails when it has too few left

  datatype Drawn = Drawn(bytes: Option<seq<byte>>, rest: seq<byte>)

  function Fill(pool: seq<byte>, n: nat): (d: Drawn)
    ensures d.bytes.Some? ==> |d.bytes.value| == n
  {
    if n <= |pool| then Drawn(Some(pool[..n]), pool[n..]) else Drawn(None, pool)
  }

  /** A scalar from 32-byte draws, giving up after `tries` that are out of range. */
  function DrawScalar(c: Crypto, pool: seq<byte>, tries: nat): (r: (Result<seq<byte>, CryptoError>, seq<byte>))
    ensures r.0.Ok? ==> c.validScalar(r.0.value)
  {
    if tries == 0 then (Err(KeyGeneration), pool) else
      var d := Fill(pool, 32);
      if d.bytes.None? then (Err(Random), d.rest)
      else if c.validScalar(d.bytes.value) then (Ok(d.bytes.value), d.rest)
      else DrawScalar(c, d.rest, tries - 1)
  }

  // ---- the protocols

  /** `SharedSecret`. */
  datatype Shared = Shared(aesKey: seq<byte>, protocol: Protocol)

  /** `SharedSecret::derive`. */
  function Derive(c: Crypto, z: seq<byte>, protocol: Protocol): Shared {
    Shared(if protocol == One then c.sha256(z) else c.hkdf(z), protocol)
  }

  function Authenticate(c: Crypto, shared: Shared, key: seq<byte>, message: seq<byte>): seq<byte> {
    var mac := c.hmac(key, message);
    if shared.protocol == One then Take(mac, 16) else mac
  }

  function Encrypt(c: Crypto, shared: Shared, pool: seq<byte>,
                   p: seq<byte>): (Result<seq<byte>, CryptoError>, seq<byte>)
  {
    if !Blocks(p) then (Err(BadCiphertextLength), pool)
    else if shared.protocol == One then (Ok(c.cbcEncrypt(shared.aesKey, Zeros(16), p)), pool)
    else
      var d := Fill(pool, 16);
      match d.bytes
      case None => (Err(Random), d.rest)
      case Some(iv) => (Ok(iv + c.cbcEncrypt(shared.aesKey, iv, p)), d.rest)
  }

  function Decrypt(c: Crypto, shared: Shared, ct: seq<byte>): Result<seq<byte>, CryptoError> {
    if shared.protocol == One then
      if Blocks(ct) then Ok(c.cbcDecrypt(shared.aesKey, Zeros(16), ct)) else Err(BadCiphertextLength)
    else if |ct| < 16 || !Blocks(ct[16..]) then Err(BadCiphertextLength)
    else Ok(c.cbcDecrypt(shared.aesKey, ct[..16], ct[16..]))
  }

  /** LEFT(SHA-256(PIN), 16). */
  function PinHash(c: Crypto, pin: seq<byte>): seq<byte> {
    Take(c.sha256(pin), 16)
  }

  lemma {:induction false} DecryptsBack(c: Crypto, shared: Shared, pool: seq<byte>, p: seq<byte>)
    requires Lawful(c) && Encrypt(c, shared, pool, p).0.Ok?
    ensures Decrypt(c, shared, Encrypt(c, shared, pool, p).0.value) == Ok(p)
  {
    var ct := Encrypt(c, shared, pool, p).0.value;
    if shared.protocol != One {
      var iv := Fill(pool, 16).bytes.value;
      assert ct[..16] == iv && ct[16..] == c.cbcEncrypt(shared.aesKey, iv, p);
    }
  }
}
