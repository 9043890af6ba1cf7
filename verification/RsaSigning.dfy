/** RS256 signing with a two-prime key by the Chinese remainder theorem (sections 5.2.1, 8.2 and 9.2 of RFC 8017). */
module RsaSigning {
  import opened Prelude
  import opened BigEndian
  import opened NumberTheory

  datatype Key = Key(n: nat, e: nat, d: nat, p: nat, q: nat, dp: nat, dq: nat, qinv: nat)

  datatype Error = KeyTooSmall | SelfCheckFailed | Inconsistent

  /** Python `int.bit_length`. */
  function BitLength(n: nat): nat {
    if n == 0 then 0 else 1 + BitLength(n / 2)
  }

  function Size(key: Key): nat {
    (BitLength(key.n) + 7) / 8
  }

  /** What `load_rsa_private_key` checks about the eight integers it has read. */
  function Load(key: Key): (r: Result<Key, Error>) {
    if key.p * key.q != key.n || BitLength(key.n) < 2048 then Err(Inconsistent) else Ok(key)
  }

  /** A key made as section 3.2 of RFC 8017 says: primes, and exponents that invert each other. */
  ghost predicate Consistent(key: Key) {
    && Prime(key.p) && Prime(key.q) && key.n == key.p * key.q
    && key.e >= 1 && key.dp >= 1 && key.dq >= 1
    && Same(key.e * key.dp, 1, key.p - 1)
    && Same(key.e * key.dq, 1, key.q - 1)
    && Same(key.qinv * key.q, 1, key.p)
  }

  // DER prefix of a SHA-256 DigestInfo.
  const DIGEST_INFO: Bytes := [0x30, 0x31, 0x30, 0x0d, 0x06, 0x09, 0x60, 0x86, 0x48, 0x01,
                               0x65, 0x03, 0x04, 0x02, 0x01, 0x05, 0x00, 0x04, 0x20]

  function Padding(size: nat, digest: Bytes): int {
    size - |DIGEST_INFO + digest| - 3
  }

  function Encode(size: nat, digest: Bytes): (em: Bytes)
    requires Padding(size, digest) >= 0
    ensures |em| == size && em[0] == 0
  {
    [0, 1] + seq(Padding(size, digest), i => 0xff) + [0] + DIGEST_INFO + digest
  }

  function Recombine(key: Key, m1: int, m2: int): int
    requires key.p > 0
  {
    m2 + ((key.qinv * (m1 - m2)) % key.p) * key.q
  }

  /** `rsa_sha256_sign`, given the SHA-256 digest of the message. */
  function Sign(key: Key, digest: Bytes): (r: Result<Bytes, Error>)
    requires key.p > 0 && key.q > 0 && key.n > 0
  {
    if Padding(Size(key), digest) < 8 then Err(KeyTooSmall)
    else
      var encoded := FromBytes(Encode(Size(key), digest));
      var m1 := Pow(encoded, key.dp) % key.p;
      var m2 := Pow(encoded, key.dq) % key.q;
      var signature := Recombine(key, m1, m2);
      if signature < 0 || Pow(signature, key.e) % key.n != encoded then Err(SelfCheckFailed)
      else Ok(ToBytes(signature, Size(key)))
  }

  /**
   * What a verifier reads in the opened block (section 9.2 of RFC 8017): 0 and 1, at least eight bytes of
   * 255, a 0, the algorithm, and the digest at the end.
   */
  predicate Carries(em: Bytes, digest: Bytes) {
    && |digest| == 32 && |em| >= 62 && em[..2] == [0, 1]
    && (forall i :: 2 <= i < |em| - 52 ==> em[i] == 255)
    && em[|em| - 52] == 0
    && em[|em| - 51..|em| - 32] == [0x30, 0x31, 0x30, 0x0d, 0x06, 0x09, 0x60, 0x86, 0x48, 0x01,
                                    0x65, 0x03, 0x04, 0x02, 0x01, 0x05, 0x00, 0x04, 0x20]
    && em[|em| - 32..] == digest
  }

  /** The block that the public key opens a signature to. */
  function Opened(key: Key, signature: Bytes): Bytes
    requires key.n > 0
  {
    ToBytes(Pow(FromBytes(signature), key.e) % key.n, Size(key))
  }

  /** The verifier's side: section 8.2.2 of RFC 8017, which knows only n and e and takes the block apart. */
  predicate Verifies(key: Key, digest: Bytes, signature: Bytes)
    requires key.n > 0
  {
    && |signature| == Size(key) && FromBytes(signature) < key.n
    && Carries(Opened(key, signature), digest)
  }

  // ---------------------------------------------------------------- the size of the key

  lemma {:induction false} BitLengthBounds(n: nat)
    ensures n < Pow(2, BitLength(n))
    ensures n > 0 ==> BitLength(n) > 0 && Pow(2, BitLength(n) - 1) <= n
  {
    if n > 0 {
      BitLengthBounds(n / 2);
      assert Pow(2, BitLength(n)) == 2 * Pow(2, BitLength(n / 2));
      if n / 2 > 0 {
        assert Pow(2, BitLength(n) - 1) == 2 * Pow(2, BitLength(n / 2) - 1);
      }
    }
  }

  lemma PowBytes(k: nat)
    ensures Pow(256, k) == Pow(2, 8 * k)
  {
    assert Pow(2, 8) == 256 by { PowAdd(2, 4, 4); }
    PowMul(2, 8, k);
  }

  /** A key of `size` bytes lies between 256^(size-1) and 256^size. */
  lemma SizeBounds(key: Key)
    requires key.n > 0
    ensures Size(key) > 0
    ensures Pow(256, Size(key) - 1) <= key.n < Pow(256, Size(key))
  {
    var bits, size := BitLength(key.n), Size(key);
    BitLengthBounds(key.n);
    PowBytes(size);
    PowBytes(size - 1);
    PowMonotone(2, bits, 8 * size);
    PowMonotone(2, 8 * (size - 1), bits - 1);
  }

  lemma {:induction false} LeadingZero(b: Bytes)
    requires b != [] && b[0] == 0
    ensures FromBytes(b) < Pow(256, |b| - 1)
  {
    if |b| > 1 {
      LeadingZero(b[..|b| - 1]);
    }
  }

  /** The padded message is exactly `size` bytes and, as a number, below the modulus. */
  lemma EncodedBelowModulus(key: Key, digest: Bytes)
    requires key.n > 0 && Padding(Size(key), digest) >= 0
    ensures |Encode(Size(key), digest)| == Size(key)
    ensures FromBytes(Encode(Size(key), digest)) < key.n
  {
    SizeBounds(key);
    LeadingZero(Encode(Size(key), digest));
  }

  // ---------------------------------------------------------------- the Chinese remainder theorem

  lemma PrimesDiffer(key: Key)
    requires Consistent(key)
    ensures key.q % key.p != 0 && key.p % key.q != 0
  {
    var p, q := key.p, key.q;
    DivisionUnique(1, p, 0, 1);
    if q % p == 0 {
      SameMul(key.qinv, key.qinv, q, 0, p);
    }
    if p < q { DivisionUnique(p, q, 0, p); }
  }

  /** The recombined number has residue m1 modulo p and m2 modulo q, and lies in [0, n). */
  lemma RecombineResidues(key: Key, m1: int, m2: int)
    requires Consistent(key) && 0 <= m1 < key.p && 0 <= m2 < key.q
    ensures var s := Recombine(key, m1, m2);
            0 <= s < key.n && s % key.p == m1 && s % key.q == m2
  {
    var p, q, s := key.p, key.q, Recombine(key, m1, m2);
    var h := (key.qinv * (m1 - m2)) % p;
    RecombineRange(p, q, h, m2);
    assert h * q == q * h;
    SameByMultiple(s, m2, q, h);
    DivisionUnique(m2, q, 0, m2);
    SameRemainder(key.qinv * (m1 - m2), p);
    SameMul(h, key.qinv * (m1 - m2), q, q, p);
    assert (key.qinv * (m1 - m2)) * q == (key.qinv * q) * (m1 - m2);
    SameMul(key.qinv * q, 1, m1 - m2, m1 - m2, p);
    SameAdd(m2, m2, h * q, m1 - m2, p);
    DivisionUnique(m1, p, 0, m1);
  }

  lemma RecombineRange(p: int, q: int, h: int, m2: int)
    requires 0 <= h < p && 0 <= m2 < q
    ensures 0 <= m2 + h * q < p * q
  {
    assert 0 <= h * q <= (p - 1) * q;
    assert (p - 1) * q == p * q - q;
  }

  // Modulo one prime, the public exponent undoes the private one.
  lemma ExponentsInvert(x: int, s: int, e: nat, dx: nat, p: int)
    requires Prime(p) && e >= 1 && dx >= 1 && Same(e * dx, 1, p - 1)
    requires Same(s, Pow(x, dx), p)
    ensures Same(Pow(s, e), x, p)
  {
    SamePow(s, Pow(x, dx), e, p);
    PowMul(x, dx, e);
    assert dx * e == e * dx >= 1;
    FermatPower(x, e * dx, p);
  }

  /** For a consistent key the self-check cannot fail: s^e mod n is the padded message again. */
  lemma RecoversMessage(key: Key, x: nat)
    requires Consistent(key) && x < key.n
    ensures var s := Recombine(key, Pow(x, key.dp) % key.p, Pow(x, key.dq) % key.q);
            0 <= s < key.n && Pow(s, key.e) % key.n == x
  {
    var p, q := key.p, key.q;
    var m1, m2 := Pow(x, key.dp) % p, Pow(x, key.dq) % q;
    var s := Recombine(key, m1, m2);
    RecombineResidues(key, m1, m2);
    hide Recombine;
    ExponentsInvert(x, s, key.e, key.dp, p);
    ExponentsInvert(x, s, key.e, key.dq, q);
    PrimesDiffer(key);
    SameBoth(Pow(s, key.e), x, p, q);
    DivisionUnique(x, key.n, 0, x);
  }

  // ---------------------------------------------------------------- signing

  /** Which keys load: the product of their primes, and of 2048 bits at least. */
  lemma LoadsExactly(key: Key)
    ensures Load(key).Ok? <==> key.n == key.p * key.q && key.n >= Pow(2, 2047)
    ensures Load(key).Ok? ==> Load(key).value == key
  {
    var bits := BitLength(key.n);
    BitLengthBounds(key.n);
    if bits >= 2048 {
      PowMonotone(2, 2047, bits - 1);
    } else {
      PowMonotone(2, bits, 2047);
    }
  }

  /** A loaded key is large enough for the padding. */
  lemma LoadedIsLarge(key: Key, digest: Bytes)
    requires Load(key).Ok? && |digest| == 32
    ensures Padding(Size(key), digest) >= 8
  {
  }

  /** The padded message is one that a verifier takes apart again. */
  lemma EncodedCarries(size: nat, digest: Bytes)
    requires |digest| == 32 && Padding(size, digest) >= 8
    ensures Carries(Encode(size, digest), digest)
  {
    var em := Encode(size, digest);
    var pad := seq(Padding(size, digest), i => 0xff);
    assert em == [0, 1] + pad + [0] + DIGEST_INFO + digest;
    assert |em| - 52 == 2 + |pad|;
  }

  /**
   * With a key that loads and is consistent, signing any 32-byte digest succeeds, and the signature
   * is one that the RFC's verifier accepts for this digest.
   */
  lemma SigningSucceeds(key: Key, digest: Bytes)
    requires Load(key).Ok? && Consistent(key) && |digest| == 32
    ensures key.p > 0 && key.q > 0 && key.n > 0
    ensures Sign(key, digest).Ok?
    ensures Verifies(key, digest, Sign(key, digest).value)
  {
    assert key.n > 0;
    LoadedIsLarge(key, digest);
    EncodedBelowModulus(key, digest);
    var encoded := FromBytes(Encode(Size(key), digest));
    RecoversMessage(key, encoded);
    SignatureIsSound(key, digest);
  }

  lemma RecombineNonNegative(key: Key, m1: int, m2: int)
    requires key.p > 0 && key.q > 0 && 0 <= m2 < key.q && key.n == key.p * key.q
    ensures 0 <= Recombine(key, m1, m2) < key.n
  {
    RecombineRange(key.p, key.q, (key.qinv * (m1 - m2)) % key.p, m2);
  }

  // What the self-check has established about a number that leaves `Sign`.
  lemma CheckedVerifies(key: Key, digest: Bytes, s: nat)
    requires key.n > 0 && |digest| == 32 && Padding(Size(key), digest) >= 8
    requires s < key.n && Pow(s, key.e) % key.n == FromBytes(Encode(Size(key), digest))
    ensures Verifies(key, digest, ToBytes(s, Size(key)))
  {
    SizeBounds(key);
    hide Size, Carries;
    FromTo(s, Size(key));
    EncodedCarries(Size(key), digest);
    ToFrom(Encode(Size(key), digest));
    hide Encode;
  }

  /** Whatever the exponents are, a signature that leaves `Sign` verifies: a faulty one is never released. */
  lemma SignatureIsSound(key: Key, digest: Bytes)
    requires Load(key).Ok? && key.p > 0 && key.q > 0 && key.n > 0 && |digest| == 32
    ensures Sign(key, digest).Ok? ==> Verifies(key, digest, Sign(key, digest).value)
    ensures Sign(key, digest).Err? ==> Sign(key, digest).error == SelfCheckFailed
  {
    LoadedIsLarge(key, digest);
    SizeBounds(key);
    var encoded := FromBytes(Encode(Size(key), digest));
    var m1, m2 := Pow(encoded, key.dp) % key.p, Pow(encoded, key.dq) % key.q;
    RecombineNonNegative(key, m1, m2);
    var s := Recombine(key, m1, m2);
    hide Recombine, Encode, Verifies;
    if Sign(key, digest).Ok? { CheckedVerifies(key, digest, s); }
  }

  /** A key is too small to sign with exactly if its modulus has fewer than 62 bytes. */
  lemma TooSmallExactly(key: Key, digest: Bytes)
    requires key.p > 0 && key.q > 0 && key.n > 0 && |digest| == 32
    ensures Sign(key, digest) == Err(KeyTooSmall) <==> key.n < Pow(256, 61)
  {
    SizeBounds(key);
    var size := Size(key);
    hide Encode, Recombine, Size;
    if size < 62 { PowMonotone(256, size, 61); } else { PowMonotone(256, 61, size - 1); }
  }

  /** One signature is good for one digest only. */
  lemma OneDigest(key: Key, a: Bytes, b: Bytes, signature: Bytes)
    requires key.n > 0 && Verifies(key, a, signature) && Verifies(key, b, signature)
    ensures a == b
  {
  }

  /** So different digests get different signatures. */
  lemma SignaturesDiffer(key: Key, a: Bytes, b: Bytes)
    requires Load(key).Ok? && Consistent(key) && |a| == 32 && |b| == 32 && a != b
    ensures key.p > 0 && key.q > 0 && key.n > 0
    ensures Sign(key, a).Ok? && Sign(key, b).Ok? && Sign(key, a).value != Sign(key, b).value
  {
    hide Sign, Verifies;
    SigningSucceeds(key, a);
    SigningSucceeds(key, b);
    if Sign(key, a).value == Sign(key, b).value { OneDigest(key, a, b, Sign(key, a).value); }
  }
}
