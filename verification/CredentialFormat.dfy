/** The bearer credential text `ext1_ID.SECRET` and the length-prefixed framing that is hashed. */
module CredentialFormat {
  import opened Prelude
  import opened BigEndian

  const PREFIX := "ext1_"

  predicate HexDigit(c: char) {
    '0' <= c <= '9' || 'a' <= c <= 'f'
  }

  predicate Hex(v: string, len: nat) {
    |v| == len && forall i :: 0 <= i < |v| ==> HexDigit(v[i])
  }

  /** Position of the first `c`, as `split_once` looks for it. */
  function FirstIndex(v: string, c: char): (i: Option<nat>)
    ensures i.Some? ==> i.value < |v| && v[i.value] == c && c !in v[..i.value]
    ensures i.None? ==> c !in v
  {
    if v == [] then None
    else if v[0] == c then Some(0)
    else match FirstIndex(v[1..], c)
      case None => None
      case Some(k) => assert v[..k + 1] == [v[0]] + v[1..][..k]; Some(k + 1)
  }

  function Parse(value: string): (r: Option<(string, string)>) {
    if |value| != 102 || !(PREFIX <= value) then None
    else
      var body := value[|PREFIX|..];
      match FirstIndex(body, '.')
      case None => None
      case Some(k) =>
        var id, secret := body[..k], body[k + 1..];
        if Hex(id, 32) && Hex(secret, 64) then Some((id, secret)) else None
  }

  function Format(id: string, secret: string): (r: string) {
    PREFIX + id + "." + secret
  }

  /** `parse` accepts exactly the texts that minting prints, and reads back what was printed. */
  lemma ParseInvertsFormat(value: string, id: string, secret: string)
    ensures Parse(value) == Some((id, secret)) <==>
            Hex(id, 32) && Hex(secret, 64) && value == Format(id, secret)
  {
    if Hex(id, 32) && Hex(secret, 64) && value == Format(id, secret) {
      var body := value[|PREFIX|..];
      assert body == id + "." + secret;
      assert body[..32] == id && body[33..] == secret && body[32] == '.';
      assert forall i :: 0 <= i < 32 ==> body[i] == id[i];
      var at := FirstIndex(body, '.');
      assert body[32] in body;
      assert at == Some(32);
    }
    if Parse(value) == Some((id, secret)) {
      var body := value[|PREFIX|..];
      var k := FirstIndex(body, '.').value;
      assert body == body[..k] + "." + body[k + 1..];
      assert value == PREFIX + body;
    }
  }

  /** The bytes `hash` feeds to SHA-256: each part after its length in eight bytes. */
  function Frame(parts: seq<Bytes>): (r: Bytes) {
    if parts == [] then [] else ToBytes(|parts[0]|, 8) + parts[0] + Frame(parts[1..])
  }

  /**
   * Different part lists are framed differently, whatever bytes the parts hold, so equal digests
   * mean equal parts when the digest is collision free.
   */
  lemma {:induction false} FrameInjective(a: seq<Bytes>, b: seq<Bytes>)
    requires forall p :: p in a || p in b ==> |p| < Pow(256, 8)
    requires Frame(a) == Frame(b)
    ensures a == b
  {
    if a != [] && b != [] {
      FrameHead(a);
      FrameHead(b);
      assert ToBytes(|a[0]|, 8) == ToBytes(|b[0]|, 8);
      FromTo(|a[0]|, 8);
      FromTo(|b[0]|, 8);
      assert a[0] == Frame(a)[8..8 + |a[0]|] == Frame(b)[8..8 + |b[0]|] == b[0];
      assert Frame(a[1..]) == Frame(a)[8 + |a[0]|..] == Frame(b)[8 + |b[0]|..] == Frame(b[1..]);
      FrameInjective(a[1..], b[1..]);
      assert a == [a[0]] + a[1..] && b == [b[0]] + b[1..];
    }
  }

  lemma FrameHead(a: seq<Bytes>)
    requires a != []
    ensures |Frame(a)| >= 8 + |a[0]|
    ensures Frame(a)[..8] == ToBytes(|a[0]|, 8)
    ensures Frame(a)[8..8 + |a[0]|] == a[0]
    ensures Frame(a)[8 + |a[0]|..] == Frame(a[1..])
  {
  }
}
