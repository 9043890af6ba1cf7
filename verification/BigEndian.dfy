/** Powers, and fixed-width big-endian byte strings (Rust `to_be_bytes`, Python `int.from_bytes` and `to_bytes`). */
module BigEndian {
  import opened Prelude

  function Pow(b: int, e: nat): (r: int) {
    if e == 0 then 1 else b * Pow(b, e - 1)
  }

  lemma {:induction false} PowPositive(b: int, e: nat)
    requires b > 0
    ensures Pow(b, e) > 0
  {
    if e > 0 { PowPositive(b, e - 1); }
  }

  lemma {:induction false} PowAdd(b: int, e: nat, f: nat)
    ensures Pow(b, e + f) == Pow(b, e) * Pow(b, f)
  {
    if e > 0 {
      PowAdd(b, e - 1, f);
      calc {
        Pow(b, e + f);
        b * Pow(b, e - 1 + f);
        b * (Pow(b, e - 1) * Pow(b, f));
        (b * Pow(b, e - 1)) * Pow(b, f);
      }
    }
  }

  lemma {:induction false} PowMonotone(b: int, e: nat, f: nat)
    requires b > 0 && e <= f
    ensures Pow(b, e) <= Pow(b, f)
  {
    if e < f {
      PowMonotone(b, e, f - 1);
      PowPositive(b, f - 1);
      assert b * Pow(b, f - 1) >= 1 * Pow(b, f - 1);
    }
  }

  /** `n` written in `width` bytes, most significant first. */
  function ToBytes(n: nat, width: nat): (r: Bytes)
    ensures |r| == width
  {
    if width == 0 then [] else ToBytes(n / 256, width - 1) + [n % 256]
  }

  function FromBytes(b: Bytes): (n: nat) {
    if b == [] then 0 else 256 * FromBytes(b[..|b| - 1]) + b[|b| - 1]
  }

  lemma {:induction false} FromTo(n: nat, width: nat)
    requires n < Pow(256, width)
    ensures FromBytes(ToBytes(n, width)) == n
  {
    if width > 0 {
      var high := ToBytes(n / 256, width - 1);
      FromTo(n / 256, width - 1);
      assert ToBytes(n, width)[..width - 1] == high;
    }
  }

  lemma {:induction false} ToFrom(b: Bytes)
    ensures ToBytes(FromBytes(b), |b|) == b
  {
    if b != [] {
      var rest, last := b[..|b| - 1], b[|b| - 1];
      ToFrom(rest);
      assert FromBytes(b) / 256 == FromBytes(rest) && FromBytes(b) % 256 == last;
      assert b == rest + [last];
    }
  }
}
