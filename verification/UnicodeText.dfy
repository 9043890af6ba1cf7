/** Text as Python sees it, as far as the checks need it. */
module UnicodeText {
  import opened Prelude

  /** Python's `str.isspace`, character by character. */
  predicate Space(c: char) {
    var n := c as int;
    || 0x09 <= n <= 0x0d || 0x1c <= n <= 0x20 || n == 0x85 || n == 0xa0 || n == 0x1680 || 0x2000 <= n <= 0x200a
    || n == 0x2028 || n == 0x2029 || n == 0x202f || n == 0x205f || n == 0x3000
  }

  predicate Blank(s: string) {
    forall i :: 0 <= i < |s| ==> Space(s[i])
  }

  /** Bytes of the UTF-8 form. */
  function Utf8Size(s: string): nat {
    if s == [] then 0
    else
      var n := s[|s| - 1] as int;
      Utf8Size(s[..|s| - 1]) + if n < 0x80 then 1 else if n < 0x800 then 2 else if n < 0x10000 then 3 else 4
  }

  // ---------------------------------------------------------------- what the size counts

  /** The UTF-8 form of one code point (section 3 of RFC 3629). */
  function Utf8(n: int): (b: Bytes)
    requires 0 <= n < 0x11_0000
  {
    if n < 0x80 then [n]
    else if n < 0x800 then [0xc0 + n / 64, 0x80 + n % 64]
    else if n < 0x1_0000 then [0xe0 + n / 4096, 0x80 + n / 64 % 64, 0x80 + n % 64]
    else [0xf0 + n / 262144, 0x80 + n / 4096 % 64, 0x80 + n / 64 % 64, 0x80 + n % 64]
  }

  // What a decoder does: the first byte tells how many bytes there are, and each of the others adds six bits.
  function Length(first: Byte): nat {
    if first < 0xc0 then 1 else if first < 0xe0 then 2 else if first < 0xf0 then 3 else 4
  }

  function CodePoint(b: Bytes): int
    requires 1 <= |b| <= 4
  {
    if |b| == 1 then b[0] as int
    else if |b| == 2 then (b[0] as int - 0xc0) * 64 + (b[1] as int - 0x80)
    else if |b| == 3 then ((b[0] as int - 0xe0) * 64 + (b[1] as int - 0x80)) * 64 + (b[2] as int - 0x80)
    else (((b[0] as int - 0xf0) * 64 + (b[1] as int - 0x80)) * 64 + (b[2] as int - 0x80)) * 64 + (b[3] as int - 0x80)
  }

  /** Every code point reads back from its form. */
  lemma Utf8ReadsBack(n: int)
    requires 0 <= n < 0x11_0000
    ensures 1 <= |Utf8(n)| <= 4 && Length(Utf8(n)[0]) == |Utf8(n)| && CodePoint(Utf8(n)) == n
  {
    assert n == 64 * (n / 64) + n % 64;
    assert n / 64 == 64 * (n / 64 / 64) + n / 64 % 64;
    assert n / 64 / 64 == 64 * (n / 64 / 64 / 64) + n / 64 / 64 % 64;
    assert n / 4096 == n / 64 / 64 && n / 262144 == n / 64 / 64 / 64;
  }

  function Encoded(s: string): Bytes {
    if s == [] then [] else Encoded(s[..|s| - 1]) + Utf8(s[|s| - 1] as int)
  }

  lemma {:induction false} SizeIsEncoded(s: string)
    ensures Utf8Size(s) == |Encoded(s)|
  {
    if s != [] { SizeIsEncoded(s[..|s| - 1]); }
  }

  /** The 29 characters that Python takes for white space. */
  lemma SpacesAre(c: char)
    ensures Space(c) <==>
            c as int in {9, 10, 11, 12, 13, 28, 29, 30, 31, 32, 133, 160, 5760, 8192, 8193, 8194, 8195, 8196, 8197, 8198, 8199,
                         8200, 8201, 8202, 8232, 8233, 8239, 8287, 12288}
  {
  }
}
