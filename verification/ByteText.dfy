/** Byte strings as Python handles them: hexadecimal numbers, stripping, splitting. */
module ByteText {
  import opened Prelude
  import BigEndian

  const SPACE: Byte := 0x20
  const NEWLINE: Byte := 0x0a
  const CR: Byte := 0x0d
  const UNDERSCORE: Byte := 0x5f

  function Ascii(s: string): (r: Bytes)
    ensures |r| == |s|
  {
    seq(|s|, i requires 0 <= i < |s| => s[i] as int % 256)
  }

  function Flatten(parts: seq<Bytes>): Bytes {
    if parts == [] then [] else parts[0] + Flatten(parts[1..])
  }

  lemma {:induction false} FlattenAppend(a: seq<Bytes>, b: seq<Bytes>)
    ensures Flatten(a + b) == Flatten(a) + Flatten(b)
  {
    if a == [] {
      assert a + b == b;
    } else {
      FlattenAppend(a[1..], b);
      assert (a + b)[1..] == a[1..] + b;
      Regroup(a[0], Flatten(a[1..]), Flatten(b));
    }
  }

  /** Blocks of `size` bytes, the last one perhaps shorter. */
  function Pieces(data: Bytes, size: nat): (r: seq<Bytes>)
    requires size > 0
    ensures Flatten(r) == data
    ensures forall p :: p in r ==> |p| <= size
    decreases |data|
  {
    if data == [] then []
    else if |data| <= size then
      assert [data][1..] == [];
      [data]
    else
      var rest := Pieces(data[size..], size);
      assert data == data[..size] + data[size..];
      assert ([data[..size]] + rest)[1..] == rest;
      [data[..size]] + rest
  }

  lemma Regroup(a: Bytes, b: Bytes, c: Bytes)
    ensures a + (b + c) == a + b + c
  {
  }

  lemma Slice(before: Bytes, mid: Bytes, rest: Bytes, i: nat, j: nat)
    requires i <= j <= |mid|
    ensures (before + mid + rest)[|before| + i..|before| + j] == mid[i..j]
  {
  }

  // ---------------------------------------------------------------- Python int(text, 16)

  function HexValue(c: Byte): (v: Option<int>)
    ensures v.Some? ==> 0 <= v.value < 16
  {
    if 0x30 <= c <= 0x39 then Some(c - 0x30)
    else if 0x61 <= c <= 0x66 then Some(c - 0x61 + 10)
    else if 0x41 <= c <= 0x46 then Some(c - 0x41 + 10)
    else None
  }

  // C isspace, which `int` strips from bytes.
  predicate Blank(c: Byte) {
    c == SPACE || 0x09 <= c <= 0x0d
  }

  function StripLeft(b: Bytes): (r: Bytes) {
    if b != [] && Blank(b[0]) then StripLeft(b[1..]) else b
  }

  function StripRight(b: Bytes): (r: Bytes) {
    if b != [] && Blank(b[|b| - 1]) then StripRight(b[..|b| - 1]) else b
  }

  // Digits with single underscores between them; `open` says that the last character was a digit.
  function Digits(b: Bytes, open: bool, value: int): (r: Option<int>) {
    if b == [] then if open then Some(value) else None
    else if b[0] == UNDERSCORE then if open then Digits(b[1..], false, value) else None
    else match HexValue(b[0])
      case None => None
      case Some(v) => Digits(b[1..], true, 16 * value + v)
  }

  function Unsigned(b: Bytes): (r: Option<int>) {
    if |b| >= 2 && b[0] == 0x30 && (b[1] == 0x78 || b[1] == 0x58) then
      var rest := b[2..];
      if rest != [] && rest[0] == UNDERSCORE then Digits(rest[1..], false, 0) else Digits(rest, false, 0)
    else Digits(b, false, 0)
  }

  /** `int(text, 16)`, with the blanks, signs, prefix and underscores it lets through; None is a ValueError. */
  function PyHex(text: Bytes): (r: Option<int>) {
    Number(StripRight(StripLeft(text)))
  }

  function Number(b: Bytes): (r: Option<int>) {
    if b != [] && b[0] == 0x2b then Unsigned(b[1..])
    else if b != [] && b[0] == 0x2d then
      match Unsigned(b[1..])
      case None => None
      case Some(v) => Some(-v)
    else Unsigned(b)
  }

  // ---------------------------------------------------------------- printing

  function HexChar(v: int): (c: Byte)
    requires 0 <= v < 16
    ensures HexValue(c) == Some(v) && !Blank(c) && c != UNDERSCORE
    ensures c != 0x2b && c != 0x2d && c != 0x78 && c != 0x58 && c != 0x3b
  {
    if v < 10 then 0x30 + v else 0x61 + (v - 10)
  }

  /** `format(n, "x")`. */
  function HexText(n: nat): (r: Bytes)
    ensures |r| >= 1
    ensures forall i :: 0 <= i < |r| ==> PlainDigit(r[i])
  {
    if n < 16 then [HexChar(n)] else HexText(n / 16) + [HexChar(n % 16)]
  }

  // A character that every reader below takes as a digit and nothing else.
  predicate PlainDigit(c: Byte) {
    && HexValue(c).Some? && !Blank(c) && c != UNDERSCORE
    && c != 0x2b && c != 0x2d && c != 0x78 && c != 0x58 && c != 0x3b
  }

  /** `format(n, "04x")`. */
  function Hex4(n: nat): (r: Bytes)
    ensures |r| >= 4
    ensures forall i :: 0 <= i < |r| ==> PlainDigit(r[i])
  {
    var text := HexText(n);
    if |text| >= 4 then text else seq(4 - |text|, i => 0x30) + text
  }

  lemma {:induction false} DigitsAppend(a: Bytes, c: Byte, open: bool, value: int)
    requires forall i :: 0 <= i < |a| ==> PlainDigit(a[i])
    requires PlainDigit(c)
    ensures a != [] ==> Digits(a, open, value).Some?
    ensures Digits(a + [c], open, value) ==
            Some(16 * (if a == [] then value else Digits(a, open, value).value) + HexValue(c).value)
  {
    if a == [] {
      assert a + [c] == [c];
      assert [c][1..] == [];
    } else {
      var next := 16 * value + HexValue(a[0]).value;
      DigitsAppend(a[1..], c, true, next);
      assert (a + [c])[1..] == a[1..] + [c];
    }
  }

  lemma {:induction false} DigitsOfText(n: nat)
    ensures Digits(HexText(n), false, 0) == Some(n)
  {
    if n < 16 {
      assert [HexChar(n)][1..] == [];
    } else {
      DigitsOfText(n / 16);
      DigitsAppend(HexText(n / 16), HexChar(n % 16), false, 0);
    }
  }

  lemma PlainDigits(b: Bytes)
    requires |b| >= 1 && forall i :: 0 <= i < |b| ==> PlainDigit(b[i])
    ensures PyHex(b) == Digits(b, false, 0)
  {
  }

  lemma {:induction false} ZeroPad(k: nat, b: Bytes, open: bool)
    requires b != [] && forall i :: 0 <= i < |b| ==> PlainDigit(b[i])
    ensures Digits(seq(k, i => 0x30) + b, open, 0) == Digits(b, open, 0)
    decreases k
  {
    if k == 0 {
      assert seq(k, i => 0x30) + b == b;
    } else {
      var padded: Bytes := seq(k, i => 0x30) + b;
      assert padded[1..] == seq(k - 1, i => 0x30) + b;
      ZeroPad(k - 1, b, true);
      assert Digits(b, true, 0) == Digits(b, open, 0);
    }
  }

  /** Reading back a printed number gives the number, padded or not. */
  lemma HexRoundTrip(n: nat)
    ensures PyHex(HexText(n)) == Some(n)
    ensures PyHex(Hex4(n)) == Some(n)
  {
    PlainDigits(HexText(n));
    PlainDigits(Hex4(n));
    DigitsOfText(n);
    if |HexText(n)| < 4 { ZeroPad(4 - |HexText(n)|, HexText(n), false); }
  }

  lemma {:induction false} StripLeftBlanks(a: Bytes, b: Bytes)
    requires (forall i :: 0 <= i < |a| ==> Blank(a[i])) && (b != [] ==> !Blank(b[0]))
    ensures StripLeft(a + b) == b
  {
    if a == [] {
      assert a + b == b;
    } else {
      StripLeftBlanks(a[1..], b);
      assert (a + b)[1..] == a[1..] + b && (a + b)[0] == a[0];
    }
  }

  lemma {:induction false} StripRightBlanks(a: Bytes, b: Bytes)
    requires (forall i :: 0 <= i < |b| ==> Blank(b[i])) && (a != [] ==> !Blank(a[|a| - 1]))
    ensures StripRight(a + b) == a
    decreases |b|
  {
    if b == [] {
      assert a + b == a;
    } else {
      StripRightBlanks(a, b[..|b| - 1]);
      assert (a + b)[..|a + b| - 1] == a + b[..|b| - 1] && (a + b)[|a + b| - 1] == b[|b| - 1];
    }
  }

  function Signed(sign: Bytes, n: int): int {
    if sign == [0x2d] then -n else n
  }

  lemma SignedNumber(sign: Bytes, digits: Bytes, n: nat)
    requires sign in [[], [0x2b], [0x2d]] && Unsigned(digits) == Some(n)
    requires digits != [] && digits[0] != 0x2b && digits[0] != 0x2d
    ensures Number(sign + digits) == Some(Signed(sign, n))
  {
    hide Unsigned;
    assert sign == [] ==> sign + digits == digits;
    assert sign != [] ==> (sign + digits)[1..] == digits;
  }

  /** What else `int(text, 16)` reads: a sign, a prefix and blanks around the digits. */
  lemma LooseHex(left: Bytes, sign: Bytes, prefix: Bytes, n: nat, right: Bytes)
    requires (forall i :: 0 <= i < |left| ==> Blank(left[i])) && (forall i :: 0 <= i < |right| ==> Blank(right[i]))
    requires sign in [[], [0x2b], [0x2d]] && prefix in [[], [0x30, 0x78], [0x30, 0x58]]
    ensures PyHex(left + (sign + (prefix + HexText(n)) + right)) == Some(Signed(sign, n))
  {
    hide HexText, Number, Unsigned, StripLeft, StripRight;
    var digits := prefix + HexText(n);
    var body := sign + digits;
    LooseDigits(prefix, n);
    SignedNumber(sign, digits, n);
    assert PlainDigit(HexText(n)[|HexText(n)| - 1]);
    assert body[|body| - 1] == HexText(n)[|HexText(n)| - 1];
    assert body[0] == if sign == [] then digits[0] else sign[0];
    StripLeftBlanks(left, body + right);
    StripRightBlanks(body, right);
  }

  lemma LooseDigits(prefix: Bytes, n: nat)
    requires prefix in [[], [0x30, 0x78], [0x30, 0x58]]
    ensures Unsigned(prefix + HexText(n)) == Some(n)
    ensures var digits := prefix + HexText(n); digits != [] && digits[0] != 0x2b && digits[0] != 0x2d && !Blank(digits[0])
  {
    DigitsOfText(n);
    assert PlainDigit(HexText(n)[0]);
    var digits := prefix + HexText(n);
    if prefix == [] {
      assert digits == HexText(n);
      if |digits| >= 2 { assert PlainDigit(HexText(n)[1]); }
    } else {
      assert digits[2..] == HexText(n);
    }
  }

  /** And single underscores between digits. */
  lemma {:induction false} DigitsUnder(a: Bytes, b: Bytes, open: bool, value: int)
    requires a != [] && forall i :: 0 <= i < |a| ==> PlainDigit(a[i])
    ensures Digits(a, open, value).Some?
    ensures Digits(a + [UNDERSCORE] + b, open, value) == Digits(b, false, Digits(a, open, value).value)
  {
    var next := 16 * value + HexValue(a[0]).value;
    var whole := a + [UNDERSCORE] + b;
    assert PlainDigit(a[0]) && whole[0] == a[0] && whole[1..] == a[1..] + [UNDERSCORE] + b;
    if |a| > 1 {
      DigitsUnder(a[1..], b, true, next);
    } else {
      assert a[1..] == [] && whole[1..] == [UNDERSCORE] + b && ([UNDERSCORE] + b)[1..] == b;
    }
  }

  lemma {:induction false} HexTextLength(n: nat, k: nat)
    requires k >= 1 && n < BigEndian.Pow(16, k)
    ensures |HexText(n)| <= k
  {
    if n >= 16 { HexTextLength(n / 16, k - 1); }
  }

  lemma Hex4Width(n: nat)
    requires n < 0x1_0000
    ensures |Hex4(n)| == 4
  {
    assert BigEndian.Pow(16, 4) == 0x1_0000 by { assert BigEndian.Pow(16, 2) == 256; }
    HexTextLength(n, 4);
  }

  // ---------------------------------------------------------------- splitting

  /** `b.partition(sep)`: the part before the first `sep`, and the part after it. */
  function Partition(b: Bytes, sep: Byte): (r: (Bytes, Bytes))
    ensures sep !in r.0
    ensures if sep in b then b == r.0 + [sep] + r.1 else r == (b, [])
  {
    if b == [] then ([], [])
    else if b[0] == sep then ([], b[1..])
    else
      var (head, tail) := Partition(b[1..], sep);
      assert b == [b[0]] + b[1..];
      ([b[0]] + head, tail)
  }

  lemma {:induction false} PartitionAt(a: Bytes, sep: Byte, b: Bytes)
    requires sep !in a
    ensures Partition(a + [sep] + b, sep) == (a, b)
  {
    var whole := a + [sep] + b;
    if a == [] {
      assert whole == [sep] + b;
    } else {
      PartitionAt(a[1..], sep, b);
      assert a == [a[0]] + a[1..] && whole[0] == a[0] && a[0] in a;
      assert whole[1..] == a[1..] + [sep] + b;
    }
  }

  /** `b.split(sep)`. */
  function Split(b: Bytes, sep: Byte): (r: seq<Bytes>)
    ensures |r| >= 1
    decreases |b|
  {
    var (head, tail) := Partition(b, sep);
    if sep in b then [head] + Split(tail, sep) else [head]
  }

  lemma SplitThree(a: Bytes, b: Bytes, c: Bytes)
    requires SPACE !in a && SPACE !in b && SPACE !in c
    ensures Split(a + [SPACE] + (b + [SPACE] + c), SPACE) == [a, b, c]
  {
    var tail := b + [SPACE] + c;
    PartitionAt(a, SPACE, tail);
    PartitionAt(b, SPACE, c);
    assert (a + [SPACE] + tail)[|a|] == SPACE && tail[|b|] == SPACE;
    hide Partition;
    assert Split(c, SPACE) == [c];
    assert Split(tail, SPACE) == [b] + [c];
  }

  function RStrip(b: Bytes, c: Byte): (r: Bytes)
    ensures r <= b && (r != [] ==> r[|r| - 1] != c)
  {
    if b != [] && b[|b| - 1] == c then RStrip(b[..|b| - 1], c) else b
  }

  // Characters `str.split` and `str.strip` treat as white space, within ASCII.
  predicate White(c: Byte) {
    c == SPACE || 0x09 <= c <= 0x0d || 0x1c <= c <= 0x1f
  }

  function WordEnd(b: Bytes): (n: nat)
    ensures n <= |b|
  {
    if b == [] || White(b[0]) then 0 else 1 + WordEnd(b[1..])
  }

  /** The set of `b.split()`. */
  function Words(b: Bytes): (r: set<Bytes>)
    decreases |b|
  {
    if b == [] then {}
    else if White(b[0]) then Words(b[1..])
    else {b[..WordEnd(b)]} + Words(b[WordEnd(b)..])
  }
}
