/**
 * Request bodies framed by Content-Length or by the chunked coding (section 7.1 of RFC 9112): the
 * gateway's own printer, and the reader with its byte cap.
 */
module HttpBody {
  import opened Prelude
  import opened ByteText

  const CHUNK: nat := 64 * 1024
  const CRLF: Bytes := [CR, NEWLINE]
  const MAX_SIZE_LINE: nat := 1024
  const SEMICOLON: Byte := 0x3b

  datatype Error = ShortRequest | InvalidChunk | BadReadLength | TooLarge

  /** What a reader yields in all, and where it stops reading. */
  datatype Outcome = Done(out: Bytes, pos: nat) | Failed(out: Bytes, error: Error)

  function Prepend(data: Bytes, o: Outcome): Outcome {
    o.(out := data + o.out)
  }

  // ---------------------------------------------------------------- printing

  function ChunkOf(block: Bytes): (r: Bytes) {
    HexText(|block|) + CRLF + block + CRLF
  }

  // The size line of the block is no longer than the reader takes.
  predicate SizeFits(block: Bytes) {
    |HexText(|block|)| + 2 <= 1024
  }

  const LAST_CHUNK: Bytes := [0x30] + CRLF + CRLF

  /** What `upstream` sends for a chunked body; empty blocks are skipped. */
  function Encode(blocks: seq<Bytes>): (r: Bytes) {
    if blocks == [] then LAST_CHUNK
    else if blocks[0] == [] then Encode(blocks[1..])
    else ChunkOf(blocks[0]) + Encode(blocks[1..])
  }

  method SendChunked(blocks: seq<Bytes>) returns (sent: Bytes)
    ensures sent == Encode(blocks)
  {
    hide ChunkOf;
    sent := [];
    var i := 0;
    while i < |blocks|
      invariant 0 <= i <= |blocks|
      invariant Encode(blocks) == sent + Encode(blocks[i..])
    {
      if blocks[i] != [] {
        Regroup(sent, ChunkOf(blocks[i]), Encode(blocks[i + 1..]));
        sent := sent + ChunkOf(blocks[i]);
      }
      i := i + 1;
    }
    sent := sent + LAST_CHUNK;
  }

  // ---------------------------------------------------------------- the input stream

  /** Length of `readline(n)` at `pos`: up to and including a newline, at most n bytes. */
  function LineLength(data: Bytes, pos: nat, n: nat): (k: nat)
    requires pos <= |data|
    ensures pos + k <= |data| && k <= n
    ensures pos < |data| && n > 0 ==> k > 0
    decreases n
  {
    if n == 0 || pos == |data| then 0
    else if data[pos] == NEWLINE then 1
    else 1 + LineLength(data, pos + 1, n - 1)
  }

  /** Length of `read(n)` at `pos`. */
  function ReadLength(data: Bytes, pos: nat, n: nat): (k: nat)
    requires pos <= |data|
    ensures pos + k <= |data| && k <= n
  {
    if n <= |data| - pos then n else |data| - pos
  }

  function Least(a: nat, b: nat): nat {
    if a < b then a else b
  }

  // ---------------------------------------------------------------- reading

  function ChunkSize(line: Bytes): (r: Option<int>) {
    PyHex(Partition(line, SEMICOLON).0)
  }

  function SkipTrailers(data: Bytes, pos: nat): (p: nat)
    requires pos <= |data|
    ensures pos <= p <= |data|
    decreases |data| - pos
  {
    var k := LineLength(data, pos, 8192);
    var line := data[pos..pos + k];
    if line == CRLF || line == [NEWLINE] || line == [] then pos + k else SkipTrailers(data, pos + k)
  }

  /** Everything a chunked body still yields when the next chunk's size line is due. */
  function Chunked(data: Bytes, pos: nat, total: nat, limit: nat): (o: Outcome)
    requires pos <= |data|
    decreases |data| - pos, 1
  {
    var k := LineLength(data, pos, MAX_SIZE_LINE);
    if k == 0 then Failed([], ShortRequest)
    else
      match ChunkSize(data[pos..pos + k])
      case None => Failed([], InvalidChunk)
      case Some(size) =>
        if size == 0 then Done([], SkipTrailers(data, pos + k))
        else if size < 0 then ToEnd(data, pos + k, size, total, limit)
        else InChunk(data, pos + k, size, total, limit)
  }

  /**
   * A negative chunk size: a buffered reader takes -1 as "to the end" and refuses any other negative
   * length, also the one that is left after what -1 has read.
   */
  function ToEnd(data: Bytes, pos: nat, left: int, total: nat, limit: nat): (o: Outcome)
    requires pos <= |data| && left < 0
  {
    if left < -1 then Failed([], BadReadLength)
    else if pos == |data| then Failed([], ShortRequest)
    else if total + (|data| - pos) > limit then Failed([], TooLarge)
    else Failed(data[pos..], BadReadLength)
  }

  /** The same with `left` bytes of the current chunk to come. */
  function InChunk(data: Bytes, pos: nat, left: nat, total: nat, limit: nat): (o: Outcome)
    requires pos <= |data| && left > 0
    decreases |data| - pos, 0
  {
    var n := ReadLength(data, pos, Least(CHUNK, left));
    if n == 0 then Failed([], ShortRequest)
    else if total + n > limit then Failed([], TooLarge)
    else if left == n then
      Prepend(data[pos..pos + n], Chunked(data, AfterChunk(data, pos + n), total + n, limit))
    else
      Prepend(data[pos..pos + n], InChunk(data, pos + n, left - n, total + n, limit))
  }

  // The line end after a chunk's data is read and not looked at.
  function AfterChunk(data: Bytes, pos: nat): (p: nat)
    requires pos <= |data|
    ensures pos <= p <= |data|
  {
    pos + LineLength(data, pos, 16)
  }

  /** Everything a body with a length still yields. */
  function Fixed(data: Bytes, pos: nat, remaining: nat, total: nat, limit: nat): (o: Outcome)
    requires pos <= |data|
    decreases remaining
  {
    if remaining == 0 then Done([], pos)
    else
      var n := ReadLength(data, pos, Least(CHUNK, remaining));
      if n == 0 then Failed([], ShortRequest)
      else if total + n > limit then Failed([], TooLarge)
      else Prepend(data[pos..pos + n], Fixed(data, pos + n, remaining - n, total + n, limit))
  }

  // ---------------------------------------------------------------- the reader object

  datatype Item = Piece(data: Bytes) | End | Problem(error: Error)

  class Body {
    const data: Bytes
    const limit: nat
    const chunked: bool
    var pos: nat
    var total: nat
    var remaining: nat
    var chunkLeft: int
    var finished: bool

    ghost predicate Valid()
      reads this
    {
      pos <= |data|
    }

    /** All that is still to come. */
    ghost function Rest(): Outcome
      reads this
      requires Valid()
    {
      if !chunked then Fixed(data, pos, remaining, total, limit)
      else if chunkLeft == 0 then Chunked(data, pos, total, limit)
      else if chunkLeft < 0 then ToEnd(data, pos, chunkLeft, total, limit)
      else InChunk(data, pos, chunkLeft, total, limit)
    }

    constructor (data: Bytes, limit: nat, chunked: bool, length: nat)
      requires !chunked ==> length <= limit
      ensures Valid() && this.data == data && this.limit == limit && !finished && this.chunked == chunked
      ensures Rest() == if chunked then Chunked(data, 0, 0, limit) else Fixed(data, 0, length, 0, limit)
    {
      this.data, this.limit, this.chunked := data, limit, chunked;
      pos, total, chunkLeft, finished := 0, 0, 0, false;
      remaining := if chunked then 0 else length;
    }

    /** Run the iterator to its next yield, its end or an error. */
    method Next() returns (r: Item)
      requires Valid() && !finished
      modifies this
      ensures Valid()
      ensures r.Piece? ==> r.data != [] && old(Rest()) == Prepend(r.data, Rest()) && !finished
      ensures r.Piece? ==> pos > old(pos)
      ensures r.Piece? ==> |r.data| <= |data| && (old(Rest()).Done? ==> |r.data| <= 65536)
      ensures r.End? ==> old(Rest()) == Done([], pos) && finished
      ensures r.Problem? ==> old(Rest()) == Failed([], r.error)
    {
      hide LineLength, ChunkSize, SkipTrailers;
      if !chunked {
        r := NextFixed();
        return;
      }
      if chunkLeft == 0 {
        var k := LineLength(data, pos, MAX_SIZE_LINE);
        if k == 0 { return Problem(ShortRequest); }
        var size := ChunkSize(data[pos..pos + k]);
        if size.None? { return Problem(InvalidChunk); }
        pos, chunkLeft := pos + k, size.value;
        if chunkLeft == 0 {
          ReadTrailers();
          finished := true;
          return End;
        }
      }
      if chunkLeft < 0 { r := NextToEnd(); } else { r := NextInChunk(); }
    }

    method NextToEnd() returns (r: Item)
      requires Valid() && !finished && chunked && chunkLeft < 0
      modifies this
      ensures Valid() && !r.End?
      ensures r.Piece? ==> r.data != [] && old(Rest()) == Prepend(r.data, Rest()) && !finished
      ensures r.Piece? ==> pos > old(pos) && |r.data| <= |data|
      ensures old(Rest()).Failed?
      ensures r.Problem? ==> old(Rest()) == Failed([], r.error)
    {
      if chunkLeft < -1 { return Problem(BadReadLength); }
      var piece := data[pos..];
      if piece == [] { return Problem(ShortRequest); }
      pos, chunkLeft, total := |data|, chunkLeft - |piece|, total + |piece|;
      if total > limit { return Problem(TooLarge); }
      return Piece(piece);
    }

    method NextFixed() returns (r: Item)
      requires Valid() && !finished && !chunked
      modifies this
      ensures Valid()
      ensures r.Piece? ==> r.data != [] && old(Rest()) == Prepend(r.data, Rest()) && !finished
      ensures r.Piece? ==> pos > old(pos) && |r.data| <= |data| && |r.data| <= CHUNK
      ensures r.End? ==> old(Rest()) == Done([], pos) && finished
      ensures r.Problem? ==> old(Rest()) == Failed([], r.error)
    {
      if remaining == 0 { finished := true; return End; }
      var n := ReadLength(data, pos, Least(CHUNK, remaining));
      if n == 0 { return Problem(ShortRequest); }
      var piece := data[pos..pos + n];
      pos, remaining, total := pos + n, remaining - n, total + n;
      if total > limit { return Problem(TooLarge); }
      return Piece(piece);
    }

    method NextInChunk() returns (r: Item)
      requires Valid() && !finished && chunked && chunkLeft > 0
      modifies this
      ensures Valid() && !r.End?
      ensures r.Piece? ==> r.data != [] && old(Rest()) == Prepend(r.data, Rest()) && !finished
      ensures r.Piece? ==> pos > old(pos) && |r.data| <= |data| && |r.data| <= CHUNK
      ensures r.Problem? ==> old(Rest()) == Failed([], r.error)
    {
      hide LineLength, Chunked, Fixed;
      var n := ReadLength(data, pos, Least(CHUNK, chunkLeft));
      if n == 0 { return Problem(ShortRequest); }
      var piece := data[pos..pos + n];
      pos, chunkLeft := pos + n, chunkLeft - n;
      if chunkLeft == 0 { pos := pos + LineLength(data, pos, 16); }
      total := total + n;
      if total > limit { return Problem(TooLarge); }
      return Piece(piece);
    }

    method ReadTrailers()
      requires Valid()
      modifies this`pos
      ensures Valid() && pos == SkipTrailers(data, old(pos)) && pos >= old(pos)
    {
      hide LineLength;
      while true
        invariant old(pos) <= pos <= |data|
        invariant SkipTrailers(data, old(pos)) == SkipTrailers(data, pos)
        decreases |data| - pos
      {
        var k := LineLength(data, pos, 8192);
        var line := data[pos..pos + k];
        pos := pos + k;
        if line == CRLF || line == [NEWLINE] || line == [] { break; }
      }
    }

    /** `read_all`. */
    method ReadAll() returns (o: Outcome)
      requires Valid() && !finished
      modifies this
      ensures o == old(Rest())
      ensures o.Done? ==> finished && pos == o.pos
    {
      hide Chunked, InChunk, Fixed, ToEnd, Prepend;
      var out: Bytes := [];
      PrependNothing(Rest());
      while true
        invariant Valid() && !finished
        invariant old(Rest()) == Prepend(out, Rest())
        decreases |data| - pos
      {
        ghost var before := out;
        var item := Next();
        match item
        case Piece(piece) =>
          PrependTwice(before, piece, Rest());
          out := out + piece;
        case End =>
          PrependEnds(out, pos, ShortRequest);
          return Done(out, pos);
        case Problem(e) =>
          PrependEnds(out, pos, e);
          return Failed(out, e);
      }
    }
  }

  lemma PrependNothing(o: Outcome)
    ensures Prepend([], o) == o
  {
  }

  lemma PrependEnds(out: Bytes, pos: nat, e: Error)
    ensures Prepend(out, Done([], pos)) == Done(out, pos) && Prepend(out, Failed([], e)) == Failed(out, e)
  {
  }

  datatype Refusal = InvalidContentLength | RequestTooLarge

  /** Opening a body: a negative or oversized Content-Length is refused before anything is read. */
  method OpenBody(data: Bytes, chunked: bool, length: int, limit: nat)
    returns (body: Body?, refusal: Option<Refusal>)
    ensures refusal.None? <==> chunked || 0 <= length <= limit
    ensures refusal.Some? ==> refusal.value == if length < 0 then InvalidContentLength else RequestTooLarge
    ensures body != null <==> refusal.None?
    ensures body != null ==> fresh(body) && body.Valid() && !body.finished && body.data == data && body.chunked == chunked
    ensures body != null ==>
              body.Rest() == if chunked then Chunked(data, 0, 0, limit) else Fixed(data, 0, length, 0, limit)
  {
    if !chunked && length < 0 { return null, Some(InvalidContentLength); }
    if !chunked && length > limit { return null, Some(RequestTooLarge); }
    body := new Body(data, limit, chunked, if chunked then 0 else length);
    refusal := None;
  }

  // ---------------------------------------------------------------- the cap

  /** No reader ever yields more than the limit, whatever bytes it is given. */
  lemma {:induction false} ChunkedWithinLimit(data: Bytes, pos: nat, total: nat, limit: nat)
    requires pos <= |data| && total <= limit
    ensures total + |Chunked(data, pos, total, limit).out| <= limit
    decreases |data| - pos, 1
  {
    hide LineLength, ChunkSize;
    var k := LineLength(data, pos, MAX_SIZE_LINE);
    if k > 0 {
      var size := ChunkSize(data[pos..pos + k]);
      if size.Some? && size.value > 0 { InChunkWithinLimit(data, pos + k, size.value, total, limit); }
    }
  }

  lemma {:induction false} InChunkWithinLimit(data: Bytes, pos: nat, left: nat, total: nat, limit: nat)
    requires pos <= |data| && total <= limit && left > 0
    ensures total + |InChunk(data, pos, left, total, limit).out| <= limit
    decreases |data| - pos, 0
  {
    hide LineLength, AfterChunk, Chunked;
    var n := ReadLength(data, pos, Least(CHUNK, left));
    if n > 0 && total + n <= limit {
      assert |data[pos..pos + n]| == n;
      if left == n {
        ChunkedWithinLimit(data, AfterChunk(data, pos + n), total + n, limit);
      } else {
        InChunkWithinLimit(data, pos + n, left - n, total + n, limit);
      }
    }
  }

  /** The next `remaining` bytes, or all there are and an error. */
  function Exactly(data: Bytes, pos: nat, remaining: nat): Outcome
    requires pos <= |data|
  {
    if pos + remaining <= |data| then Done(data[pos..pos + remaining], pos + remaining) else Failed(data[pos..], ShortRequest)
  }

  lemma ExactlyStep(data: Bytes, pos: nat, remaining: nat, n: nat)
    requires pos + n <= |data| && n <= remaining
    ensures Prepend(data[pos..pos + n], Exactly(data, pos + n, remaining - n)) == Exactly(data, pos, remaining)
  {
    var end := if pos + remaining <= |data| then pos + remaining else |data|;
    Joined(data, pos, pos + n, end);
  }

  /**
   * A body with a length yields exactly that many bytes and reads no further, or the bytes there are
   * and a short-request error.
   */
  lemma {:induction false} FixedExactly(data: Bytes, pos: nat, remaining: nat, total: nat, limit: nat)
    requires pos <= |data| && total + remaining <= limit
    ensures Fixed(data, pos, remaining, total, limit) == Exactly(data, pos, remaining)
    decreases remaining
  {
    if remaining == 0 {
      assert data[pos..pos] == [];
    } else {
      hide Fixed, ReadLength, Least, Exactly, Prepend;
      var n := ReadLength(data, pos, Least(CHUNK, remaining));
      FixedStep(data, pos, remaining, total, limit, n);
      if n > 0 {
        FixedExactly(data, pos + n, remaining - n, total + n, limit);
        ExactlyStep(data, pos, remaining, n);
      }
    }
  }

  // One read of a body with a length.
  lemma FixedStep(data: Bytes, pos: nat, remaining: nat, total: nat, limit: nat, n: nat)
    requires pos <= |data| && total + remaining <= limit && remaining > 0 && n == ReadLength(data, pos, Least(CHUNK, remaining))
    ensures n == 0 ==> Exactly(data, pos, remaining) == Failed([], ShortRequest)
    ensures n <= remaining
    ensures Fixed(data, pos, remaining, total, limit) ==
            if n == 0 then Failed([], ShortRequest)
            else Prepend(data[pos..pos + n], Fixed(data, pos + n, remaining - n, total + n, limit))
  {
  }

  lemma Joined(data: Bytes, a: nat, b: nat, c: nat)
    requires a <= b <= c <= |data|
    ensures data[a..b] + data[b..c] == data[a..c]
  {
  }

  // ---------------------------------------------------------------- round trip

  // `text` stands at `pos`.
  predicate At(data: Bytes, pos: nat, text: Bytes) {
    pos + |text| <= |data| && data[pos..pos + |text|] == text
  }

  lemma AtParts(data: Bytes, pos: nat, a: Bytes, b: Bytes)
    requires At(data, pos, a + b)
    ensures At(data, pos, a) && At(data, pos + |a|, b)
  {
    var whole := data[pos..pos + |a + b|];
    assert a == whole[..|a|] && b == whole[|a|..];
  }

  lemma {:induction false} LineAt(data: Bytes, pos: nat, text: Bytes, n: nat)
    requires At(data, pos, text + [NEWLINE]) && NEWLINE !in text && n >= |text| + 1
    ensures LineLength(data, pos, n) == |text| + 1
    decreases |text|
  {
    assert data[pos] == (text + [NEWLINE])[0];
    if text != [] {
      assert text[0] in text;
      AtParts(data, pos, [text[0]], text[1..] + [NEWLINE]) by {
        assert [text[0]] + (text[1..] + [NEWLINE]) == text + [NEWLINE];
      }
      LineAt(data, pos + 1, text[1..], n - 1);
    }
  }

  lemma SizeLine(n: nat)
    ensures ChunkSize(HexText(n) + CRLF) == Some(n)
    ensures NEWLINE !in HexText(n)
  {
    var line := HexText(n) + CRLF;
    assert SEMICOLON !in line;
    StripCrlf(HexText(n));
    HexRoundTrip(n);
  }

  /** A chunk extension is not looked at (section 7.1.1 of RFC 9112). */
  lemma ExtensionIgnored(n: nat, extension: Bytes)
    ensures ChunkSize(HexText(n) + [SEMICOLON] + extension) == Some(n)
  {
    PartitionAt(HexText(n), SEMICOLON, extension) by {
      assert forall i :: 0 <= i < |HexText(n)| ==> PlainDigit(HexText(n)[i]);
    }
    HexRoundTrip(n);
  }

  lemma StripCrlf(text: Bytes)
    requires |text| >= 1 && forall i :: 0 <= i < |text| ==> PlainDigit(text[i])
    ensures PyHex(text + CRLF) == PyHex(text)
  {
    var line := text + CRLF;
    assert StripLeft(line) == line && StripLeft(text) == text;
    assert line[..|line| - 1] == text + [CR];
    assert (text + [CR])[..|text|] == text;
    assert StripRight(line) == StripRight(text + [CR]) == StripRight(text);
  }

  lemma HeaderStep(data: Bytes, pos: nat, k: nat, n: nat, total: nat, limit: nat)
    requires pos + k <= |data| && k > 0 && LineLength(data, pos, MAX_SIZE_LINE) == k
    requires ChunkSize(data[pos..pos + k]) == Some(n)
    ensures Chunked(data, pos, total, limit) ==
            if n == 0 then Done([], SkipTrailers(data, pos + k)) else InChunk(data, pos + k, n, total, limit)
  {
    hide LineLength, ChunkSize, SkipTrailers, InChunk;
  }

  lemma HeaderLine(data: Bytes, pos: nat, text: Bytes)
    requires At(data, pos, text + CRLF) && NEWLINE !in text && |text| + 2 <= MAX_SIZE_LINE
    ensures LineLength(data, pos, MAX_SIZE_LINE) == |text| + 2
    ensures pos + (|text| + 2) <= |data| && data[pos..pos + (|text| + 2)] == text + CRLF
  {
    assert text + [CR] + [NEWLINE] == text + CRLF;
    LineAt(data, pos, text + [CR], MAX_SIZE_LINE);
  }

  // Reading the header of a chunk, given as text.
  lemma HeaderText(data: Bytes, pos: nat, text: Bytes, n: nat, total: nat, limit: nat)
    requires At(data, pos, text + CRLF) && NEWLINE !in text && |text| + 2 <= MAX_SIZE_LINE
    requires ChunkSize(text + CRLF) == Some(n)
    ensures Chunked(data, pos, total, limit) ==
            if n == 0 then Done([], SkipTrailers(data, pos + |text| + 2))
            else InChunk(data, pos + |text| + 2, n, total, limit)
  {
    hide ChunkSize, LineLength, InChunk, Chunked, SkipTrailers, At;
    HeaderLine(data, pos, text);
    var k := |text| + 2;
    assert data[pos..pos + k] == text + CRLF;
    HeaderStep(data, pos, k, n, total, limit);
    assert pos + |text| + 2 == pos + k;
  }

  lemma ChunkHeader(data: Bytes, pos: nat, n: nat, total: nat, limit: nat)
    requires |HexText(n)| + 2 <= MAX_SIZE_LINE && At(data, pos, HexText(n) + CRLF)
    ensures Chunked(data, pos, total, limit) ==
            if n == 0 then Done([], SkipTrailers(data, pos + |HexText(n)| + 2))
            else InChunk(data, pos + |HexText(n)| + 2, n, total, limit)
  {
    hide HexText, ChunkSize, InChunk, Chunked, SkipTrailers, PlainDigit;
    SizeLine(n);
    HeaderText(data, pos, HexText(n), n, total, limit);
  }

  // The last piece of a chunk, with the line end after it.
  lemma LastPiece(data: Bytes, pos: nat, block: Bytes, total: nat, limit: nat)
    requires 0 < |block| <= CHUNK && At(data, pos, block) && At(data, pos + |block|, CRLF)
    ensures InChunk(data, pos, |block|, total, limit) ==
            if total + |block| <= limit
            then Prepend(block, Chunked(data, pos + |block| + 2, total + |block|, limit))
            else Failed([], TooLarge)
  {
    hide Chunked;
    assert [CR] + [NEWLINE] == CRLF;
    LineAt(data, pos + |block|, [CR], 16);
    hide LineLength;
  }

  lemma FirstPiece(data: Bytes, pos: nat, block: Bytes, total: nat, limit: nat)
    requires |block| > CHUNK && At(data, pos, block)
    ensures InChunk(data, pos, |block|, total, limit) ==
            if total + CHUNK <= limit
            then Prepend(block[..CHUNK], InChunk(data, pos + CHUNK, |block| - CHUNK, total + CHUNK, limit))
            else Failed([], TooLarge)
  {
  }

  /** Reading the bytes of a chunk and the line end after it, however many pieces that takes. */
  lemma {:induction false} ChunkBytes(data: Bytes, pos: nat, block: Bytes, total: nat, limit: nat)
    requires block != [] && At(data, pos, block + CRLF)
    ensures total + |block| <= limit ==>
              InChunk(data, pos, |block|, total, limit) ==
              Prepend(block, Chunked(data, pos + |block| + 2, total + |block|, limit))
    ensures total + |block| > limit ==>
              var o := InChunk(data, pos, |block|, total, limit);
              o.Failed? && o.error == TooLarge && o.out <= block
    decreases |block|
  {
    hide InChunk, Chunked;
    AtParts(data, pos, block, CRLF);
    if |block| <= CHUNK {
      LastPiece(data, pos, block, total, limit);
    } else {
      FirstPiece(data, pos, block, total, limit);
      var first, rest := block[..CHUNK], block[CHUNK..];
      assert block == first + rest;
      Regroup(first, rest, CRLF);
      AtParts(data, pos, first, rest + CRLF);
      hide At;
      if total + CHUNK <= limit {
        ChunkBytes(data, pos + CHUNK, rest, total + CHUNK, limit);
        if total + |block| <= limit {
          PrependTwice(first, rest, Chunked(data, pos + |block| + 2, total + |block|, limit));
        } else {
          PrefixAfter(first, InChunk(data, pos + CHUNK, |rest|, total + CHUNK, limit).out, rest);
        }
      }
    }
  }

  lemma PrependTwice(a: Bytes, b: Bytes, o: Outcome)
    ensures Prepend(a, Prepend(b, o)) == Prepend(a + b, o)
  {
  }

  lemma PrefixAfter(a: Bytes, b: Bytes, c: Bytes)
    requires b <= c
    ensures a + b <= a + c
  {
  }

  lemma LastChunk(data: Bytes, pos: nat, total: nat, limit: nat)
    requires At(data, pos, LAST_CHUNK)
    ensures Chunked(data, pos, total, limit) == Done([], pos + |LAST_CHUNK|)
  {
    assert HexText(0) == [0x30];
    AtParts(data, pos, HexText(0) + CRLF, CRLF);
    hide Chunked, HexText;
    ChunkHeader(data, pos, 0, total, limit);
    assert [CR] + [NEWLINE] == CRLF;
    LineAt(data, pos + 3, [CR], 8192);
    hide LineLength;
    assert data[pos + 3..pos + 5] == CRLF;
  }

  lemma WholeChunk(data: Bytes, pos: nat, block: Bytes, total: nat, limit: nat)
    requires block != [] && SizeFits(block) && At(data, pos, ChunkOf(block))
    ensures total + |block| <= limit ==>
              Chunked(data, pos, total, limit) ==
              Prepend(block, Chunked(data, pos + |ChunkOf(block)|, total + |block|, limit))
    ensures total + |block| > limit ==>
              var o := Chunked(data, pos, total, limit);
              o.Failed? && o.error == TooLarge && o.out <= block
  {
    hide Chunked, InChunk, HexText;
    var header := HexText(|block|) + CRLF;
    Regroup(header, block, CRLF);
    AtParts(data, pos, header, block + CRLF);
    hide At;
    ChunkHeader(data, pos, |block|, total, limit);
    ChunkBytes(data, pos + |header|, block, total, limit);
  }

  /**
   * Decoding what the gateway sends for any blocks gives their concatenation and stops exactly at
   * the end of the encoding, whatever follows; over the limit it fails, having yielded a prefix.
   */
  lemma {:induction false} ChunkedRoundTrip(data: Bytes, pos: nat, blocks: seq<Bytes>, total: nat, limit: nat)
    requires At(data, pos, Encode(blocks)) && forall b :: b in blocks ==> SizeFits(b)
    ensures total + |Flatten(blocks)| <= limit ==>
              Chunked(data, pos, total, limit) == Done(Flatten(blocks), pos + |Encode(blocks)|)
    ensures total + |Flatten(blocks)| > limit && total <= limit ==>
              var o := Chunked(data, pos, total, limit);
              o.Failed? && o.error == TooLarge && o.out <= Flatten(blocks)
    decreases |blocks|
  {
    hide Chunked, ChunkOf;
    if blocks == [] {
      LastChunk(data, pos, total, limit);
    } else {
      var block, tail := blocks[0], blocks[1..];
      if block == [] {
        ChunkedRoundTrip(data, pos, tail, total, limit);
        assert Flatten(blocks) == Flatten(tail);
      } else {
        AtParts(data, pos, ChunkOf(block), Encode(tail));
        hide At;
        WholeChunk(data, pos, block, total, limit);
        if total + |block| <= limit {
          ChunkedRoundTrip(data, pos + |ChunkOf(block)|, tail, total + |block|, limit);
          if total + |Flatten(blocks)| > limit {
            PrefixAfter(block, Chunked(data, pos + |ChunkOf(block)|, total + |block|, limit).out, Flatten(tail));
          }
        }
      }
    }
  }
}
