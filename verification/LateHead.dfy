/** A push whose command list is sound but long: read as the gateway reads it, the verdict depends on the cut. */
module LateHead {
  import opened Prelude
  import opened ByteText
  import opened PktLine
  import opened PushHead
  import opened PushCommands
  import HttpBody

  const SHALLOW_SIZE: nat := 65000
  const COUNT: nat := 65
  const ZERO: Byte := 0x30

  function Zeros(n: nat): (r: Bytes)
    ensures |r| == n && forall i :: 0 <= i < n ==> r[i] == ZERO
  {
    seq(n, i => ZERO)
  }

  function Shallow(): Bytes {
    Ascii("shallow ") + Zeros(SHALLOW_SIZE - 8)
  }

  function Copies(p: Bytes, n: nat): (r: seq<Bytes>)
    ensures |r| == n && forall x :: x in r ==> x == p
  {
    if n == 0 then [] else [p] + Copies(p, n - 1)
  }

  function Update(): RefUpdate {
    RefUpdate(Zeros(40), Zeros(40), Ascii("refs/h"))
  }

  function LongBody(): Bytes {
    Frame(Payloads(Copies(Shallow(), COUNT), [Update()], []))
  }

  lemma UpdateIsSendable()
    ensures Sendable(Update()) && |FirstLine(Update(), [])| == 89
  {
    assert Ascii("refs/h") == [0x72, 0x65, 0x66, 0x73, 0x2f, 0x68];
    assert Ascii("refs/") == [0x72, 0x65, 0x66, 0x73, 0x2f];
  }

  lemma ShallowIsOne()
    ensures ShallowLine(Shallow())
  {
    NoStrip(Shallow());
  }

  lemma LongIsSound()
    ensures Sound(Copies(Shallow(), COUNT), [Update()], [])
  {
    hide Sendable, ShallowLine, FirstLine;
    UpdateIsSendable();
    ShallowIsOne();
    assert UpdateLines([Update()][1..]) == [];
  }

  lemma FrameOne(p: Bytes, payloads: seq<Bytes>)
    requires Fits(p)
    ensures |Frame([p] + payloads)| == |p| + 4 + |Frame(payloads)|
  {
    PktParts(p);
    hide Pkt;
    assert ([p] + payloads)[1..] == payloads;
  }

  lemma {:induction false} FrameLength(p: Bytes, n: nat, tail: seq<Bytes>, each: nat)
    requires Fits(p) && each == |p| + 4
    ensures |Frame(Copies(p, n) + tail)| == n * each + |Frame(tail)|
  {
    hide Frame, Fits;
    if n == 0 {
      assert Copies(p, n) + tail == tail;
    } else {
      FrameLength(p, n - 1, tail, each);
      FrameOne(p, Copies(p, n - 1) + tail);
      assert Copies(p, n) + tail == [p] + (Copies(p, n - 1) + tail);
      assert n * each == (n - 1) * each + each;
    }
  }

  lemma LongLength()
    ensures |LongBody()| == COUNT * (SHALLOW_SIZE + 4) + 97
  {
    hide Pkt, FirstLine;
    UpdateIsSendable();
    var last := [FirstLine(Update(), [])] + UpdateLines([Update()][1..]);
    assert last == [FirstLine(Update(), [])] && last[1..] == [];
    FrameLength(Shallow(), COUNT, last, SHALLOW_SIZE + 4);
    PktParts(last[0]);
  }

  // ---------------------------------------------------------------- as a body with a length is read

  lemma PiecesFirst(data: Bytes, size: nat)
    requires 0 < size <= |data|
    ensures Pieces(data, size) == [data[..size]] + Pieces(data[size..], size)
  {
    if |data| == size { assert data[..size] == data && Pieces(data[size..], size) == []; }
  }

  // Blocks that end at a multiple of the block size can be cut there.
  lemma {:induction false} PiecesSplit(a: Bytes, b: Bytes, size: nat, k: nat)
    requires size > 0 && |a| == k * size
    ensures Pieces(a + b, size) == Pieces(a, size) + Pieces(b, size)
    decreases k
  {
    hide Pieces;
    if k == 0 {
      NoPieces(size);
      assert a + b == b && a == [];
    } else {
      assert k * size == (k - 1) * size + size >= size;
      PiecesFirst(a, size);
      PiecesFirst(a + b, size);
      PiecesSplit(a[size..], b, size, k - 1);
      assert (a + b)[..size] == a[..size] && (a + b)[size..] == a[size..] + b;
    }
  }

  lemma NoPieces(size: nat)
    requires size > 0
    ensures Pieces([], size) == []
  {
  }

  lemma OnePiece(data: Bytes, size: nat)
    requires 0 < |data| <= size
    ensures Pieces(data, size) == [data]
  {
  }

  lemma FixedCut(body: Bytes)
    requires MAX_HEAD < |body| <= MAX_HEAD + HttpBody.CHUNK
    ensures Pieces(body, HttpBody.CHUNK) == CutAt(body, HttpBody.CHUNK, |body|)
  {
    hide Pieces;
    var size := HttpBody.CHUNK;
    var a, b := body[..MAX_HEAD], body[MAX_HEAD..];
    assert a + b == body && body[MAX_HEAD..|body|] == b && body[|body|..] == [];
    PiecesSplit(a, b, size, 64);
    OnePiece(b, size);
    NoPieces(size);
    assert [b] + [] == [b];
  }

  /**
   * The failing side is not empty: this push is accepted in blocks of 64 KiB, as it is read when it
   * comes with a length, and refused as too large when one of the pieces ends at MAX_HEAD + 1.
   */
  lemma LateHeadExists()
    ensures Straddles(LongBody(), HttpBody.CHUNK) && |LongBody()| > MAX_HEAD + 1
    ensures HeadVerdict(Pieces(LongBody(), HttpBody.CHUNK)) == Accepted([Update()], {})
    ensures var cut := CutAt(LongBody(), HttpBody.CHUNK, MAX_HEAD + 1);
            && Flatten(cut) == LongBody() && Small(cut, HttpBody.CHUNK)
            && HeadVerdict(cut) == Refused(PushHeadTooLarge)
  {
    hide Frame, ParseHead, Pieces, CutAt, Update, HeadVerdict, FirstDecided;
    var body := LongBody();
    LongLength();
    LongIsSound();
    HeadRoundTrip(Copies(Shallow(), COUNT), [Update()], [], []);
    DecidedAtTheEnd(Copies(Shallow(), COUNT), [Update()], [], []);
    assert body + [] == body;
    FixedCut(body);
    CutAtVerdict(body, HttpBody.CHUNK, |body|, |body|);
    CutAtVerdict(body, HttpBody.CHUNK, MAX_HEAD + 1, |body|);
    CutAtIsCut(body, HttpBody.CHUNK, MAX_HEAD + 1);
  }
}
