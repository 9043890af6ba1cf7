/** What a client sends at the head of a push, and that the gateway reads exactly that. */
module PushCommands {
  import opened Prelude
  import opened ByteText
  import opened PktLine
  import opened PushHead

  // ---------------------------------------------------------------- printing

  function UpdateLine(u: RefUpdate): Bytes {
    u.before + [SPACE] + (u.after + [SPACE] + u.ref)
  }

  /** An update that a client can ask for: object ids, and a full ref name without spaces or "..". */
  predicate Sendable(u: RefUpdate) {
    && ObjectId(u.before) && ObjectId(u.after)
    && Ascii("refs/") <= u.ref && !HasDots(u.ref) && SPACE !in u.ref && 0 !in u.ref
    && u.ref != [] && u.ref[|u.ref| - 1] != NEWLINE
  }

  predicate Word(w: Bytes) {
    w != [] && forall i :: 0 <= i < |w| ==> !White(w[i])
  }

  function CapabilityText(words: seq<Bytes>): Bytes {
    if words == [] then [] else [SPACE] + words[0] + CapabilityText(words[1..])
  }

  function UpdateLines(updates: seq<RefUpdate>): (r: seq<Bytes>)
    ensures |r| == |updates|
  {
    if updates == [] then [] else [UpdateLine(updates[0])] + UpdateLines(updates[1..])
  }

  // The first command carries the capabilities.
  function FirstLine(u: RefUpdate, words: seq<Bytes>): Bytes {
    UpdateLine(u) + [0] + CapabilityText(words)
  }

  predicate ShallowLine(line: Bytes) {
    Ascii("shallow ") <= RStrip(line, NEWLINE)
  }

  /** Shallow lines, then one line per update. */
  function Payloads(shallows: seq<Bytes>, updates: seq<RefUpdate>, words: seq<Bytes>): (r: seq<Bytes>)
    requires updates != []
    ensures |r| == |shallows| + |updates|
  {
    shallows + ([FirstLine(updates[0], words)] + UpdateLines(updates[1..]))
  }

  ghost predicate Sound(shallows: seq<Bytes>, updates: seq<RefUpdate>, words: seq<Bytes>)
  {
    && updates != [] && |shallows| + |updates| <= 10000
    && (forall s :: s in shallows ==> ShallowLine(s))
    && (forall u :: u in updates ==> Sendable(u))
    && (forall w :: w in words ==> Word(w))
    && (forall p :: p in Payloads(shallows, updates, words) ==> Fits(p))
  }

  // ---------------------------------------------------------------- one line

  lemma NoStrip(b: Bytes)
    requires b != [] && b[|b| - 1] != NEWLINE
    ensures RStrip(b, NEWLINE) == b
  {
  }

  /** A printed update parses back. */
  lemma UpdateParses(u: RefUpdate)
    requires Sendable(u)
    ensures ParseUpdate(UpdateLine(u)) == Some(u)
  {
    SplitThree(u.before, u.after, u.ref);
    hide Split, HasDots, ObjectId;
  }

  // A line that starts with a hexadecimal digit is a command.
  ghost predicate CommandLine(line: Bytes) {
    && line != [] && line[|line| - 1] != NEWLINE
    && (0x30 <= line[0] <= 0x39 || 0x61 <= line[0] <= 0x66)
  }

  lemma CommandIsPlain(line: Bytes)
    requires CommandLine(line)
    ensures RStrip(line, NEWLINE) == line
    ensures !(Ascii("shallow ") <= line) && !(Ascii("push-cert") <= line)
  {
    assert Ascii("shallow ")[0] == 0x73 && Ascii("push-cert")[0] == 0x70;
    NoStrip(line);
  }

  lemma UpdateIsCommand(u: RefUpdate)
    requires Sendable(u)
    ensures CommandLine(UpdateLine(u)) && 0 !in UpdateLine(u)
  {
    hide HasDots, Ascii;
    var line := UpdateLine(u);
    assert line[0] == u.before[0] && line[|line| - 1] == u.ref[|u.ref| - 1];
  }

  lemma {:induction false} TextEnds(words: seq<Bytes>)
    requires forall w :: w in words ==> Word(w)
    ensures var text := CapabilityText(words); text != [] ==> text[0] == SPACE && text[|text| - 1] != NEWLINE
  {
    if words != [] {
      TextEnds(words[1..]);
      assert words[0] in words;
      var rest := CapabilityText(words[1..]);
      assert CapabilityText(words) == [SPACE] + words[0] + rest;
      if rest == [] { assert CapabilityText(words) == [SPACE] + words[0]; }
    }
  }

  lemma {:induction false} WordStops(w: Bytes, rest: Bytes)
    requires forall i :: 0 <= i < |w| ==> !White(w[i])
    requires rest == [] || White(rest[0])
    ensures WordEnd(w + rest) == |w|
  {
    if w == [] {
      assert w + rest == rest;
    } else {
      WordStops(w[1..], rest);
      assert (w + rest)[1..] == w[1..] + rest;
    }
  }

  lemma NextWord(w: Bytes, rest: Bytes)
    requires Word(w) && (rest == [] || White(rest[0]))
    ensures Words([SPACE] + (w + rest)) == {w} + Words(rest)
  {
    var text := w + rest;
    WordStops(w, rest);
    hide WordEnd;
    assert ([SPACE] + text)[1..] == text;
    assert text[..|w|] == w && text[|w|..] == rest && text[0] == w[0];
    assert Words([SPACE] + text) == Words(text);
  }

  /** The capabilities come back as the set of words that were sent. */
  lemma {:induction false} WordsComeBack(words: seq<Bytes>)
    requires forall w :: w in words ==> Word(w)
    ensures Words(CapabilityText(words)) == set w | w in words
  {
    if words != [] {
      var w, rest := words[0], CapabilityText(words[1..]);
      WordsComeBack(words[1..]);
      TextEnds(words[1..]);
      assert w in words;
      assert [SPACE] + w + rest == [SPACE] + (w + rest);
      NextWord(w, rest);
      hide Words, CapabilityText;
      assert words == [w] + words[1..];
    }
  }

  lemma FirstIsCommand(u: RefUpdate, words: seq<Bytes>)
    requires Sendable(u) && forall w :: w in words ==> Word(w)
    ensures CommandLine(FirstLine(u, words)) && 0 in FirstLine(u, words)
    ensures Partition(FirstLine(u, words), 0) == (UpdateLine(u), CapabilityText(words))
  {
    UpdateIsCommand(u);
    TextEnds(words);
    hide UpdateLine, CapabilityText;
    var line, text := FirstLine(u, words), CapabilityText(words);
    PartitionAt(UpdateLine(u), 0, text);
    assert line[|UpdateLine(u)|] == 0 && line[0] == UpdateLine(u)[0];
    assert line[|line| - 1] == if text == [] then 0 else text[|text| - 1];
  }

  // ---------------------------------------------------------------- the list

  lemma {:induction false} CommandsRest(updates: seq<RefUpdate>, done: seq<RefUpdate>, known: set<Bytes>)
    requires done != [] && forall u :: u in updates ==> Sendable(u)
    ensures Commands(Somes(UpdateLines(updates)) + [None], done, known) == Head(done + updates, known)
    decreases |updates|
  {
    hide ParseUpdate, RStrip, Ascii, Words, UpdateLine, Sendable;
    var packets := Somes(UpdateLines(updates)) + [None];
    if updates == [] {
      assert packets == [None] && done + updates == done;
    } else {
      var u := updates[0];
      assert u in updates;
      UpdateIsCommand(u);
      CommandIsPlain(UpdateLine(u));
      UpdateParses(u);
      CommandsRest(updates[1..], done + [u], known);
      assert packets[0] == Some(UpdateLine(u)) && packets[1..] == Somes(UpdateLines(updates[1..])) + [None];
      assert done + [u] + updates[1..] == done + updates;
    }
  }

  lemma CommandsFirst(updates: seq<RefUpdate>, words: seq<Bytes>)
    requires updates != [] && (forall u :: u in updates ==> Sendable(u)) && forall w :: w in words ==> Word(w)
    ensures Commands(Somes([FirstLine(updates[0], words)] + UpdateLines(updates[1..])) + [None], [], {}) ==
            Head(updates, set w | w in words)
  {
    hide ParseUpdate, RStrip, Ascii, Words, UpdateLine, Sendable, FirstLine, CapabilityText, Word, Partition;
    var u, line := updates[0], FirstLine(updates[0], words);
    var packets := Somes([line] + UpdateLines(updates[1..])) + [None];
    assert u in updates;
    FirstIsCommand(u, words);
    CommandIsPlain(line);
    UpdateParses(u);
    WordsComeBack(words);
    CommandsRest(updates[1..], [u], set w | w in words);
    assert packets[0] == Some(line) && packets[1..] == Somes(UpdateLines(updates[1..])) + [None];
    assert [] + [u] == [u] && [u] + updates[1..] == updates;
  }

  lemma {:induction false} CommandsSkip(shallows: seq<Bytes>, lines: seq<Bytes>, updates: seq<RefUpdate>, known: set<Bytes>)
    requires forall s :: s in shallows ==> ShallowLine(s)
    ensures Commands(Somes(shallows + lines) + [None], updates, known) == Commands(Somes(lines) + [None], updates, known)
  {
    hide ParseUpdate, RStrip, Ascii, Words;
    if shallows == [] {
      assert shallows + lines == lines;
    } else {
      CommandsSkip(shallows[1..], lines, updates, known);
      var packets := Somes(shallows + lines) + [None];
      assert shallows[0] in shallows;
      assert packets[0] == Some(shallows[0]) && packets[1..] == Somes(shallows[1..] + lines) + [None];
    }
  }

  /** The gateway reads the updates and capabilities that the client printed, whatever pack data follows. */
  lemma HeadRoundTrip(shallows: seq<Bytes>, updates: seq<RefUpdate>, words: seq<Bytes>, pack: Bytes)
    requires Sound(shallows, updates, words)
    ensures ParseHead(Frame(Payloads(shallows, updates, words)) + pack) == Head(updates, set w | w in words)
  {
    hide ReadFrom, Frame, Commands, FirstLine, ShallowLine, Sendable, Word, Fits;
    var payloads := Payloads(shallows, updates, words);
    ReadFrames([], payloads, pack, [], Some(MAX_PACKETS));
    assert [] + (Frame(payloads) + pack) == Frame(payloads) + pack;
    assert [] + Somes(payloads) == Somes(payloads);
    CommandsSkip(shallows, [FirstLine(updates[0], words)] + UpdateLines(updates[1..]), [], {});
    CommandsFirst(updates, words);
  }

  /** It is decided by the last byte of the list, and not before. */
  lemma DecidedAtTheEnd(shallows: seq<Bytes>, updates: seq<RefUpdate>, words: seq<Bytes>, pack: Bytes)
    requires Sound(shallows, updates, words)
    ensures var head := Frame(Payloads(shallows, updates, words)); FirstDecided(head + pack, |head|)
  {
    hide ReadFrom, Frame, Commands, ParseHead, Payloads, Fits, ShallowLine, Sendable, Word;
    var payloads := Payloads(shallows, updates, words);
    var head := Frame(payloads);
    HeadRoundTrip(shallows, updates, words, []);
    assert head + [] == head && (head + pack)[..|head|] == head;
    forall j: nat | j < |head| ensures !DecidedWithin(head + pack, j) {
      PrefixWaits(payloads, j);
      assert (head + pack)[..j] == head[..j];
    }
  }

  lemma PrefixWaits(payloads: seq<Bytes>, j: nat)
    requires (forall p :: p in payloads ==> Fits(p)) && |payloads| <= MAX_PACKETS && j < |Frame(payloads)|
    ensures ParseHead(Frame(payloads)[..j]).Incomplete?
  {
    hide ReadFrom, Frame, Commands, Fits;
    ReadCut([], payloads, j, [], Some(MAX_PACKETS));
    assert [] + Frame(payloads)[..j] == Frame(payloads)[..j];
  }

  /**
   * However a push is cut into pieces of at most `size` bytes, it gives its updates and capabilities if
   * its list ends within MAX_HEAD + 1 bytes, and is refused as too large if it ends more than one piece
   * beyond MAX_HEAD.
   */
  lemma PushVerdict(shallows: seq<Bytes>, updates: seq<RefUpdate>, words: seq<Bytes>, pack: Bytes, chunks: seq<Bytes>, size: nat)
    requires Sound(shallows, updates, words) && Small(chunks, size) && size > 0
    requires Flatten(chunks) == Frame(Payloads(shallows, updates, words)) + pack
    ensures var n := |Frame(Payloads(shallows, updates, words))|;
            && (n <= MAX_HEAD + 1 ==> HeadVerdict(chunks) == Accepted(updates, set w | w in words))
            && (n > MAX_HEAD + size ==> HeadVerdict(chunks) == Refused(PushHeadTooLarge))
  {
    assert updates != [];
    hide Frame, ParseHead, Sound, Payloads, Small, HeadVerdict;
    var head := Frame(Payloads(shallows, updates, words));
    var body := head + pack;
    DecidedAtTheEnd(shallows, updates, words, pack);
    HeadRoundTrip(shallows, updates, words, pack);
    if |head| <= MAX_HEAD + 1 || |head| > MAX_HEAD + size {
      FirstIsUnique(body, |head|, size);
      SmallCutsAgree(body, chunks, size);
    }
  }

  lemma FirstIsUnique(body: Bytes, k: nat, size: nat)
    requires FirstDecided(body, k) && !(MAX_HEAD + 1 < k <= MAX_HEAD + size)
    ensures !Straddles(body, size) && (InTime(body) <==> k <= MAX_HEAD + 1) && k <= |body|
  {
    hide ParseHead;
  }
}
