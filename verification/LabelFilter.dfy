/** The label column of the search index and the LIKE pattern that queries it. */
module LabelFilter {

  // ---------------------------------------------------------------- the stored key

  /** `s.replace(c, by)` for a single character. */
  function Replace(s: string, c: char, with: string): (r: string) {
    if s == [] then [] else (if s[0] == c then with else [s[0]]) + Replace(s[1..], c, with)
  }

  /** `label_code` on text that is already lower case. */
  function LabelCode(lowered: string): (r: string) {
    Replace(Replace(lowered, '%', "%25"), '|', "%7C")
  }

  predicate LexLeq(a: string, b: string) {
    a == [] || (b != [] && (a[0] < b[0] || (a[0] == b[0] && LexLeq(a[1..], b[1..]))))
  }

  function InsertSorted(s: string, sorted: seq<string>): (r: seq<string>)
    ensures multiset(r) == multiset(sorted) + multiset{s}
  {
    if sorted == [] || LexLeq(s, sorted[0]) then [s] + sorted
    else
      assert sorted == [sorted[0]] + sorted[1..];
      [sorted[0]] + InsertSorted(s, sorted[1..])
  }

  function SortedCodes(lowered: seq<string>): (r: seq<string>) {
    if lowered == [] then [] else InsertSorted(LabelCode(lowered[0]), SortedCodes(lowered[1..]))
  }

  function Join(parts: seq<string>): (r: string) {
    if parts == [] then "" else if |parts| == 1 then parts[0] else parts[0] + "|" + Join(parts[1..])
  }

  /** `labels_key` for labels given in lower case. */
  function LabelsKey(lowered: seq<string>): (r: string) {
    "|" + Join(SortedCodes(lowered)) + "|"
  }

  // ---------------------------------------------------------------- the query

  function LikeEscape(term: string): (r: string) {
    Replace(Replace(Replace(term, '\\', "\\\\"), '%', "\\%"), '_', "\\_")
  }

  function Fold(c: char): (r: char) {
    if 'A' <= c <= 'Z' then c - 'A' + 'a' else c
  }

  /** SQLite's `LIKE ... ESCAPE '\'`: ASCII letters match in either case. */
  predicate Like(pattern: string, s: string)
    decreases |pattern| + |s|
  {
    if pattern == [] then s == []
    else if pattern[0] == '%' then Like(pattern[1..], s) || (s != [] && Like(pattern, s[1..]))
    else if s == [] then false
    else if pattern[0] == '_' then Like(pattern[1..], s[1..])
    else if pattern[0] == '\\' then
      |pattern| >= 2 && Fold(pattern[1]) == Fold(s[0]) && Like(pattern[2..], s[1..])
    else Fold(pattern[0]) == Fold(s[0]) && Like(pattern[1..], s[1..])
  }

  function LabelPattern(lowered: string): (r: string) {
    "%|" + LikeEscape(LabelCode(lowered)) + "|%"
  }

  // ---------------------------------------------------------------- the code

  function CodeChar(c: char): (r: string) {
    if c == '%' then "%25" else if c == '|' then "%7C" else [c]
  }

  function CodeMap(s: string): (r: string) {
    if s == [] then [] else CodeChar(s[0]) + CodeMap(s[1..])
  }

  lemma RegroupText(a: string, b: string, c: string)
    ensures a + (b + c) == a + b + c
  {
  }

  lemma {:induction false} ReplaceAppend(a: string, b: string, c: char, with: string)
    ensures Replace(a + b, c, with) == Replace(a, c, with) + Replace(b, c, with)
  {
    if a == [] {
      assert a + b == b;
    } else {
      ReplaceAppend(a[1..], b, c, with);
      assert (a + b)[1..] == a[1..] + b && (a + b)[0] == a[0];
      var head := if a[0] == c then with else [a[0]];
      RegroupText(head, Replace(a[1..], c, with), Replace(b, c, with));
    }
  }

  lemma ReplaceShort(s: string, c: char, with: string)
    ensures |s| == 1 ==> Replace(s, c, with) == if s[0] == c then with else s
    ensures |s| == 2 && s[0] != c && s[1] != c ==> Replace(s, c, with) == s
    ensures |s| == 3 && s[0] != c && s[1] != c && s[2] != c ==> Replace(s, c, with) == s
  {
  }

  /** The two replacements one after the other encode each character by itself. */
  lemma {:induction false} CodeIsMap(s: string)
    ensures LabelCode(s) == CodeMap(s)
  {
    if s != [] {
      CodeIsMap(s[1..]);
      var head := if s[0] == '%' then "%25" else [s[0]];
      ReplaceAppend(head, Replace(s[1..], '%', "%25"), '|', "%7C");
      ReplaceShort(head, '|', "%7C");
    }
  }

  predicate NoUpper(s: string) {
    forall i :: 0 <= i < |s| ==> !('A' <= s[i] <= 'Z')
  }

  predicate FoldEq(a: string, b: string) {
    |a| == |b| && forall i :: 0 <= i < |a| ==> Fold(a[i]) == Fold(b[i])
  }

  lemma FoldEqTail(a: string, b: string, c: string, d: string)
    requires |a| == |b| && FoldEq(a + c, b + d)
    ensures FoldEq(a, b) && FoldEq(c, d)
  {
    assert forall i :: 0 <= i < |a| ==> (a + c)[i] == a[i] && (b + d)[i] == b[i];
    assert forall i :: 0 <= i < |c| ==> (a + c)[|a| + i] == c[i];
    assert forall i :: 0 <= i < |d| ==> (b + d)[|b| + i] == d[i];
  }

  // The first code tells the first character.
  lemma CodeHeads(a: char, b: char, s: string, t: string)
    requires !('A' <= a <= 'Z') && !('A' <= b <= 'Z') && FoldEq(CodeChar(a) + s, CodeChar(b) + t)
    ensures a == b
  {
    var x, y := CodeChar(a) + s, CodeChar(b) + t;
    assert Fold(x[0]) == Fold(y[0]) && x[0] == CodeChar(a)[0] && y[0] == CodeChar(b)[0];
    if |CodeChar(a)| > 1 && |CodeChar(b)| > 1 {
      assert x[1] == CodeChar(a)[1] && y[1] == CodeChar(b)[1];
      assert Fold(x[1]) == Fold(y[1]);
    }
  }

  /** On lower-case text the code is injective, even when LIKE ignores case. */
  lemma {:induction false} CodeInjective(a: string, b: string)
    requires NoUpper(a) && NoUpper(b) && FoldEq(CodeMap(a), CodeMap(b))
    ensures a == b
  {
    if a != [] && b != [] {
      CodeHeads(a[0], b[0], CodeMap(a[1..]), CodeMap(b[1..]));
      hide FoldEq, CodeChar, Fold;
      FoldEqTail(CodeChar(a[0]), CodeChar(b[0]), CodeMap(a[1..]), CodeMap(b[1..]));
      CodeInjective(a[1..], b[1..]);
      assert a == [a[0]] + a[1..] && b == [b[0]] + b[1..];
    }
  }

  lemma {:induction false} CodeHasNoBar(s: string)
    ensures '|' !in CodeMap(s)
  {
    if s != [] { CodeHasNoBar(s[1..]); }
  }

  // ---------------------------------------------------------------- LIKE

  function EscapeChar(c: char): (r: string) {
    if c == '\\' || c == '%' || c == '_' then ['\\', c] else [c]
  }

  function EscapeMap(s: string): (r: string) {
    if s == [] then [] else EscapeChar(s[0]) + EscapeMap(s[1..])
  }

  lemma {:induction false} EscapeIsMap(s: string)
    ensures LikeEscape(s) == EscapeMap(s)
  {
    if s != [] {
      EscapeIsMap(s[1..]);
      var one := if s[0] == '\\' then "\\\\" else [s[0]];
      var rest1 := Replace(s[1..], '\\', "\\\\");
      ReplaceAppend(one, rest1, '%', "\\%");
      ReplaceShort(one, '%', "\\%");
      var two := Replace(one, '%', "\\%");
      ReplaceAppend(two, Replace(rest1, '%', "\\%"), '_', "\\_");
      ReplaceShort(two, '_', "\\_");
    }
  }

  /** An escaped term in a pattern matches the term itself, up to case, and nothing else. */
  lemma {:induction false} LikeLiteral(t: string, rest: string, s: string)
    ensures Like(EscapeMap(t) + rest, s) <==>
            |t| <= |s| && FoldEq(t, s[..|t|]) && Like(rest, s[|t|..])
    decreases |t|
  {
    if t == [] {
      assert EscapeMap(t) + rest == rest && s[0..] == s;
    } else if s != [] {
      var tail := EscapeMap(t[1..]) + rest;
      assert EscapeMap(t) + rest == EscapeChar(t[0]) + tail;
      LikeLiteral(t[1..], rest, s[1..]);
      if |t| <= |s| {
        assert s[1..][..|t| - 1] == s[..|t|][1..] && s[1..][|t| - 1..] == s[|t|..];
        assert FoldEq(t, s[..|t|]) <==> Fold(t[0]) == Fold(s[0]) && FoldEq(t[1..], s[..|t|][1..]) by {
          FoldEqCons(t, s[..|t|]);
        }
      }
      LikeEscapedChar(t[0], tail, s);
    } else {
      LikeEscapedEmpty(t[0], EscapeMap(t[1..]) + rest);
      assert EscapeMap(t) + rest == EscapeChar(t[0]) + (EscapeMap(t[1..]) + rest);
    }
  }

  lemma FoldEqCons(a: string, b: string)
    requires a != [] && |a| == |b|
    ensures FoldEq(a, b) <==> Fold(a[0]) == Fold(b[0]) && FoldEq(a[1..], b[1..])
  {
  }

  lemma LikeEscapedChar(c: char, tail: string, s: string)
    requires s != []
    ensures Like(EscapeChar(c) + tail, s) <==> Fold(c) == Fold(s[0]) && Like(tail, s[1..])
  {
  }

  lemma LikeEscapedEmpty(c: char, tail: string)
    ensures !Like(EscapeChar(c) + tail, [])
  {
  }

  lemma {:induction false} LikeAnywhere(p: string, s: string)
    ensures Like("%" + p, s) <==> exists k :: 0 <= k <= |s| && Like(p, s[k..])
    decreases |s|
  {
    var q := "%" + p;
    assert q[1..] == p && s[0..] == s;
    if s != [] {
      LikeAnywhere(p, s[1..]);
      assert forall k :: 0 <= k <= |s| - 1 ==> s[1..][k..] == s[k + 1..];
      if k :| 0 <= k <= |s| && Like(p, s[k..]) {
        if k > 0 { assert s[1..][k - 1..] == s[k..]; }
      }
    } else {
      assert forall k :: 0 <= k <= |s| ==> s[k..] == s;
    }
  }

  lemma LikeAll(s: string)
    ensures Like("%", s)
  {
  }

  lemma LikeBar(rest: string, s: string)
    ensures Like("|" + rest, s) <==> s != [] && s[0] == '|' && Like(rest, s[1..])
  {
  }

  /** `m` stands in `key` between two bars, at position `k`, up to case. */
  predicate BetweenBars(key: string, m: string, k: nat) {
    && k + |m| + 1 < |key| && key[k] == '|' && key[k + |m| + 1] == '|'
    && FoldEq(m, key[k + 1..k + 1 + |m|])
  }

  lemma PatternAt(m: string, s: string)
    ensures Like("|" + (EscapeMap(m) + "|%"), s) <==> BetweenBars(s, m, 0)
  {
    LikeBar(EscapeMap(m) + "|%", s);
    if s != [] {
      var t := s[1..];
      LikeLiteral(m, "|%", t);
      if |m| <= |t| {
        assert t[..|m|] == s[1..1 + |m|];
        assert "|%" == "|" + "%";
        LikeBar("%", t[|m|..]);
        if t[|m|..] != [] { LikeAll(t[|m|..][1..]); }
      }
    }
  }

  lemma PatternMatches(m: string, key: string)
    ensures Like("%|" + EscapeMap(m) + "|%", key) <==> HasBetween(key, m)
  {
    var p := "|" + (EscapeMap(m) + "|%");
    assert "%|" + EscapeMap(m) + "|%" == "%" + p;
    LikeAnywhere(p, key);
    forall k: nat | k <= |key| ensures Like(p, key[k..]) <==> BetweenBars(key, m, k) {
      PatternAt(m, key[k..]);
      BarsShift(key, m, k);
    }
    if k: nat :| BetweenBars(key, m, k) { assert Like(p, key[k..]); }
  }

  lemma BarsShift(key: string, m: string, k: nat)
    requires k <= |key|
    ensures BetweenBars(key[k..], m, 0) <==> BetweenBars(key, m, k)
  {
  }

  // ---------------------------------------------------------------- segments of the key

  function Barred(codes: seq<string>): (r: string) {
    if codes == [] then "|" else "|" + codes[0] + Barred(codes[1..])
  }

  lemma {:induction false} KeyIsBarred(codes: seq<string>)
    requires codes != []
    ensures "|" + Join(codes) + "|" == Barred(codes)
  {
    if |codes| == 1 {
      assert codes[1..] == [];
    } else {
      KeyIsBarred(codes[1..]);
      assert "|" + Join(codes) + "|" == "|" + codes[0] + ("|" + Join(codes[1..]) + "|");
    }
  }

  lemma FoldEqNoBar(a: string, b: string)
    requires FoldEq(a, b) && '|' !in a
    ensures '|' !in b
  {
  }

  lemma OnlySameLength(c: string, rest: string, m: string)
    requires '|' !in c && '|' !in m && rest != [] && rest[0] == '|' && |m| != |c|
    ensures !BetweenBars("|" + c + rest, m, 0)
  {
    var key := "|" + c + rest;
    if |m| < |c| {
      assert key[|m| + 1] == c[|m|] && c[|m|] in c;
    } else if |m| + 1 < |key| {
      var middle := key[1..1 + |m|];
      assert middle[|c|] == key[1 + |c|] == '|';
      if FoldEq(m, middle) { FoldEqNoBar(m, middle); }
    }
  }

  // The first segment, or a later one.
  lemma BarsInHead(c: string, rest: string, m: string)
    requires '|' !in c && '|' !in m && rest != [] && rest[0] == '|'
    ensures BetweenBars("|" + c + rest, m, 0) <==> FoldEq(m, c)
    ensures forall k: nat :: 1 <= k <= |c| ==> !BetweenBars("|" + c + rest, m, k)
  {
    var key := "|" + c + rest;
    assert forall i :: 0 <= i < |c| ==> key[1 + i] == c[i] && c[i] in c;
    assert key[1 + |c|] == '|';
    if |m| != |c| {
      OnlySameLength(c, rest, m);
    } else {
      assert key[1..1 + |m|] == c;
    }
  }

  lemma BarsInTail(c: string, rest: string, m: string)
    ensures var key := "|" + c + rest;
            forall k: nat :: k <= |rest| ==> (BetweenBars(rest, m, k) <==> BetweenBars(key, m, k + (|c| + 1)))
  {
  }

  ghost predicate HasBetween(key: string, m: string) {
    exists k: nat :: BetweenBars(key, m, k)
  }

  ghost predicate HasCode(codes: seq<string>, m: string) {
    exists c :: c in codes && FoldEq(m, c)
  }

  lemma HasCodeCons(codes: seq<string>, m: string)
    requires codes != []
    ensures HasCode(codes, m) <==> FoldEq(m, codes[0]) || HasCode(codes[1..], m)
  {
  }

  lemma {:induction false} BarsFindCodes(codes: seq<string>, m: string)
    requires '|' !in m && forall c :: c in codes ==> '|' !in c
    ensures HasBetween(Barred(codes), m) <==> HasCode(codes, m)
  {
    if codes != [] {
      var c, tail := codes[0], codes[1..];
      var rest := Barred(tail);
      assert rest != [] && rest[0] == '|';
      BarsFindCodes(tail, m);
      HasCodeCons(codes, m);
      BarsSplit(c, rest, m);
    } else {
      assert Barred(codes) == "|";
    }
  }

  lemma BarsWithin(key: string, m: string)
    ensures forall k: nat :: BetweenBars(key, m, k) ==> k < |key|
  {
  }

  lemma BarsSplit(c: string, rest: string, m: string)
    requires '|' !in c && '|' !in m && rest != [] && rest[0] == '|'
    ensures HasBetween("|" + c + rest, m) <==> FoldEq(m, c) || HasBetween(rest, m)
  {
    hide BetweenBars, FoldEq;
    var key, n := "|" + c + rest, |c| + 1;
    BarsInHead(c, rest, m);
    BarsInTail(c, rest, m);
    BarsWithin(key, m);
    BarsWithin(rest, m);
    if k: nat :| BetweenBars(key, m, k) {
      if k >= n { assert BetweenBars(rest, m, k - n) <==> BetweenBars(key, m, k - n + n); }
    }
    if k: nat :| BetweenBars(rest, m, k) {
      assert BetweenBars(key, m, k + n);
    }
  }

  lemma InsertedHas(x: string, sorted: seq<string>, c: string)
    ensures c in InsertSorted(x, sorted) <==> c == x || c in sorted
  {
    hide InsertSorted;
    var all := InsertSorted(x, sorted);
    assert c in all <==> c in multiset(all);
    assert c in sorted <==> c in multiset(sorted);
  }

  lemma {:induction false} SortedCodesAre(lowered: seq<string>, c: string)
    ensures c in SortedCodes(lowered) <==> exists l :: l in lowered && LabelCode(l) == c
  {
    hide InsertSorted, LabelCode;
    if lowered != [] {
      SortedCodesAre(lowered[1..], c);
      InsertedHas(LabelCode(lowered[0]), SortedCodes(lowered[1..]), c);
      assert lowered == [lowered[0]] + lowered[1..];
      if LabelCode(lowered[0]) == c { assert lowered[0] in lowered; }
    }
  }

  /**
   * The filter finds an issue exactly when one of its labels has the queried lower-case text, also
   * for labels that hold bars, percent signs, underscores or backslashes. The one exception is an
   * empty query on an issue without labels, which the API does not let through.
   */
  lemma FilterFindsLabel(lowered: seq<string>, query: string)
    requires NoUpper(query) && forall l :: l in lowered ==> NoUpper(l)
    ensures Like(LabelPattern(query), LabelsKey(lowered)) <==> query in lowered || (lowered == [] && query == [])
  {
    var m := LabelCode(query);
    CodeIsMap(query);
    CodeHasNoBar(query);
    EscapeIsMap(m);
    PatternMatches(m, LabelsKey(lowered));
    if lowered == [] {
      assert LabelsKey([]) == "||";
      OnlyEmptyFits(m);
      if query != [] { assert |CodeMap(query)| > 0; }
    } else {
      var codes := SortedCodes(lowered);
      SortedCodesAre(lowered, m);
      KeyIsBarred(codes);
      forall c | c in codes ensures '|' !in c {
        SortedCodesAre(lowered, c);
        var l :| l in lowered && LabelCode(l) == c;
        CodeIsMap(l);
        CodeHasNoBar(l);
      }
      BarsFindCodes(codes, m);
      CodesFind(lowered, query);
    }
  }

  lemma OnlyEmptyFits(m: string)
    ensures HasBetween("||", m) <==> m == []
  {
    if m == [] { assert BetweenBars("||", m, 0); }
  }

  lemma CodesFind(lowered: seq<string>, query: string)
    requires NoUpper(query) && forall l :: l in lowered ==> NoUpper(l)
    ensures HasCode(SortedCodes(lowered), LabelCode(query)) <==> query in lowered
  {
    if query in lowered {
      SortedCodesAre(lowered, LabelCode(query));
      assert FoldEq(LabelCode(query), LabelCode(query));
    }
    if c :| c in SortedCodes(lowered) && FoldEq(LabelCode(query), c) {
      SortedCodesAre(lowered, c);
      var l :| l in lowered && LabelCode(l) == c;
      CodeIsMap(query);
      CodeIsMap(l);
      CodeInjective(query, l);
    }
  }

  /** The same for any lower-casing function whose results hold no ASCII capitals, as Python's does. */
  lemma FilterFindsLabelAnyCase(lower: string -> string, labels: seq<string>, query: string)
    requires forall s :: NoUpper(lower(s))
    requires lower(query) != []
    ensures var lowered := seq(|labels|, i requires 0 <= i < |labels| => lower(labels[i]));
            Like(LabelPattern(lower(query)), LabelsKey(lowered)) <==>
            exists l :: l in labels && lower(l) == lower(query)
  {
    var lowered := seq(|labels|, i requires 0 <= i < |labels| => lower(labels[i]));
    assert forall l :: l in lowered ==> NoUpper(l);
    FilterFindsLabel(lowered, lower(query));
    if l :| l in labels && lower(l) == lower(query) {
      var i :| 0 <= i < |labels| && labels[i] == l;
      assert lowered[i] == lower(query);
    }
    if lower(query) in lowered {
      var i :| 0 <= i < |lowered| && lowered[i] == lower(query);
      assert labels[i] in labels;
    }
  }
}
