/** Policy evaluation: sort the rules, take the first that matches; and what that decides, said without sorting. */
module PolicyDecision {
  import opened Prelude
  import opened UnicodeText

  datatype Effect = Allow | Deny

  datatype Principal = Principal(kind: string, id: string)

  datatype SubjectSelector = SubjectSelector(kind: Option<string>, id: Option<string>, machineId: Option<string>,
                                             group: Option<string>, itself: bool)

  datatype ResourceSelector = ResourceSelector(kind: Option<string>, id: Option<string>, principalGroup: Option<string>)

  datatype Rule = Rule(id: string, priority: int, effect: Effect, subjects: seq<SubjectSelector>, actions: seq<string>,
                       resources: seq<ResourceSelector>)

  type Groups = map<string, seq<Principal>>

  datatype Document = Document(schema: int, defaults: map<string, Effect>, groups: Groups, rules: seq<Rule>)

  datatype Subject = Subject(kind: Option<string>, id: Option<string>, machineId: Option<string>)

  datatype Resource = Resource(kind: Option<string>, id: Option<string>, principalKind: Option<string>, principalId: Option<string>)

  datatype Query = Query(subject: Subject, action: string, resource: Resource)

  // ---------------------------------------------------------------- matching

  predicate Accepts(wanted: Option<string>, actual: Option<string>) {
    wanted.None? || wanted == actual
  }

  predicate GroupContains(groups: Groups, name: string, kind: Option<string>, id: Option<string>) {
    name in groups && exists i :: 0 <= i < |groups[name]| && Some(groups[name][i].kind) == kind && Some(groups[name][i].id) == id
  }

  // An absent or empty group name asks for nothing.
  predicate InGroup(groups: Groups, name: Option<string>, kind: Option<string>, id: Option<string>) {
    name.None? || name.value == "" || GroupContains(groups, name.value, kind, id)
  }

  predicate SubjectMatches(s: SubjectSelector, q: Query, groups: Groups) {
    && Accepts(s.kind, q.subject.kind) && Accepts(s.id, q.subject.id) && Accepts(s.machineId, q.subject.machineId)
    && InGroup(groups, s.group, q.subject.kind, q.subject.id)
    && (s.itself ==> q.resource.id == q.subject.id)
  }

  predicate ResourceMatches(s: ResourceSelector, q: Query, groups: Groups) {
    && Accepts(s.kind, q.resource.kind) && Accepts(s.id, q.resource.id)
    && InGroup(groups, s.principalGroup, q.resource.principalKind, q.resource.principalId)
  }

  predicate Matches(r: Rule, q: Query, groups: Groups) {
    && q.action in r.actions
    && (exists i :: 0 <= i < |r.subjects| && SubjectMatches(r.subjects[i], q, groups))
    && (exists i :: 0 <= i < |r.resources| && ResourceMatches(r.resources[i], q, groups))
  }

  // ---------------------------------------------------------------- sort, then first match

  /** The sort key, as an order: higher priority first, then deny before allow. */
  predicate Precedes(a: Rule, b: Rule) {
    a.priority > b.priority || (a.priority == b.priority && a.effect.Deny? && b.effect.Allow?)
  }

  // Stable: behind every rule that does not come later.
  function InsertRule(sorted: seq<Rule>, r: Rule): seq<Rule> {
    if sorted == [] || !Precedes(r, sorted[|sorted| - 1]) then sorted + [r]
    else InsertRule(sorted[..|sorted| - 1], r) + [sorted[|sorted| - 1]]
  }

  function SortRules(rules: seq<Rule>): seq<Rule> {
    if rules == [] then [] else InsertRule(SortRules(rules[..|rules| - 1]), rules[|rules| - 1])
  }

  function FirstMatch(rules: seq<Rule>, q: Query, groups: Groups): Option<Rule> {
    if rules == [] then None
    else
      var earlier := FirstMatch(rules[..|rules| - 1], q, groups);
      if earlier.Some? then earlier
      else if Matches(rules[|rules| - 1], q, groups) then Some(rules[|rules| - 1])
      else None
  }

  function DefaultEffect(d: Document, action: string): Effect {
    if action in d.defaults then d.defaults[action] else Allow
  }

  datatype Outcome = Outcome(effect: Effect, decision: Effect, matched: Option<string>)

  datatype EvaluateError = InvalidRequest | CoreExplainRequired

  /** `evaluate_request` once the request has been read; `enforce` is the mode of the bundle. */
  function Decide(d: Document, enforce: bool, q: Query): Outcome {
    var matched := FirstMatch(SortRules(d.rules), q, d.groups);
    var effect := if matched.Some? then matched.value.effect else DefaultEffect(d, q.action);
    Outcome(effect, if enforce && effect.Deny? then Deny else Allow, if matched.Some? then Some(matched.value.id) else None)
  }

  // `validate_token`; which characters are printable is left to the caller.
  predicate Token(printable: char -> bool, s: string) {
    && s != [] && Utf8Size(s) <= 128 && !Space(s[0]) && !Space(s[|s| - 1])
    && forall i :: 0 <= i < |s| ==> printable(s[i])
  }

  predicate TokenIfAny(printable: char -> bool, s: Option<string>) {
    s.Some? ==> Token(printable, s.value)
  }

  function Evaluate(printable: char -> bool, d: Document, enforce: bool, q: Query): Result<Outcome, EvaluateError> {
    if !(&& TokenIfAny(printable, q.subject.kind) && TokenIfAny(printable, q.subject.id)
         && TokenIfAny(printable, q.subject.machineId) && TokenIfAny(printable, q.resource.kind)
         && TokenIfAny(printable, q.resource.id) && TokenIfAny(printable, q.resource.principalKind)
         && TokenIfAny(printable, q.resource.principalId) && Token(printable, q.action)) then Err(InvalidRequest)
    else if d.schema != 1 then Err(CoreExplainRequired)
    else Ok(Decide(d, enforce, q))
  }

  // ---------------------------------------------------------------- what it means

  ghost predicate Member(groups: Groups, name: string, kind: Option<string>, id: Option<string>) {
    name in groups && exists p :: p in groups[name] && kind == Some(p.kind) && id == Some(p.id)
  }

  // A group name that is not given asks for nothing, and neither does an empty one.
  ghost predicate Belongs(groups: Groups, name: Option<string>, kind: Option<string>, id: Option<string>) {
    name.Some? && name.value != "" ==> Member(groups, name.value, kind, id)
  }

  /** Every field that the selector names is the caller's, the group holds the caller, and "self" is the caller's own resource. */
  ghost predicate Concerns(s: SubjectSelector, q: Query, groups: Groups) {
    && (s.kind.Some? ==> q.subject.kind == s.kind)
    && (s.id.Some? ==> q.subject.id == s.id)
    && (s.machineId.Some? ==> q.subject.machineId == s.machineId)
    && Belongs(groups, s.group, q.subject.kind, q.subject.id)
    && (s.itself ==> q.subject.id == q.resource.id)
  }

  /** Every field that the selector names is the resource's, and the group holds the principal behind it. */
  ghost predicate Covers(s: ResourceSelector, q: Query, groups: Groups) {
    && (s.kind.Some? ==> q.resource.kind == s.kind)
    && (s.id.Some? ==> q.resource.id == s.id)
    && Belongs(groups, s.principalGroup, q.resource.principalKind, q.resource.principalId)
  }

  /** The rule is about this action, this caller and this resource. */
  ghost predicate Bears(r: Rule, q: Query, groups: Groups) {
    && (exists a :: a in r.actions && a == q.action)
    && (exists s :: s in r.subjects && Concerns(s, q, groups))
    && (exists s :: s in r.resources && Covers(s, q, groups))
  }

  /** A deny rule wins over every allow rule of the same or a lower priority, among those that bear on the query. */
  ghost predicate Denied(rules: seq<Rule>, q: Query, groups: Groups) {
    exists r :: r in rules && Bears(r, q, groups) && r.effect.Deny? &&
      forall a :: a in rules && Bears(a, q, groups) && a.effect.Allow? ==> r.priority >= a.priority
  }

  ghost predicate AnyBears(rules: seq<Rule>, q: Query, groups: Groups) {
    exists r :: r in rules && Bears(r, q, groups)
  }

  ghost function Meaning(d: Document, q: Query): Effect {
    if Denied(d.rules, q, d.groups) then Deny
    else if AnyBears(d.rules, q, d.groups) then Allow
    else if q.action in d.defaults then d.defaults[q.action]
    else Allow
  }

  /** Non-empty, at most 128 bytes, printable and trimmed. */
  ghost predicate WellFormed(printable: char -> bool, s: string) {
    && 1 <= |Encoded(s)| <= 128 && (forall c :: c in s ==> printable(c))
    && s != "" && !Space(s[0]) && !Space(s[|s| - 1])
  }

  ghost function Optional(q: Query): seq<Option<string>> {
    [q.subject.kind, q.subject.id, q.subject.machineId, q.resource.kind, q.resource.id, q.resource.principalKind,
     q.resource.principalId]
  }

  /** The texts that a query carries. */
  ghost function Texts(q: Query): set<string> {
    {q.action} + set t | t in Optional(q) && t.Some? :: t.value
  }

  // ---------------------------------------------------------------- matching is bearing

  lemma GroupMeans(groups: Groups, name: Option<string>, kind: Option<string>, id: Option<string>)
    ensures InGroup(groups, name, kind, id) <==> Belongs(groups, name, kind, id)
  {
  }

  lemma SubjectMeans(s: SubjectSelector, q: Query, groups: Groups)
    ensures SubjectMatches(s, q, groups) <==> Concerns(s, q, groups)
  {
    GroupMeans(groups, s.group, q.subject.kind, q.subject.id);
    hide InGroup, Belongs;
  }

  lemma ResourceMeans(s: ResourceSelector, q: Query, groups: Groups)
    ensures ResourceMatches(s, q, groups) <==> Covers(s, q, groups)
  {
    GroupMeans(groups, s.principalGroup, q.resource.principalKind, q.resource.principalId);
    hide InGroup, Belongs;
  }

  /** What the code matches is what bears on the query. */
  lemma MatchesMeans(r: Rule, q: Query, groups: Groups)
    ensures Matches(r, q, groups) <==> Bears(r, q, groups)
  {
    hide SubjectMatches, Concerns, ResourceMatches, Covers;
    forall s ensures SubjectMatches(s, q, groups) <==> Concerns(s, q, groups) { SubjectMeans(s, q, groups); }
    forall s ensures ResourceMatches(s, q, groups) <==> Covers(s, q, groups) { ResourceMeans(s, q, groups); }
  }

  // ---------------------------------------------------------------- proof

  ghost predicate SortedRules(s: seq<Rule>) {
    forall i, j :: 0 <= i < j < |s| ==> !Precedes(s[j], s[i])
  }

  lemma {:induction false} InsertPermutes(s: seq<Rule>, r: Rule)
    ensures multiset(InsertRule(s, r)) == multiset(s) + multiset{r}
  {
    hide Precedes;
    if s != [] {
      var rest, last := s[..|s| - 1], s[|s| - 1];
      InsertPermutes(rest, r);
      assert s == rest + [last];
    }
  }

  // Nothing in the list is preceded by r.
  ghost predicate NoneAfter(s: seq<Rule>, r: Rule) {
    forall i :: 0 <= i < |s| ==> !Precedes(r, s[i])
  }

  lemma {:induction false} InsertSorted(s: seq<Rule>, r: Rule)
    requires SortedRules(s)
    ensures SortedRules(InsertRule(s, r))
    ensures forall x :: NoneAfter(s, x) && !Precedes(x, r) ==> NoneAfter(InsertRule(s, r), x)
  {
    if s != [] && Precedes(r, s[|s| - 1]) {
      var rest, last := s[..|s| - 1], s[|s| - 1];
      InsertSorted(rest, r);
      assert NoneAfter(rest, last);
      assert NoneAfter(InsertRule(rest, r), last);
      forall x | NoneAfter(s, x) && !Precedes(x, r) ensures NoneAfter(InsertRule(s, r), x) {
        assert NoneAfter(rest, x);
      }
    } else {
      forall i | 0 <= i < |s| ensures !Precedes(r, s[i]) { }
    }
  }

  lemma {:induction false} SortIsOrdered(rules: seq<Rule>)
    ensures SortedRules(SortRules(rules))
  {
    if rules != [] {
      SortIsOrdered(rules[..|rules| - 1]);
      InsertSorted(SortRules(rules[..|rules| - 1]), rules[|rules| - 1]);
    }
  }

  /** The sort is a sort: the same rules, none before one that precedes it. */
  lemma {:induction false} SortIsSorted(rules: seq<Rule>)
    ensures SortedRules(SortRules(rules)) && multiset(SortRules(rules)) == multiset(rules)
  {
    hide SortedRules, InsertRule;
    SortIsOrdered(rules);
    if rules != [] {
      var rest, last := rules[..|rules| - 1], rules[|rules| - 1];
      SortIsSorted(rest);
      InsertPermutes(SortRules(rest), last);
      assert rules == rest + [last];
    }
  }

  lemma FirstSnoc(rules: seq<Rule>, r: Rule, q: Query, groups: Groups)
    ensures FirstMatch(rules + [r], q, groups) ==
            var earlier := FirstMatch(rules, q, groups);
            if earlier.Some? then earlier else if Bears(r, q, groups) then Some(r) else None
  {
    MatchesMeans(r, q, groups);
    hide Matches, Bears;
  }

  lemma {:induction false} FirstIsOne(rules: seq<Rule>, q: Query, groups: Groups)
    ensures var m := FirstMatch(rules, q, groups);
            m.Some? ==> m.value in rules && Bears(m.value, q, groups)
  {
    hide Matches, Bears;
    if rules != [] {
      FirstIsOne(rules[..|rules| - 1], q, groups);
      MatchesMeans(rules[|rules| - 1], q, groups);
    }
  }

  // One more rule displaces the match exactly if it matches and precedes it.
  lemma {:induction false} FirstInserted(s: seq<Rule>, r: Rule, q: Query, groups: Groups)
    requires SortedRules(s)
    ensures FirstMatch(InsertRule(s, r), q, groups) ==
            var m := FirstMatch(s, q, groups);
            if Bears(r, q, groups) && (m.None? || Precedes(r, m.value)) then Some(r) else m
  {
    hide Bears;
    if s == [] || !Precedes(r, s[|s| - 1]) {
      FirstSnoc(s, r, q, groups);
      FirstIsOne(s, q, groups);
    } else {
      var rest, last := s[..|s| - 1], s[|s| - 1];
      FirstInserted(rest, r, q, groups);
      FirstSnoc(InsertRule(rest, r), last, q, groups);
    }
  }

  /** The match: earliest in document order among the matching rules that nothing matching precedes. */
  ghost predicate Best(rules: seq<Rule>, q: Query, groups: Groups, i: int) {
    && 0 <= i < |rules| && Bears(rules[i], q, groups)
    && (forall j :: 0 <= j < |rules| && Bears(rules[j], q, groups) ==> !Precedes(rules[j], rules[i]))
    && (forall j :: 0 <= j < i && Bears(rules[j], q, groups) ==> Precedes(rules[i], rules[j]))
  }

  // A rule appended last takes over if it precedes the best so far, or is the first to match.
  lemma LastIsBest(rest: seq<Rule>, last: Rule, q: Query, groups: Groups, i: int)
    requires Bears(last, q, groups)
    requires AnyBears(rest, q, groups) ==> Best(rest, q, groups, i) && Precedes(last, rest[i])
    ensures Best(rest + [last], q, groups, |rest|)
  {
  }

  lemma BestStays(rest: seq<Rule>, last: Rule, q: Query, groups: Groups, i: int)
    requires Best(rest, q, groups, i) && !(Bears(last, q, groups) && Precedes(last, rest[i]))
    ensures Best(rest + [last], q, groups, i)
  {
  }

  ghost predicate Answers(rules: seq<Rule>, q: Query, groups: Groups, m: Option<Rule>, i: int) {
    if AnyBears(rules, q, groups) then Best(rules, q, groups, i) && m == Some(rules[i]) else m == None
  }

  lemma AnswersSnoc(rest: seq<Rule>, last: Rule, q: Query, groups: Groups, m: Option<Rule>, i: int)
    requires Answers(rest, q, groups, m, i)
    ensures if Bears(last, q, groups) && (m.None? || Precedes(last, m.value))
            then Answers(rest + [last], q, groups, Some(last), |rest|)
            else Answers(rest + [last], q, groups, m, i)
  {
    AnySnoc(rest, last, q, groups);
    hide Bears, AnyBears;
    if Bears(last, q, groups) && (m.None? || Precedes(last, m.value)) {
      LastIsBest(rest, last, q, groups, i);
    } else if AnyBears(rest, q, groups) {
      BestStays(rest, last, q, groups, i);
    }
  }

  lemma AnswersNone(q: Query, groups: Groups)
    ensures Answers([], q, groups, FirstMatch(SortRules([]), q, groups), 0)
  {
  }

  lemma SortSnoc(rest: seq<Rule>, last: Rule)
    ensures SortRules(rest + [last]) == InsertRule(SortRules(rest), last) && SortedRules(SortRules(rest))
  {
    assert (rest + [last])[..|rest|] == rest;
    SortIsOrdered(rest);
  }

  /** What the sorted search finds, in terms of the document alone. */
  lemma {:induction false} MatchedIsBest(rules: seq<Rule>, q: Query, groups: Groups) returns (i: int)
    ensures Answers(rules, q, groups, FirstMatch(SortRules(rules), q, groups), i)
  {
    hide Bears, Answers, InsertRule, FirstMatch, Precedes, SortedRules, SortRules;
    if rules == [] {
      AnswersNone(q, groups);
      i := 0;
    } else {
      var rest, last := rules[..|rules| - 1], rules[|rules| - 1];
      i := MatchedIsBest(rest, q, groups);
      assert rules == rest + [last];
      var m := FirstMatch(SortRules(rest), q, groups);
      SortSnoc(rest, last);
      FirstInserted(SortRules(rest), last, q, groups);
      AnswersSnoc(rest, last, q, groups, m, i);
      if Bears(last, q, groups) && (m.None? || Precedes(last, m.value)) { i := |rest|; }
    }
  }

  lemma AnySnoc(rest: seq<Rule>, last: Rule, q: Query, groups: Groups)
    ensures AnyBears(rest + [last], q, groups) <==> AnyBears(rest, q, groups) || Bears(last, q, groups)
    ensures !AnyBears(rest, q, groups) ==> forall j :: 0 <= j < |rest| ==> !Bears(rest[j], q, groups)
  {
  }

  /** The effect is the declarative meaning, for every document and query. */
  lemma EffectIsMeaning(d: Document, enforce: bool, q: Query)
    ensures Decide(d, enforce, q).effect == Meaning(d, q)
    ensures Decide(d, enforce, q).decision.Deny? <==> enforce && Meaning(d, q).Deny?
  {
    var i := MatchedIsBest(d.rules, q, d.groups);
    hide Bears, SortRules, FirstMatch;
    if AnyBears(d.rules, q, d.groups) {
      var best := d.rules[i];
      assert best in d.rules;
      if best.effect.Deny? {
        DenyWins(d.rules, q, d.groups, i);
      } else {
        AllowWins(d.rules, q, d.groups, i);
      }
    }
  }

  lemma TokenMeans(printable: char -> bool, s: string)
    ensures Token(printable, s) <==> WellFormed(printable, s)
  {
    SizeIsEncoded(s);
  }

  ghost predicate OptionalOk(printable: char -> bool, q: Query) {
    forall i :: 0 <= i < |Optional(q)| ==> TokenIfAny(printable, Optional(q)[i])
  }

  lemma OptionalMeans(printable: char -> bool, d: Document, enforce: bool, q: Query)
    ensures Evaluate(printable, d, enforce, q) == Err(InvalidRequest) <==> !(OptionalOk(printable, q) && Token(printable, q.action))
  {
    hide TokenIfAny, Token, Decide;
    var all := Optional(q);
    assert all[0] == q.subject.kind && all[1] == q.subject.id && all[2] == q.subject.machineId;
    assert all[3] == q.resource.kind && all[4] == q.resource.id;
    assert all[5] == q.resource.principalKind && all[6] == q.resource.principalId;
  }

  lemma TextsMean(printable: char -> bool, q: Query)
    ensures (forall t :: t in Texts(q) ==> WellFormed(printable, t)) <==> OptionalOk(printable, q) && Token(printable, q.action)
  {
    hide Token, WellFormed, Optional;
    forall s ensures Token(printable, s) <==> WellFormed(printable, s) { TokenMeans(printable, s); }
    var all := Optional(q);
    if forall t :: t in Texts(q) ==> WellFormed(printable, t) {
      assert q.action in Texts(q);
      forall i | 0 <= i < |all| ensures TokenIfAny(printable, all[i]) {
        if all[i].Some? { assert all[i] in all && all[i].value in Texts(q); }
      }
    }
    if OptionalOk(printable, q) && Token(printable, q.action) {
      forall t | t in Texts(q) ensures WellFormed(printable, t) {
        if t != q.action {
          var i :| 0 <= i < |all| && all[i] == Some(t);
          assert TokenIfAny(printable, all[i]);
        }
      }
    }
  }

  /**
   * A dry run is answered exactly for well-formed texts and a first-version document. The answer is that
   * meaning, and names the earliest best rule in document order.
   */
  lemma EvaluateMeans(printable: char -> bool, d: Document, enforce: bool, q: Query) returns (i: int)
    ensures var r := Evaluate(printable, d, enforce, q);
            && (r == Err(InvalidRequest) <==> exists t :: t in Texts(q) && !WellFormed(printable, t))
            && (r.Ok? <==> d.schema == 1 && forall t :: t in Texts(q) ==> WellFormed(printable, t))
            && (r.Ok? ==>
                  && r.value.effect == Meaning(d, q)
                  && (r.value.decision.Deny? <==> enforce && Meaning(d, q).Deny?)
                  && (if AnyBears(d.rules, q, d.groups) then Best(d.rules, q, d.groups, i) && r.value.matched == Some(d.rules[i].id)
                      else r.value.matched == None))
  {
    EffectIsMeaning(d, enforce, q);
    i := MatchedIsBest(d.rules, q, d.groups);
    OptionalMeans(printable, d, enforce, q);
    TextsMean(printable, q);
    hide Meaning, Best, AnyBears, Token, TokenIfAny, SortRules, FirstMatch, Texts, WellFormed, OptionalOk;
  }

  lemma DenyWins(rules: seq<Rule>, q: Query, groups: Groups, i: int)
    requires Best(rules, q, groups, i) && rules[i].effect.Deny?
    ensures Denied(rules, q, groups)
  {
  }

  lemma AllowWins(rules: seq<Rule>, q: Query, groups: Groups, i: int)
    requires Best(rules, q, groups, i) && rules[i].effect.Allow?
    ensures !Denied(rules, q, groups)
  {
  }

  /** The order of the rules in the document does not matter to the effect. */
  lemma OrderDoesNotMatter(d: Document, rules: seq<Rule>, enforce: bool, q: Query)
    requires multiset(rules) == multiset(d.rules)
    ensures Decide(d.(rules := rules), enforce, q).effect == Decide(d, enforce, q).effect
    ensures Decide(d.(rules := rules), enforce, q).decision == Decide(d, enforce, q).decision
  {
    EffectIsMeaning(d, enforce, q);
    EffectIsMeaning(d.(rules := rules), enforce, q);
    forall r ensures r in rules <==> r in d.rules {
      assert r in multiset(rules) <==> r in multiset(d.rules);
    }
    hide Bears, Decide;
    SameMeaning(d, rules, q);
  }

  lemma SameMeaning(d: Document, rules: seq<Rule>, q: Query)
    requires forall r :: r in rules <==> r in d.rules
    ensures Meaning(d.(rules := rules), q) == Meaning(d, q)
  {
  }

  // ---------------------------------------------------------------- rules that do not bear

  // Where a rule stands in the document, and where it stands without the one at `n`.
  function Shifted(i: int, n: int): int {
    if i < n then i else i - 1
  }

  lemma ShiftedBest(a: seq<Rule>, r: Rule, b: seq<Rule>, q: Query, groups: Groups, i: int)
    requires !Bears(r, q, groups) && Best(a + [r] + b, q, groups, i)
    ensures Best(a + b, q, groups, Shifted(i, |a|)) && (a + b)[Shifted(i, |a|)] == (a + [r] + b)[i]
  {
    hide Bears;
    var all, rest := a + [r] + b, a + b;
    forall j | 0 <= j < |rest| ensures rest[j] == all[if j < |a| then j else j + 1] { }
    assert all[|a|] == r;
  }

  lemma OneBest(rules: seq<Rule>, q: Query, groups: Groups, i: int, j: int)
    requires Best(rules, q, groups, i) && Best(rules, q, groups, j)
    ensures i == j
  {
  }

  lemma SameBearing(a: seq<Rule>, r: Rule, b: seq<Rule>, q: Query, groups: Groups)
    requires !Bears(r, q, groups)
    ensures AnyBears(a + [r] + b, q, groups) <==> AnyBears(a + b, q, groups)
  {
    hide Bears;
    forall x ensures x in a + [r] + b <==> x in a + b || x == r { }
  }

  /** A rule that does not bear on a query, wherever it stands, changes nothing: not the effect, the decision or the rule named. */
  lemma IrrelevantRule(d: Document, a: seq<Rule>, r: Rule, b: seq<Rule>, enforce: bool, q: Query)
    requires d.rules == a + [r] + b && !Bears(r, q, d.groups)
    ensures Decide(d.(rules := a + b), enforce, q) == Decide(d, enforce, q)
  {
    var i := MatchedIsBest(d.rules, q, d.groups);
    var j := MatchedIsBest(a + b, q, d.groups);
    SameBearing(a, r, b, q, d.groups);
    hide Bears, Best, FirstMatch, SortRules;
    if AnyBears(d.rules, q, d.groups) {
      ShiftedBest(a, r, b, q, d.groups, i);
      OneBest(a + b, q, d.groups, j, Shifted(i, |a|));
    }
  }

  /** In particular a rule none of whose resource selectors covers the resource. */
  lemma OtherResources(d: Document, a: seq<Rule>, r: Rule, b: seq<Rule>, enforce: bool, q: Query)
    requires d.rules == a + [r] + b && forall s :: s in r.resources ==> !Covers(s, q, d.groups)
    ensures Decide(d.(rules := a + b), enforce, q) == Decide(d, enforce, q)
  {
    IrrelevantRule(d, a, r, b, enforce, q);
  }
}
