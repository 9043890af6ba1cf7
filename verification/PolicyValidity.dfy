/** Which policy documents are accepted, published and loaded, said field by field. */
module PolicyValidity {
  import opened Prelude
  import opened UnicodeText
  import opened PolicyDecision
  import opened PolicyHistory

  // ---------------------------------------------------------------- documents

  ghost predicate Word(v: Vocabulary, s: string) {
    WellFormed(v.printable, s)
  }

  ghost predicate WordIfAny(v: Vocabulary, s: Option<string>) {
    s.Some? ==> Word(v, s.value)
  }

  ghost predicate KnownKind(s: string) {
    s == "human" || s == "agent" || s == "machine" || s == "service"
  }

  ghost predicate KnownGroup(groups: Groups, name: Option<string>) {
    name.Some? ==> name.value in groups
  }

  ghost predicate SoundSubject(v: Vocabulary, s: SubjectSelector, groups: Groups) {
    && WordIfAny(v, s.kind) && WordIfAny(v, s.id) && WordIfAny(v, s.machineId)
    && (s.kind.Some? ==> KnownKind(s.kind.value)) && KnownGroup(groups, s.group)
  }

  ghost predicate SoundResource(v: Vocabulary, s: ResourceSelector, groups: Groups) {
    WordIfAny(v, s.kind) && WordIfAny(v, s.id) && KnownGroup(groups, s.principalGroup)
  }

  /** A rule says who, what and on what, and names only groups that exist. */
  ghost predicate SoundRule(v: Vocabulary, r: Rule, groups: Groups) {
    && Word(v, r.id) && -0x8000_0000 <= r.priority <= 0x7fff_ffff
    && |r.subjects| >= 1 && |r.actions| >= 1 && |r.resources| >= 1
    && (forall a :: a in r.actions ==> Word(v, a))
    && (forall s :: s in r.subjects ==> SoundSubject(v, s, groups))
    && (forall s :: s in r.resources ==> SoundResource(v, s, groups))
  }

  ghost predicate DistinctIds(rules: seq<Rule>) {
    forall i, j :: 0 <= i < j < |rules| ==> rules[i].id != rules[j].id
  }

  ghost predicate SoundRules(v: Vocabulary, rules: seq<Rule>, groups: Groups) {
    DistinctIds(rules) && forall r :: r in rules ==> SoundRule(v, r, groups)
  }

  ghost predicate SoundGroups(v: Vocabulary, groups: Groups) {
    forall name :: name in groups ==>
      Word(v, name) && forall p :: p in groups[name] ==> KnownKind(p.kind) && Word(v, p.id)
  }

  // The three fields that may be left out.
  ghost function RulesOf(d: Draft): seq<Rule> {
    match d.rules case Some(rules) => rules case None => []
  }

  ghost function GroupsOf(d: Draft): Groups {
    match d.groups case Some(groups) => groups case None => map[]
  }

  ghost function DefaultsOf(d: Draft): map<string, Effect> {
    match d.defaults case Some(defaults) => defaults case None => map[]
  }

  ghost function Filled(d: Draft): Document {
    Document(d.schema, DefaultsOf(d), GroupsOf(d), RulesOf(d))
  }

  ghost predicate SoundDraft(v: Vocabulary, d: Draft) {
    && (d.schema == 1 || d.schema == 2) && |RulesOf(d)| <= 1000
    && (forall a :: a in DefaultsOf(d) ==> Word(v, a))
    && SoundGroups(v, GroupsOf(d)) && SoundRules(v, RulesOf(d), GroupsOf(d))
    && v.size(Filled(d)) <= 262_144
  }

  // ---------------------------------------------------------------- validation is soundness

  lemma KindsAre(s: string)
    ensures s in KINDS <==> KnownKind(s)
  {
  }

  lemma SubjectExactly(v: Vocabulary, s: SubjectSelector, groups: Groups)
    ensures SubjectError(v, s, groups).None? <==> SoundSubject(v, s, groups)
    ensures SubjectError(v, s, groups) == Some(UnknownGroup) ==> !KnownGroup(groups, s.group)
    ensures SubjectError(v, s, groups) == Some(InvalidRule) ==> s.kind.Some? && !KnownKind(s.kind.value)
    ensures SubjectError(v, s, groups) in [None, Some(UnknownGroup), Some(InvalidRule), Some(InvalidDocument)]
  {
    hide Token, WellFormed, KnownKind;
    if s.kind.Some? { KindsAre(s.kind.value); TokenMeans(v.printable, s.kind.value); }
    if s.id.Some? { TokenMeans(v.printable, s.id.value); }
    if s.machineId.Some? { TokenMeans(v.printable, s.machineId.value); }
  }

  lemma ResourceExactly(v: Vocabulary, s: ResourceSelector, groups: Groups)
    ensures ResourceError(v, s, groups).None? <==> SoundResource(v, s, groups)
    ensures ResourceError(v, s, groups) == Some(UnknownGroup) ==> !KnownGroup(groups, s.principalGroup)
    ensures ResourceError(v, s, groups) in [None, Some(UnknownGroup), Some(InvalidDocument)]
  {
    hide Token, WellFormed;
    if s.kind.Some? { TokenMeans(v.printable, s.kind.value); }
    if s.id.Some? { TokenMeans(v.printable, s.id.value); }
  }

  lemma {:induction false} SubjectsExactly(v: Vocabulary, ss: seq<SubjectSelector>, groups: Groups)
    ensures SubjectsError(v, ss, groups).None? <==> forall s :: s in ss ==> SoundSubject(v, s, groups)
  {
    hide SubjectError, SoundSubject;
    if ss != [] {
      var rest, last := ss[..|ss| - 1], ss[|ss| - 1];
      SubjectsExactly(v, rest, groups);
      SubjectExactly(v, last, groups);
      assert ss == rest + [last];
    }
  }

  lemma {:induction false} ResourcesExactly(v: Vocabulary, ss: seq<ResourceSelector>, groups: Groups)
    ensures ResourcesError(v, ss, groups).None? <==> forall s :: s in ss ==> SoundResource(v, s, groups)
  {
    hide ResourceError, SoundResource;
    if ss != [] {
      var rest, last := ss[..|ss| - 1], ss[|ss| - 1];
      ResourcesExactly(v, rest, groups);
      ResourceExactly(v, last, groups);
      assert ss == rest + [last];
    }
  }

  lemma ActionsExactly(v: Vocabulary, actions: seq<string>)
    ensures (forall a :: a in actions ==> Word(v, a)) <==> forall i :: 0 <= i < |actions| ==> Token(v.printable, actions[i])
  {
    hide Token, WellFormed;
    forall s ensures Token(v.printable, s) <==> Word(v, s) { TokenMeans(v.printable, s); }
    if forall a :: a in actions ==> Word(v, a) {
      forall i | 0 <= i < |actions| ensures Token(v.printable, actions[i]) {
        assert actions[i] in actions;
      }
    }
  }

  lemma RuleExactly(v: Vocabulary, r: Rule, groups: Groups)
    ensures Token(v.printable, r.id) && RuleError(v, r, groups).None? <==> SoundRule(v, r, groups)
  {
    TokenMeans(v.printable, r.id);
    ActionsExactly(v, r.actions);
    SubjectsExactly(v, r.subjects, groups);
    ResourcesExactly(v, r.resources, groups);
    hide Token, WellFormed, SubjectsError, ResourcesError, SoundSubject, SoundResource;
  }

  lemma DistinctSnoc(rules: seq<Rule>)
    requires rules != []
    ensures var rest, last := rules[..|rules| - 1], rules[|rules| - 1];
            DistinctIds(rules) <==> DistinctIds(rest) && !exists i :: 0 <= i < |rest| && rest[i].id == last.id
  {
  }

  lemma {:induction false} RulesExactly(v: Vocabulary, rules: seq<Rule>, groups: Groups)
    ensures RulesError(v, rules, groups).None? <==> SoundRules(v, rules, groups)
  {
    hide Token, RuleError, SoundRule, DistinctIds;
    if rules == [] {
      NoIds();
    } else {
      var rest, last := rules[..|rules| - 1], rules[|rules| - 1];
      RulesExactly(v, rest, groups);
      RuleExactly(v, last, groups);
      DistinctSnoc(rules);
      assert rules == rest + [last];
    }
  }

  lemma NoIds()
    ensures DistinctIds([])
  {
  }

  lemma GroupsExactly(v: Vocabulary, groups: Groups)
    ensures GroupsOk(v, groups) <==> SoundGroups(v, groups)
  {
    hide Token, WellFormed, KnownKind;
    forall s ensures Token(v.printable, s) <==> WellFormed(v.printable, s) { TokenMeans(v.printable, s); }
    forall s ensures s in KINDS <==> KnownKind(s) { KindsAre(s); }
    forall name | name in groups
      ensures GroupOk(v, groups[name]) <==> forall p :: p in groups[name] ==> KnownKind(p.kind) && Word(v, p.id)
    {
      GroupExactly(v, groups[name]);
    }
    hide GroupOk;
  }

  lemma GroupExactly(v: Vocabulary, principals: seq<Principal>)
    ensures GroupOk(v, principals) <==> forall p :: p in principals ==> KnownKind(p.kind) && Word(v, p.id)
  {
    hide Token, WellFormed, KnownKind;
    forall s ensures Token(v.printable, s) <==> WellFormed(v.printable, s) { TokenMeans(v.printable, s); }
    forall s ensures s in KINDS <==> KnownKind(s) { KindsAre(s); }
  }

  lemma DefaultsExactly(v: Vocabulary, defaults: map<string, Effect>)
    ensures DefaultsOk(v, defaults) <==> forall a :: a in defaults ==> Word(v, a)
  {
    hide Token, WellFormed;
    forall s ensures Token(v.printable, s) <==> WellFormed(v.printable, s) { TokenMeans(v.printable, s); }
  }

  // The errors that a rule can be refused with.
  ghost predicate OfRules(e: Option<Error>) {
    e in [None, Some(InvalidDocument), Some(InvalidRule), Some(DuplicateRule), Some(UnknownGroup)]
  }

  lemma {:induction false} RulesErrors(v: Vocabulary, rules: seq<Rule>, groups: Groups)
    ensures OfRules(RulesError(v, rules, groups))
  {
    if rules != [] {
      RulesErrors(v, rules[..|rules| - 1], groups);
      SelectorErrors(v, rules[|rules| - 1].subjects, rules[|rules| - 1].resources, groups);
      hide SubjectsError, ResourcesError, Token;
    }
  }

  lemma {:induction false} SelectorErrors(v: Vocabulary, ss: seq<SubjectSelector>, rs: seq<ResourceSelector>, groups: Groups)
    ensures OfRules(SubjectsError(v, ss, groups)) && OfRules(ResourcesError(v, rs, groups))
    decreases |ss|, |rs|
  {
    if ss != [] {
      SelectorErrors(v, ss[..|ss| - 1], rs, groups);
    } else if rs != [] {
      SelectorErrors(v, ss, rs[..|rs| - 1], groups);
    }
  }

  /** A document is accepted exactly if it is sound, and then its absent fields are empty and nothing else changes. */
  lemma ValidExactly(v: Vocabulary, d: Draft)
    ensures Validate(v, d).Ok? <==> SoundDraft(v, d)
    ensures Validate(v, d).Ok? ==> Validate(v, d).value == Filled(d)
    ensures Validate(v, d) == Err(UnsupportedSchema) <==> d.schema != 1 && d.schema != 2
    ensures Validate(v, d) == Err(TooManyRules) <==> (d.schema == 1 || d.schema == 2) && |RulesOf(d)| > 1000
    ensures Validate(v, d) == Err(DocumentTooLarge) ==> v.size(Filled(d)) > 262_144
  {
    RulesErrors(v, RulesOf(d), GroupsOf(d));
    DefaultsExactly(v, DefaultsOf(d));
    GroupsExactly(v, GroupsOf(d));
    RulesExactly(v, RulesOf(d), GroupsOf(d));
    assert Normal(d) == Filled(d);
    hide DefaultsOk, GroupsOk, RulesError, Word, SoundGroups, SoundRules, Normal, Filled;
    assert Filled(d).rules == RulesOf(d) && Filled(d).groups == GroupsOf(d) && Filled(d).defaults == DefaultsOf(d) by {
      FilledIs(d);
    }
  }

  lemma FilledIs(d: Draft)
    ensures Filled(d).rules == RulesOf(d) && Filled(d).groups == GroupsOf(d) && Filled(d).defaults == DefaultsOf(d)
  {
  }

  // ---------------------------------------------------------------- publishing

  ghost predicate Mode(mode: string) {
    mode == "monitor" || mode == "enforce"
  }

  lemma ModesAre(mode: string)
    ensures ModeOk(mode) <==> Mode(mode)
  {
  }

  /** The last hundred of a history that has grown by one. */
  ghost predicate Appended(before: seq<Item>, after: seq<Item>, next: Item) {
    && |after| == (if |before| < 100 then |before| + 1 else 100)
    && after == (before + [next])[|before| + 1 - |after|..]
  }

  /**
   * A publish succeeds exactly against the current revision, with a known mode and a sound document; it then
   * becomes the current revision, stamped and last in the history, and refusals say which of the three failed first.
   */
  lemma PublishExactly(v: Vocabulary, m: Memory, expected: int, mode: string, d: Draft, now: int, from: Option<int>)
    requires |m.history| <= 100
    ensures var r := Publish(v, m, expected, mode, d, now, from);
            && (r.Ok? <==> expected == m.current.revision && Mode(mode) && SoundDraft(v, d))
            && (r == Err(RevisionConflict) <==> expected != m.current.revision)
            && (r == Err(InvalidMode) <==> expected == m.current.revision && !Mode(mode))
            && (r.Ok? ==>
                  && r.value.current == Item(m.current.revision + 1, mode,
                                             Draft(d.schema, Some(DefaultsOf(d)), Some(GroupsOf(d)), Some(RulesOf(d))), now, from)
                  && Appended(m.history, r.value.history, r.value.current))
  {
    ValidExactly(v, d);
    ModesAre(mode);
    ValidateErrors(v, d);
    hide Validate, SoundDraft, ModeOk, Mode;
  }

  lemma ValidateErrors(v: Vocabulary, d: Draft)
    ensures Validate(v, d) != Err(RevisionConflict) && Validate(v, d) != Err(InvalidMode)
  {
    RulesErrors(v, Normal(d).rules, Normal(d).groups);
    hide RulesError, GroupsOk, DefaultsOk;
  }

  // ---------------------------------------------------------------- loading

  ghost predicate SoundItem(v: Vocabulary, i: Item) {
    SoundDraft(v, i.document) && Mode(i.mode) && i.revision >= 1
  }

  /** The last revision of a history is the one that the file serves, with its absent fields filled in. */
  ghost predicate Serves(f: File, last: Item) {
    && last.revision == f.current.revision && last.mode == f.current.mode && last.publishedAt == f.current.publishedAt
    && last.document == Complete(Filled(f.current.document))
  }

  ghost predicate SoundFile(v: Vocabulary, f: File) {
    && SoundItem(v, f.current)
    && (f.history.Some? ==>
          var h := f.history.value;
          1 <= |h| <= 100 && SoundHistory(v, h) && Serves(f, h[|h| - 1]))
  }

  lemma {:induction false} RevisionsIncrease(v: Vocabulary, items: seq<Item>, i: int, j: int)
    requires HistoryOk(v, items) && 0 <= i < j < |items|
    ensures 0 < items[i].revision < items[j].revision
    decreases j
  {
    hide Validate, ModeOk;
    assert Follows(v, items, j);
    if i < j - 1 {
      RevisionsIncrease(v, items, i, j - 1);
    } else if i > 0 {
      RevisionsIncrease(v, items, 0, i);
      assert Follows(v, items, i);
    } else {
      assert Follows(v, items, i);
    }
  }

  lemma ItemExactly(v: Vocabulary, i: Item)
    ensures Validate(v, i.document).Ok? && ModeOk(i.mode) && i.revision > 0 <==> SoundItem(v, i)
  {
    ValidExactly(v, i.document);
    ModesAre(i.mode);
    hide Validate, SoundDraft, ModeOk, Mode;
  }

  ghost predicate SoundHistory(v: Vocabulary, items: seq<Item>) {
    && (forall i :: 0 <= i < |items| ==> SoundItem(v, items[i]))
    && (forall i, j :: 0 <= i < j < |items| ==> items[i].revision < items[j].revision)
  }

  lemma HistoryExactly(v: Vocabulary, items: seq<Item>)
    ensures HistoryOk(v, items) <==> SoundHistory(v, items)
  {
    hide Validate, SoundItem, ModeOk;
    if HistoryOk(v, items) {
      forall i, j | 0 <= i < j < |items| ensures items[i].revision < items[j].revision { RevisionsIncrease(v, items, i, j); }
      forall i | 0 <= i < |items| ensures SoundItem(v, items[i]) {
        assert Follows(v, items, i);
        if i > 0 { RevisionsIncrease(v, items, 0, i); }
        ItemExactly(v, items[i]);
      }
    }
    if SoundHistory(v, items) {
      forall i | 0 <= i < |items| ensures Follows(v, items, i) { ItemExactly(v, items[i]); }
    }
  }

  /** A process starts on a file exactly if the file is sound, and serves what the file says. */
  lemma LoadExactly(v: Vocabulary, f: File, now: int)
    ensures var m := Load(v, Some(f), now);
            && (m.Some? <==> SoundFile(v, f))
            && (m.Some? ==>
                  && Serves(f, m.value.current)
                  && (if f.history.Some? then m.value.history == f.history.value else m.value.history == [m.value.current]))
  {
    ValidExactly(v, f.current.document);
    ModesAre(f.current.mode);
    if f.history.Some? { HistoryExactly(v, f.history.value); }
    if Validate(v, f.current.document).Ok? { OneItem(v, f); }
    hide Validate, SoundDraft, ModeOk, Mode, HistoryOk, SoundHistory, Filled;
  }

  // A file without a history stands for a history of one revision.
  lemma OneItem(v: Vocabulary, f: File)
    requires Validate(v, f.current.document).Ok?
    ensures var i := Item(f.current.revision, f.current.mode, Complete(Validate(v, f.current.document).value),
                          f.current.publishedAt, None);
            HistoryOk(v, [i]) <==> ModeOk(f.current.mode) && f.current.revision >= 1
  {
    var doc := Validate(v, f.current.document).value;
    ValidatedIsNormal(v, f.current.document);
    NormalisedValidates(v, Complete(doc));
    var i := Item(f.current.revision, f.current.mode, Complete(doc), f.current.publishedAt, None);
    hide Validate, ModeOk;
    assert HistoryOk(v, [i]) <==> Follows(v, [i], 0);
  }

  /** Without a file: revision 1, monitoring, with no rules, groups or defaults, so that everything is allowed. */
  lemma StartsOpen(v: Vocabulary, now: int)
    ensures var m := Load(v, None, now);
            m.Some? && m.value.history == [m.value.current] &&
            m.value.current == Item(1, "monitor", Draft(1, Some(map[]), Some(map[]), Some([])), now, None)
  {
  }
}
