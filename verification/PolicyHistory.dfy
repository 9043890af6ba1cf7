/** Policy revisions: validation, compare-and-set publishing, rollback, and loading the written state again. */
module PolicyHistory {
  import opened Prelude
  import opened UnicodeText
  import opened PolicyDecision

  const MAX_HISTORY := 100
  const MAX_RULES := 1000
  const MAX_DOCUMENT := 256 * 1024
  const KINDS := ["human", "agent", "machine", "service"]
  const MODES := ["monitor", "enforce"]

  // A document as sent or stored; three of its fields may be absent.
  datatype Draft = Draft(schema: int, defaults: Option<map<string, Effect>>, groups: Option<Groups>, rules: Option<seq<Rule>>)

  // Which characters are printable, and how many bytes a document's JSON has.
  datatype Vocabulary = Vocabulary(printable: char -> bool, size: Document -> nat)

  datatype Error =
    | InvalidDocument | UnsupportedSchema | TooManyRules | InvalidRule | DuplicateRule | UnknownGroup | DocumentTooLarge
    | InvalidMode | RevisionConflict | RevisionNotFound | WriteFailed

  // ---------------------------------------------------------------- validation

  function Normal(d: Draft): Document {
    Document(d.schema, if d.defaults.Some? then d.defaults.value else map[], if d.groups.Some? then d.groups.value else map[],
             if d.rules.Some? then d.rules.value else [])
  }

  function Complete(d: Document): Draft {
    Draft(d.schema, Some(d.defaults), Some(d.groups), Some(d.rules))
  }

  predicate PrincipalOk(v: Vocabulary, p: Principal) {
    p.kind in KINDS && Token(v.printable, p.id)
  }

  predicate GroupOk(v: Vocabulary, principals: seq<Principal>) {
    forall i :: 0 <= i < |principals| ==> PrincipalOk(v, principals[i])
  }

  predicate GroupsOk(v: Vocabulary, groups: Groups) {
    forall name :: name in groups ==> Token(v.printable, name) && GroupOk(v, groups[name])
  }

  predicate DefaultsOk(v: Vocabulary, defaults: map<string, Effect>) {
    forall action :: action in defaults ==> Token(v.printable, action)
  }

  function SubjectError(v: Vocabulary, s: SubjectSelector, groups: Groups): Option<Error> {
    if !TokenIfAny(v.printable, s.kind) then Some(InvalidDocument)
    else if s.kind.Some? && s.kind.value !in KINDS then Some(InvalidRule)
    else if !TokenIfAny(v.printable, s.id) || !TokenIfAny(v.printable, s.machineId) then Some(InvalidDocument)
    else if s.group.Some? && s.group.value !in groups then Some(UnknownGroup)
    else None
  }

  function ResourceError(v: Vocabulary, s: ResourceSelector, groups: Groups): Option<Error> {
    if !TokenIfAny(v.printable, s.kind) || !TokenIfAny(v.printable, s.id) then Some(InvalidDocument)
    else if s.principalGroup.Some? && s.principalGroup.value !in groups then Some(UnknownGroup)
    else None
  }

  function SubjectsError(v: Vocabulary, ss: seq<SubjectSelector>, groups: Groups): Option<Error> {
    if ss == [] then None
    else if SubjectsError(v, ss[..|ss| - 1], groups).Some? then SubjectsError(v, ss[..|ss| - 1], groups)
    else SubjectError(v, ss[|ss| - 1], groups)
  }

  function ResourcesError(v: Vocabulary, ss: seq<ResourceSelector>, groups: Groups): Option<Error> {
    if ss == [] then None
    else if ResourcesError(v, ss[..|ss| - 1], groups).Some? then ResourcesError(v, ss[..|ss| - 1], groups)
    else ResourceError(v, ss[|ss| - 1], groups)
  }

  function RuleError(v: Vocabulary, r: Rule, groups: Groups): Option<Error> {
    if !(-0x8000_0000 <= r.priority < 0x8000_0000) then Some(InvalidRule)
    else if r.subjects == [] || r.actions == [] || r.resources == [] then Some(InvalidRule)
    else if exists i :: 0 <= i < |r.actions| && !Token(v.printable, r.actions[i]) then Some(InvalidDocument)
    else if SubjectsError(v, r.subjects, groups).Some? then SubjectsError(v, r.subjects, groups)
    else ResourcesError(v, r.resources, groups)
  }

  function RulesError(v: Vocabulary, rules: seq<Rule>, groups: Groups): Option<Error> {
    if rules == [] then None
    else
      var earlier, r := rules[..|rules| - 1], rules[|rules| - 1];
      if RulesError(v, earlier, groups).Some? then RulesError(v, earlier, groups)
      else if !Token(v.printable, r.id) then Some(InvalidDocument)
      else if exists i :: 0 <= i < |earlier| && earlier[i].id == r.id then Some(DuplicateRule)
      else RuleError(v, r, groups)
  }

  /** `validate_document`: the document with its absent fields filled in, or why not. */
  function Validate(v: Vocabulary, d: Draft): Result<Document, Error> {
    var doc := Normal(d);
    if d.schema != 1 && d.schema != 2 then Err(UnsupportedSchema)
    else if |doc.rules| > MAX_RULES then Err(TooManyRules)
    else if !DefaultsOk(v, doc.defaults) || !GroupsOk(v, doc.groups) then Err(InvalidDocument)
    else if RulesError(v, doc.rules, doc.groups).Some? then Err(RulesError(v, doc.rules, doc.groups).value)
    else if v.size(doc) > MAX_DOCUMENT then Err(DocumentTooLarge)
    else Ok(doc)
  }

  // ---------------------------------------------------------------- revisions

  datatype Item = Item(revision: int, mode: string, document: Draft, publishedAt: int, restoredFrom: Option<int>)

  // The state file. Files written before histories existed have none.
  datatype File = File(current: Item, history: Option<seq<Item>>)

  datatype Memory = Memory(current: Item, history: seq<Item>)

  /** What the App serves: everything of a revision but where it was restored from. */
  function Bundle(i: Item): (int, string, Draft, int) {
    (i.revision, i.mode, i.document, i.publishedAt)
  }

  function Initial(now: int): Memory {
    var first := Item(1, "monitor", Draft(1, Some(map[]), Some(map[]), Some([])), now, None);
    Memory(first, [first])
  }

  predicate ModeOk(mode: string) {
    mode in MODES
  }

  // A stored revision is later than the one before it, and valid.
  predicate Follows(v: Vocabulary, items: seq<Item>, i: int)
    requires 0 <= i < |items|
  {
    && items[i].revision > (if i == 0 then 0 else items[i - 1].revision)
    && Validate(v, items[i].document).Ok? && ModeOk(items[i].mode)
  }

  predicate HistoryOk(v: Vocabulary, items: seq<Item>) {
    forall i :: 0 <= i < |items| ==> Follows(v, items, i)
  }

  /** `_load`: the state a process starts with, or None if it refuses to start. */
  function Load(v: Vocabulary, file: Option<File>, now: int): Option<Memory> {
    if file.None? then Some(Initial(now))
    else
      var f := file.value;
      var doc := Validate(v, f.current.document);
      if doc.Err? || !ModeOk(f.current.mode) || f.current.revision < 1 then None
      else
        var current := Item(f.current.revision, f.current.mode, Complete(doc.value), f.current.publishedAt, None);
        var history := if f.history.Some? then f.history.value else [current];
        if history == [] || |history| > MAX_HISTORY || !HistoryOk(v, history) then None
        else if Bundle(history[|history| - 1]) != Bundle(current) then None
        else Some(Memory(current, history))
  }

  function Kept(history: seq<Item>): seq<Item> {
    if |history| <= MAX_HISTORY then history else history[|history| - MAX_HISTORY..]
  }

  /** `publish`: only against the revision the caller has seen. */
  function Publish(v: Vocabulary, m: Memory, expected: int, mode: string, d: Draft, now: int, from: Option<int>)
    : Result<Memory, Error>
  {
    var doc := Validate(v, d);
    if expected != m.current.revision then Err(RevisionConflict)
    else if !ModeOk(mode) then Err(InvalidMode)
    else if doc.Err? then Err(doc.error)
    else
      var next := Item(m.current.revision + 1, mode, Complete(doc.value), now, from);
      Ok(Memory(next, Kept(m.history + [next])))
  }

  function FindRevision(history: seq<Item>, revision: int): (r: Option<Item>)
    ensures r.Some? ==> r.value in history && r.value.revision == revision
    ensures r.None? ==> forall i :: 0 <= i < |history| ==> history[i].revision != revision
  {
    if history == [] then None
    else
      var earlier := FindRevision(history[..|history| - 1], revision);
      if earlier.Some? then earlier
      else if history[|history| - 1].revision == revision then Some(history[|history| - 1])
      else None
  }

  /** `rollback`: publish a retained revision again. */
  function Rollback(v: Vocabulary, m: Memory, expected: int, revision: int, now: int): Result<Memory, Error> {
    var item := FindRevision(m.history, revision);
    if item.None? then Err(RevisionNotFound)
    else Publish(v, m, expected, item.value.mode, item.value.document, now, Some(revision))
  }

  // ---------------------------------------------------------------- runs

  // What becomes of an accepted publish: the write succeeds, fails, or the process dies before or after the rename.
  datatype Fate = Written | WriteFails | DiesBefore | DiesAfter

  datatype Step =
    | PublishStep(expected: int, mode: string, document: Draft, now: int, fate: Fate)
    | RollbackStep(expected: int, revision: int, now: int, fate: Fate)
    | Restart(now: int)

  // The file, and the process if one is running.
  datatype Sys = Sys(file: Option<File>, memory: Option<Memory>)

  function FileOf(m: Memory): File {
    File(m.current, Some(m.history))
  }

  function Settle(s: Sys, r: Result<Memory, Error>, fate: Fate): Sys {
    if r.Err? then s
    else match fate
      case Written => Sys(Some(FileOf(r.value)), Some(r.value))
      case WriteFails => s
      case DiesBefore => Sys(s.file, None)
      case DiesAfter => Sys(Some(FileOf(r.value)), None)
  }

  function Next(v: Vocabulary, s: Sys, step: Step): Sys {
    match step
    case Restart(now) => Sys(s.file, Load(v, s.file, now))
    case PublishStep(expected, mode, d, now, fate) =>
      if s.memory.None? then s else Settle(s, Publish(v, s.memory.value, expected, mode, d, now, None), fate)
    case RollbackStep(expected, revision, now, fate) =>
      if s.memory.None? then s else Settle(s, Rollback(v, s.memory.value, expected, revision, now), fate)
  }

  /** The expected revision of a publish or rollback that reached the file. */
  function Committed(v: Vocabulary, s: Sys, step: Step): seq<int> {
    if s.memory.None? then []
    else match step
      case Restart(_) => []
      case PublishStep(expected, mode, d, now, fate) =>
        if Publish(v, s.memory.value, expected, mode, d, now, None).Ok? && (fate.Written? || fate.DiesAfter?) then [expected] else []
      case RollbackStep(expected, revision, now, fate) =>
        if Rollback(v, s.memory.value, expected, revision, now).Ok? && (fate.Written? || fate.DiesAfter?) then [expected] else []
  }

  function Run(v: Vocabulary, steps: seq<Step>): Sys {
    if steps == [] then Sys(None, None) else Next(v, Run(v, steps[..|steps| - 1]), steps[|steps| - 1])
  }

  function Commits(v: Vocabulary, steps: seq<Step>): seq<int> {
    if steps == [] then []
    else Commits(v, steps[..|steps| - 1]) + Committed(v, Run(v, steps[..|steps| - 1]), steps[|steps| - 1])
  }

  // ---------------------------------------------------------------- the shape every state has

  ghost predicate Normalised(v: Vocabulary, d: Draft) {
    exists doc :: d == Complete(doc) && Validate(v, d) == Ok(doc)
  }

  ghost predicate GoodItem(v: Vocabulary, i: Item) {
    Normalised(v, i.document) && ModeOk(i.mode)
  }

  /** Consecutive revisions, the current one last, and all of them until there are 100. */
  ghost predicate Consecutive(m: Memory) {
    var n := |m.history|;
    && m.current.revision >= 1
    && n == (if m.current.revision < 100 then m.current.revision else 100)
    && (forall i :: 0 <= i < n ==> m.history[i].revision == m.current.revision - (n - 1 - i))
    && Bundle(m.history[n - 1]) == Bundle(m.current)
  }

  ghost predicate Shape(v: Vocabulary, m: Memory) {
    Consecutive(m) && forall i :: 0 <= i < |m.history| ==> GoodItem(v, m.history[i])
  }

  lemma KeptConsecutive(m: Memory, next: Item)
    requires Consecutive(m) && next.revision == m.current.revision + 1
    ensures Consecutive(Memory(next, Kept(m.history + [next])))
  {
  }

  lemma KeptGood(v: Vocabulary, history: seq<Item>, next: Item)
    requires (forall i :: 0 <= i < |history| ==> GoodItem(v, history[i])) && GoodItem(v, next)
    ensures forall i :: 0 <= i < |Kept(history + [next])| ==> GoodItem(v, Kept(history + [next])[i])
  {
  }

  lemma ValidatedIsNormal(v: Vocabulary, d: Draft)
    requires Validate(v, d).Ok?
    ensures Normalised(v, Complete(Validate(v, d).value))
  {
  }

  lemma NormalisedValidates(v: Vocabulary, d: Draft)
    requires Normalised(v, d)
    ensures Validate(v, d).Ok? && Complete(Validate(v, d).value) == d
  {
  }

  lemma PublishShape(v: Vocabulary, m: Memory, expected: int, mode: string, d: Draft, now: int, from: Option<int>)
    requires Shape(v, m) && Publish(v, m, expected, mode, d, now, from).Ok?
    ensures var m' := Publish(v, m, expected, mode, d, now, from).value;
            && Shape(v, m') && m'.current.revision == m.current.revision + 1 && expected == m.current.revision
            && m'.current.restoredFrom == from && m'.current.mode == mode && Validate(v, d) == Ok(Normal(d))
            && m'.current.document == Complete(Normal(d))
  {
    ValidatedIsNormal(v, d);
    hide RulesError, GroupsOk, DefaultsOk, Normalised, Consecutive, Kept;
    var m' := Publish(v, m, expected, mode, d, now, from).value;
    KeptConsecutive(m, m'.current);
    KeptGood(v, m.history, m'.current);
  }

  lemma InitialShape(v: Vocabulary, now: int)
    requires v.size(Document(1, map[], map[], [])) <= MAX_DOCUMENT
    ensures Shape(v, Initial(now))
  {
    var doc := Document(1, map[], map[], []);
    assert Validate(v, Complete(doc)) == Ok(doc);
  }

  /** What a process writes is accepted by the next one, which serves the same bundle and the same history. */
  lemma LoadAccepts(v: Vocabulary, m: Memory, now: int)
    requires Shape(v, m)
    ensures Load(v, Some(FileOf(m)), now) == Some(m.(current := m.current.(restoredFrom := None)))
  {
  }

  ghost predicate Inv(v: Vocabulary, s: Sys, commits: int) {
    && (s.memory.Some? ==> Shape(v, s.memory.value) && s.memory.value.current.revision == commits + 1)
    && (s.file.None? ==> commits == 0)
    && (s.file.None? && s.memory.Some? ==> exists start :: s.memory.value == Initial(start))
    && (s.file.Some? ==> FileInv(v, s.file.value, s.memory, commits))
  }

  ghost predicate FileInv(v: Vocabulary, f: File, memory: Option<Memory>, commits: int) {
    && f.history.Some?
    && var written := Memory(f.current, f.history.value);
       && Shape(v, written) && written.current.revision == commits + 1
       && (memory.Some? ==> memory.value.history == written.history && Bundle(memory.value.current) == Bundle(written.current))
  }

  lemma SettleKeeps(v: Vocabulary, s: Sys, m: Memory, fate: Fate, commits: int)
    requires Inv(v, s, commits) && s.memory.Some? && Shape(v, m) && m.current.revision == s.memory.value.current.revision + 1
    ensures Inv(v, Settle(s, Ok(m), fate), if fate.Written? || fate.DiesAfter? then commits + 1 else commits)
  {
  }

  // An empty document fits the size limit under any sensible encoding.
  ghost predicate Sensible(v: Vocabulary) {
    v.size(Document(1, map[], map[], [])) <= MAX_DOCUMENT
  }

  lemma NextKeeps(v: Vocabulary, s: Sys, step: Step, commits: int)
    requires Inv(v, s, commits) && Sensible(v)
    ensures Inv(v, Next(v, s, step), commits + |Committed(v, s, step)|)
    ensures forall i :: 0 <= i < |Committed(v, s, step)| ==> i == 0 && Committed(v, s, step)[i] == commits + 1
  {
    hide Publish, FindRevision, Validate, Initial;
    match step
    case Restart(now) =>
      if s.file.None? {
        InitialShape(v, now);
        InitialRevision(now);
      } else {
        RestartKeeps(v, s, now, commits);
      }
    case PublishStep(expected, mode, d, now, fate) =>
      if s.memory.Some? && Publish(v, s.memory.value, expected, mode, d, now, None).Ok? {
        PublishShape(v, s.memory.value, expected, mode, d, now, None);
        SettleKeeps(v, s, Publish(v, s.memory.value, expected, mode, d, now, None).value, fate, commits);
      }
    case RollbackStep(expected, revision, now, fate) =>
      if s.memory.Some? && Rollback(v, s.memory.value, expected, revision, now).Ok? {
        var item := FindRevision(s.memory.value.history, revision).value;
        PublishShape(v, s.memory.value, expected, item.mode, item.document, now, Some(revision));
        SettleKeeps(v, s, Rollback(v, s.memory.value, expected, revision, now).value, fate, commits);
      }
  }

  lemma InitialRevision(now: int)
    ensures Initial(now).current.revision == 1
  {
  }

  lemma RestartKeeps(v: Vocabulary, s: Sys, now: int, commits: int)
    requires Inv(v, s, commits) && s.file.Some?
    ensures Inv(v, Sys(s.file, Load(v, s.file, now)), commits) && Load(v, s.file, now).Some?
  {
    var written := Memory(s.file.value.current, s.file.value.history.value);
    assert s.file.value == FileOf(written);
    LoadAccepts(v, written, now);
    hide Load, GoodItem;
  }

  /** After any run: the state has its shape, and the commits were against revisions 1, 2, 3, ... in this order. */
  lemma {:induction false} RunKeeps(v: Vocabulary, steps: seq<Step>)
    requires Sensible(v)
    ensures Inv(v, Run(v, steps), |Commits(v, steps)|)
    ensures forall i :: 0 <= i < |Commits(v, steps)| ==> Commits(v, steps)[i] == i + 1
  {
    hide Inv, Next, Committed;
    if steps == [] {
      NothingYet(v);
    } else {
      RunKeeps(v, steps[..|steps| - 1]);
      NextKeeps(v, Run(v, steps[..|steps| - 1]), steps[|steps| - 1], |Commits(v, steps[..|steps| - 1])|);
    }
  }

  lemma NothingYet(v: Vocabulary)
    ensures Inv(v, Sys(None, None), 0)
  {
  }

  // ---------------------------------------------------------------- what a run promises

  /** Of all publishes and rollbacks against one revision, at most one ever takes effect. */
  lemma OneCommitPerRevision(v: Vocabulary, steps: seq<Step>, i: nat, j: nat)
    requires Sensible(v) && i < j < |Commits(v, steps)|
    ensures Commits(v, steps)[i] != Commits(v, steps)[j]
  {
    RunKeeps(v, steps);
  }

  /** Restarting after any run reproduces the bundle and the history; the App never refuses its own file. */
  lemma ReloadReproduces(v: Vocabulary, steps: seq<Step>, now: int)
    requires Sensible(v)
    ensures var s := Run(v, steps);
            var loaded := Load(v, s.file, now);
            && loaded.Some?
            && (s.file.Some? && s.memory.Some? ==>
                  loaded.value.history == s.memory.value.history &&
                  Bundle(loaded.value.current) == Bundle(s.memory.value.current))
            && (s.file.None? ==> loaded.value == Initial(now))
            && (s.file.None? && s.memory.Some? ==> exists start :: s.memory.value == Initial(start))
  {
    RunKeeps(v, steps);
    var s := Run(v, steps);
    if s.file.Some? { RestartKeeps(v, s, now, |Commits(v, steps)|); }
    hide Shape, Commits, Run;
    if s.file.Some? && s.memory.Some? {
      var written := Memory(s.file.value.current, s.file.value.history.value);
      assert s.file.value == FileOf(written);
      LoadAccepts(v, written, now);
    }
  }

  /** The history of a running App: consecutive revisions up to the current one, at most 100, the newest always kept. */
  lemma HistoryIsConsecutive(v: Vocabulary, steps: seq<Step>)
    requires Sensible(v)
    ensures var s := Run(v, steps);
            s.memory.Some? ==> Consecutive(s.memory.value) && s.memory.value.current.revision == |Commits(v, steps)| + 1
  {
    RunKeeps(v, steps);
    hide Run, Commits, GoodItem, FileInv, Consecutive;
  }

  /** A rollback succeeds exactly for the last 100 revisions and the expected current one, and brings the old policy back. */
  lemma RollbackRestores(v: Vocabulary, m: Memory, expected: int, revision: int, now: int)
    requires Shape(v, m)
    ensures var r := Rollback(v, m, expected, revision, now);
            && (r.Ok? <==> expected == m.current.revision && 1 <= revision <= m.current.revision &&
                           revision > m.current.revision - 100)
            && (r.Ok? ==> var item := m.history[|m.history| - 1 - (m.current.revision - revision)];
                  && item.revision == revision
                  && r.value.current.document == item.document && r.value.current.mode == item.mode
                  && r.value.current.revision == m.current.revision + 1 && r.value.current.restoredFrom == Some(revision))
  {
    hide Validate, Normalised;
    var found := FindRevision(m.history, revision);
    var n := |m.history|;
    var at := n - 1 - (m.current.revision - revision);
    assert 0 <= at < n ==> m.history[at].revision == revision;
    if found.Some? {
      var k :| 0 <= k < n && m.history[k] == found.value;
      assert k == at;
      assert GoodItem(v, m.history[k]);
      NormalisedValidates(v, m.history[k].document);
    }
  }
}
