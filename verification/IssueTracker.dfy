/** The writes of the issue tracker as transactions on values: either the whole new state or a refusal. */
module IssueTracker {
  import opened Prelude
  import opened UnicodeText
  import opened IssueData
  import opened IssueGraph
  import opened IssueLinks
  import opened SearchIndex

  const STATUSES := ["open", "in_progress", "blocked", "done", "closed", "note"]
  const RESOLVED := ["done", "closed", "note"]
  const PRIORITIES := ["low", "normal", "high", "urgent"]
  const COMMENT_TITLE_BYTES := 200

  /** A create or update body: a field that is None was not sent. */
  datatype Request = Request(title: Option<string>, description: Option<string>, status: Option<string>,
                             priority: Option<string>, labels: Option<seq<string>>, assignee: Option<Option<string>>,
                             blockedBy: Option<seq<int>>, parentId: Option<Option<int>>, parentIds: Option<seq<int>>,
                             version: Option<int>)

  // Who asks, when, the known principals, and whether the link rate limit would refuse new links.
  datatype Context = Context(actor: string, now: int, directory: set<string>, limited: bool)

  datatype Tracker = Tracker(issues: Issues, next: int, links: Links, activity: Activity, docs: Docs)

  const EMPTY := Tracker(map[], 1, [], [], map[])

  // ---------------------------------------------------------------- validation

  predicate TextOk(s: string, maximum: nat, empty: bool) {
    Utf8Size(s) <= maximum && (empty || !Blank(s))
  }

  predicate UniqueLabels(labels: seq<string>) {
    forall i, j :: 0 <= i < j < |labels| ==> labels[i] != labels[j]
  }

  /** The checks of `validate` before the dependencies. */
  function FieldsError(issue: Issue, directory: set<string>): Option<Error> {
    if !TextOk(issue.title, 300, false) || !TextOk(issue.description, 32768, true) then Some(InvalidField)
    else if issue.status !in STATUSES || issue.priority !in PRIORITIES then Some(InvalidField)
    else if |issue.labels| > 20 then Some(InvalidField)
    else if exists i :: 0 <= i < |issue.labels| && !TextOk(issue.labels[i], 64, false) then Some(InvalidField)
    else if !UniqueLabels(issue.labels) then Some(InvalidField)
    else if issue.assignee.Some? && issue.assignee.value !in directory then Some(AssigneeUnavailable)
    else None
  }

  // The first dependency that is no id or no issue, in list order.
  function MissingError(issues: set<int>, deps: seq<int>): Option<Error> {
    if deps == [] then None
    else if deps[0] < 1 then Some(InvalidId)
    else if deps[0] !in issues then Some(IssueNotFound)
    else MissingError(issues, deps[1..])
  }

  function Deps(issues: Issues): map<int, seq<int>> {
    map id | id in issues :: issues[id].blockedBy
  }

  /** The dependency checks: the new list must not lead back to the issue in the graph as it stands. */
  ghost function DependencyError(issues: Issues, node: int, deps: seq<int>): Option<Error> {
    if |deps| > 50 then Some(InvalidField)
    else if MissingError(issues.Keys, deps).Some? then MissingError(issues.Keys, deps)
    else if !Distinct(deps) then Some(InvalidField)
    else if !Clear(Blocking(Deps(issues)), node, deps) then Some(DependencyCycle)
    else None
  }

  ghost function ValidateError(issues: Issues, node: int, issue: Issue, directory: set<string>): Option<Error> {
    if FieldsError(issue, directory).Some? then FieldsError(issue, directory)
    else DependencyError(issues, node, issue.blockedBy)
  }

  /** Work cannot start or complete while a blocking issue is unresolved. */
  predicate Unready(issues: Issues, issue: Issue) {
    && issue.status in ["in_progress", "done"]
    && exists i :: 0 <= i < |issue.blockedBy| && issue.blockedBy[i] in issues &&
                   issues[issue.blockedBy[i]].status !in RESOLVED
  }

  // ---------------------------------------------------------------- create and update

  function WantedParents(r: Request): Result<Option<seq<int>>, Error> {
    if r.parentId.Some? && r.parentIds.Some? then Err(InvalidField)
    else if r.parentIds.Some? then Ok(r.parentIds)
    else if r.parentId.None? then Ok(None)
    else if r.parentId.value.None? then Ok(Some([]))
    else if r.parentId.value.value < 1 then Err(InvalidId)
    else Ok(Some([r.parentId.value.value]))
  }

  function Or<T>(sent: Option<T>, kept: T): T {
    if sent.Some? then sent.value else kept
  }

  function Applied(issue: Issue, r: Request): Issue {
    issue.(title := Or(r.title, issue.title), description := Or(r.description, issue.description),
           status := Or(r.status, issue.status), priority := Or(r.priority, issue.priority),
           labels := Or(r.labels, issue.labels), assignee := Or(r.assignee, issue.assignee),
           blockedBy := Or(r.blockedBy, issue.blockedBy))
  }

  function NewIssue(c: Context): Issue {
    Issue("", "", "open", "normal", [], None, [], c.actor, c.now, c.now, 0, None)
  }

  function Stored(issue: Issue, c: Context): Issue {
    issue.(version := issue.version + 1, updatedAt := c.now)
  }

  function Recorded(id: int, kind: Kind, r: Request, c: Context): Event {
    Event(id, kind, c.actor, c.now, r.title, r.description, None, None, None)
  }

  // A change that leaves the text alone, as the issue it happened to sees it.
  function Trace(id: int, kind: Kind, about: Option<int>, c: Context): Event {
    Event(id, kind, c.actor, c.now, None, None, None, about, None)
  }

  // A new or lost child as each of its parents sees it.
  function Traces(ids: seq<int>, kind: Kind, child: int, c: Context): seq<Event> {
    seq(|ids|, i requires 0 <= i < |ids| => Trace(ids[i], kind, Some(child), c))
  }

  predicate Limited(c: Context, weight: int) {
    c.limited && weight > 0
  }

  // The id under which `validate` sees an issue that has none yet.
  const UNSAVED := -1

  ghost function CreateError(t: Tracker, r: Request, c: Context): Option<Error> {
    var wanted := WantedParents(r);
    var issue := Applied(NewIssue(c), r);
    if r.version.Some? then Some(InvalidFields)
    else if wanted.Err? then Some(wanted.error)
    else
      var parents := Or(wanted.value, []);
      var invalid := ValidateError(t.issues, UNSAVED, issue, c.directory);
      var refused := ParentsError(t.issues.Keys, Edges(t.links), None, parents);
      if invalid.Some? then invalid
      else if parents != [] && refused.Some? then refused
      else if Limited(c, |parents|) then Some(RateLimited)
      else if Unready(t.issues, issue) then Some(DependenciesUnresolved)
      else None
  }

  function AfterCreate(lower: Lower, t: Tracker, r: Request, c: Context): Tracker
    requires WantedParents(r).Ok?
  {
    var parents := Or(WantedParents(r).value, []);
    var issue := Stored(Applied(NewIssue(c), r), c);
    Tracker(t.issues[t.next := issue], t.next + 1,
            Rewritten(t.links, t.next, [], parents, c.actor, c.now),
            t.activity + [Recorded(t.next, Created, r, c)] + Traces(parents, Linked, t.next, c),
            OnFields(lower, t.docs, t.next, None, issue, c.actor, c.now))
  }

  ghost function Create(lower: Lower, t: Tracker, r: Request, c: Context): (Tracker, Result<int, Error>) {
    var e := CreateError(t, r, c);
    if e.Some? then (t, Err(e.value)) else (AfterCreate(lower, t, r, c), Ok(t.next))
  }

  ghost function UpdateError(t: Tracker, id: int, r: Request, c: Context): Option<Error> {
    var wanted := WantedParents(r);
    if wanted.Err? then Some(wanted.error)
    else if id !in t.issues then Some(IssueNotFound)
    else if r.version.Some? && r.version.value != t.issues[id].version then Some(VersionConflict)
    else
      var issue := Applied(t.issues[id], r);
      var had := ParentsOf(t.links, id);
      var want := Or(wanted.value, had);
      var refused := ParentsError(t.issues.Keys, Edges(t.links), Some(id), want);
      var invalid := ValidateError(t.issues, id, issue, c.directory);
      if want != had && refused.Some? then refused
      else if want != had && Limited(c, |Minus(want, had)|) then Some(RateLimited)
      else if invalid.Some? then invalid
      else if Unready(t.issues[id := issue], issue) then Some(DependenciesUnresolved)
      else None
  }

  function AfterUpdate(lower: Lower, t: Tracker, id: int, r: Request, c: Context): Tracker
    requires WantedParents(r).Ok? && id in t.issues
  {
    var had := ParentsOf(t.links, id);
    var want := Or(WantedParents(r).value, had);
    var issue := Stored(Applied(t.issues[id], r), c);
    Tracker(t.issues[id := issue], t.next,
            if want == had then t.links else Rewritten(t.links, id, had, want, c.actor, c.now),
            t.activity + [Recorded(id, Updated, r, c)] +
            (Traces(Minus(want, had), Linked, id, c) + Traces(Minus(had, want), Unlinked, id, c)),
            OnFields(lower, t.docs, id, Some(t.issues[id]), issue, c.actor, c.now))
  }

  ghost function Update(lower: Lower, t: Tracker, id: int, r: Request, c: Context): (Tracker, Result<int, Error>) {
    var e := UpdateError(t, id, r, c);
    if e.Some? then (t, Err(e.value)) else (AfterUpdate(lower, t, id, r, c), Ok(id))
  }

  // ---------------------------------------------------------------- comment

  // Unicode categories Cc, Zl and Zp.
  predicate Control(ch: char) {
    var n := ch as int;
    n < 0x20 || 0x7f <= n <= 0x9f || n == 0x2028 || n == 0x2029
  }

  predicate OneTrimmedLine(s: string) {
    && (s != [] ==> !Space(s[0]) && !Space(s[|s| - 1]))
    && forall i :: 0 <= i < |s| ==> !Control(s[i])
  }

  function CommentError(t: Tracker, id: int, comment: Comment): Option<Error> {
    if id !in t.issues then Some(IssueNotFound)
    else if !TextOk(comment.body, 8192, false) then Some(InvalidField)
    else if comment.title.Some? && !(TextOk(comment.title.value, COMMENT_TITLE_BYTES, false) && OneTrimmedLine(comment.title.value))
    then Some(InvalidField)
    else None
  }

  function AfterComment(lower: Lower, t: Tracker, id: int, comment: Comment, c: Context): Tracker
    requires id in t.issues
  {
    var issue := Stored(t.issues[id], c);
    t.(issues := t.issues[id := issue],
       activity := t.activity + [Event(id, Commented, c.actor, c.now, None, None, Some(comment), None, None)],
       docs := OnComment(lower, t.docs, id, issue, |t.activity| + 1, comment, c.actor, c.now))
  }

  function AddComment(lower: Lower, t: Tracker, id: int, comment: Comment, c: Context): (Tracker, Result<int, Error>) {
    var e := CommentError(t, id, comment);
    if e.Some? then (t, Err(e.value)) else (AfterComment(lower, t, id, comment, c), Ok(|t.activity| + 1))
  }

  // ---------------------------------------------------------------- link and unlink children

  function Dedupe(s: seq<int>): (r: seq<int>)
    ensures forall x :: x in r <==> x in s
    ensures Distinct(r)
  {
    if s == [] then []
    else
      var rest := Dedupe(s[..|s| - 1]);
      assert s == s[..|s| - 1] + [s[|s| - 1]];
      if s[|s| - 1] in rest then rest else rest + [s[|s| - 1]]
  }

  function Relinked(t: Tracker, parent: int, child: int, want: seq<int>, kind: Kind, c: Context): Tracker {
    t.(links := Rewritten(t.links, child, ParentsOf(t.links, child), want, c.actor, c.now),
       activity := t.activity + [Trace(parent, kind, Some(child), c), Trace(child, kind, Some(parent), c)])
  }

  ghost function LinkOne(t: Tracker, parent: int, child: int, c: Context): Result<Tracker, Error> {
    var had := ParentsOf(t.links, child);
    var refused := ParentsError(t.issues.Keys, Edges(t.links), Some(child), had + [parent]);
    if child !in t.issues then Err(IssueNotFound)
    else if parent in had then Ok(t)
    else if refused.Some? then Err(refused.value)
    else Ok(Relinked(t, parent, child, had + [parent], Linked, c))
  }

  ghost function LinkAll(t: Tracker, parent: int, children: seq<int>, c: Context): Result<Tracker, Error> {
    if children == [] then Ok(t)
    else
      var before := LinkAll(t, parent, children[..|children| - 1], c);
      if before.Err? then before else LinkOne(before.value, parent, children[|children| - 1], c)
  }

  function UnlinkOne(t: Tracker, parent: int, child: int, c: Context): Result<Tracker, Error> {
    var had := ParentsOf(t.links, child);
    if child !in t.issues then Err(IssueNotFound)
    else if parent !in had then Ok(t)
    else Ok(Relinked(t, parent, child, Minus(had, [parent]), Unlinked, c))
  }

  function UnlinkAll(t: Tracker, parent: int, children: seq<int>, c: Context): Result<Tracker, Error> {
    if children == [] then Ok(t)
    else
      var before := UnlinkAll(t, parent, children[..|children| - 1], c);
      if before.Err? then before else UnlinkOne(before.value, parent, children[|children| - 1], c)
  }

  function BatchError(t: Tracker, parent: int, add: seq<int>, remove: seq<int>, c: Context): Option<Error> {
    if |add| > MAX_CHILDREN || |remove| > MAX_CHILDREN || (exists x :: x in add && x < 1) || (exists x :: x in remove && x < 1)
    then Some(InvalidField)
    else if add == [] && remove == [] then Some(InvalidField)
    else if parent !in t.issues then Some(IssueNotFound)
    else if Limited(c, |Dedupe(add)|) then Some(RateLimited)
    else None
  }

  /** The batch: all of it or none of it. */
  ghost function LinkChildren(t: Tracker, parent: int, add: seq<int>, remove: seq<int>, c: Context): (Tracker, Option<Error>) {
    var e := BatchError(t, parent, add, remove, c);
    if e.Some? then (t, e)
    else
      var added := LinkAll(t, parent, Dedupe(add), c);
      if added.Err? then (t, Some(added.error))
      else
        var done := UnlinkAll(added.value, parent, Dedupe(remove), c);
        if done.Err? then (t, Some(done.error)) else (done.value, None)
  }

  // ---------------------------------------------------------------- hide and restore

  function HideIssue(t: Tracker, id: int, conceal: bool, c: Context): Tracker
    requires id in t.issues
  {
    if t.issues[id].hidden.Some? == conceal then t
    else
      var mark := if conceal then Some(Mark(c.actor, c.now)) else None;
      t.(issues := t.issues[id := Stored(t.issues[id], c).(hidden := mark)],
         activity := t.activity + [Trace(id, if conceal then Hid else Restored, None, c)])
  }

  function HideComment(t: Tracker, id: int, event: int, conceal: bool, c: Context): (Tracker, Option<Error>) {
    if !(1 <= event <= |t.activity| && t.activity[event - 1].issue == id) then (t, Some(EventNotFound))
    else
      var e := t.activity[event - 1];
      if !e.kind.Commented? then (t, Some(NotAComment))
      else if e.hidden.Some? == conceal then (t, None)
      else
        var mark := if conceal then Some(Mark(c.actor, c.now)) else None;
        (t.(activity := t.activity[event - 1 := e.(hidden := mark)] +
                        [Trace(id, if conceal then Hid else Restored, Some(event), c)]), None)
  }

  function SetHidden(t: Tracker, id: int, event: Option<int>, conceal: bool, c: Context): (Tracker, Option<Error>) {
    if id !in t.issues then (t, Some(IssueNotFound))
    else if event.None? then (HideIssue(t, id, conceal, c), None)
    else HideComment(t, id, event.value, conceal, c)
  }
}
