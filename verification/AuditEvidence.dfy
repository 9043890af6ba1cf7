/** The audit trail: outcomes move one way, evidence survives, and nothing is dispatched or finished twice. */
module AuditEvidence {
  import opened Prelude
  import opened CredentialFormat
  import opened CredentialStore
  import opened CredentialRuns

  // ---------------------------------------------------------------- dispatched and finished at most once

  ghost predicate About(e: Event, r: RequestId) {
    (e.Admitted? || e.Sent? || e.Finished?) && e.request == r
  }

  /** The latest thing that happened to request `r`. */
  ghost function Latest(log: seq<Event>, r: RequestId): Option<Event> {
    if log == [] then None
    else if About(log[|log| - 1], r) then Some(log[|log| - 1])
    else Latest(log[..|log| - 1], r)
  }

  ghost predicate WasAdmitted(log: seq<Event>, r: RequestId) {
    Latest(log, r).Some? && Latest(log, r).value.Admitted?
  }

  ghost predicate WasSent(log: seq<Event>, r: RequestId) {
    Latest(log, r).Some? && Latest(log, r).value.Sent?
  }

  /** Each dispatch directly follows its admission, and each finish directly follows its dispatch. */
  ghost predicate OnceEach(log: seq<Event>) {
    && (forall i :: 0 <= i < |log| && log[i].Sent? ==> WasAdmitted(log[..i], log[i].request))
    && (forall i :: 0 <= i < |log| && log[i].Finished? ==> WasSent(log[..i], log[i].request))
  }

  // What an in-flight row says about the log.
  ghost predicate RowInPhase(log: seq<Event>, r: RequestId, row: Row) {
    && (row.outcome.Reserved? ==> WasAdmitted(log, r))
    && (row.outcome.Dispatched? ==> WasSent(log, r))
  }

  ghost predicate InPhase(log: seq<Event>, audit: Audit) {
    forall r :: r in audit ==> RowInPhase(log, r, audit[r])
  }

  ghost predicate Began(a: Audit, r: RequestId, row: Row, e: Option<Event>) {
    && (row.outcome.Reserved? ==>
          (r in a && a[r].outcome.Reserved?) || (e.Some? && e.value.Admitted? && e.value.request == r))
    && (row.outcome.Dispatched? ==>
          (r in a && a[r].outcome.Dispatched?) || (e.Some? && e.value.Sent? && e.value.request == r))
  }

  /** How one step's event and its change of the audit table belong together. */
  ghost predicate Matches(a: Audit, b: Audit, e: Option<Event>) {
    && (forall r :: r in b ==> Began(a, r, b[r], e))
    && (e.Some? && e.value.Admitted? ==> e.value.request in b && b[e.value.request].outcome.Reserved?)
    && (e.Some? && e.value.Sent? ==>
          && e.value.request in a && a[e.value.request].outcome.Reserved?
          && e.value.request in b && b[e.value.request].outcome.Dispatched?)
    && (e.Some? && e.value.Finished? ==>
          && e.value.request in a && a[e.value.request].outcome.Dispatched?
          && e.value.request in b && !b[e.value.request].InFlight())
  }

  lemma StaleLeavesDispatched(a: Audit, now: int)
    ensures var stale := ReleaseStale(a, now);
            && stale.Keys == a.Keys
            && (forall r :: r in stale && (stale[r].InFlight() || a[r].outcome.Dispatched?) ==> stale[r] == a[r])
  {
  }

  // The row an admission adds is new; every other in-flight row was there, unchanged.
  lemma ReserveMatches(db: Db, lim: Limits, id: string, op: Operation, now: int, request: RequestId)
    requires Reserve(db, lim, id, op, now, request).1.Ok? && db.highWater <= now <= I64_MAX
    ensures var b := Reserve(db, lim, id, op, now, request).0.audit;
            && request in b && b[request].outcome.Reserved?
            && (forall r :: r in b && r != request && b[r].InFlight() ==> r in db.audit && b[r] == db.audit[r])
            && (forall r :: r in db.audit && db.audit[r].outcome.Dispatched? && r != request ==> r in b && b[r] == db.audit[r])
            && (request in db.audit ==> !db.audit[request].outcome.Dispatched?)
  {
    hide Reserve, Tidy, AtCapacity, RecentRows;
    ReserveOk(db, lim, id, op, now, request);
    TidyKeeps(db.audit, id, now, lim);
    StaleLeavesDispatched(db.audit, now);
    hide ReleaseStale;
    assert request in db.audit && db.audit[request].outcome.Dispatched? ==> request in Tidy(db.audit, id, now, lim);
  }

  lemma MatchesAdmit(db: Db, lim: Limits, s: Step)
    requires s.AdmitStep? && db.highWater <= I64_MAX
    ensures Matches(db.audit, Effect(db, lim, s).0.audit, Effect(db, lim, s).1)
  {
    hide Reserve, Admit, Effect, Tidy, AtCapacity, RecentRows, OnlyAudit;
    AdmissionIs(db, lim, s);
    var (db', r) := Admit(db, lim, s.credential, s.op, s.wall0, s.wall, s.request);
    if r.Ok? {
      AdmitOk(db, lim, s.credential, s.op, s.wall0, s.wall, s.request);
      ReserveOk(db, lim, r.value.token, s.op, Now(db, s.wall), s.request);
      ReserveMatches(db, lim, r.value.token, s.op, Now(db, s.wall), s.request);
    }
  }

  lemma MatchesOpen(a: Audit)
    ensures Matches(a, LostResults(a), None)
  {
  }

  lemma MatchesExpiry(a: Audit, now: int)
    ensures Matches(a, a - Expired(a, now), None)
  {
  }

  lemma MatchesAuditStep(db: Db, lim: Limits, s: Step)
    requires s.Restart? || s.ReleaseStep? || s.DispatchStep? || s.FinishStep? || s.MaintenanceStep?
    ensures Matches(db.audit, Effect(db, lim, s).0.audit, Effect(db, lim, s).1)
  {
    hide Matches, Began, LostResults, Expired;
    var (db', e) := Effect(db, lim, s);
    MatchesNothing(db.audit);
    match s
    case Restart(identity, limits) => MatchesOpen(db.audit);
    case MaintenanceStep(owner, wall) => MatchesExpiry(db.audit, Now(db, wall));
    case ReleaseStep(p, wall) => MatchesRelease(db, p, wall);
    case DispatchStep(p, wall, wall2, crash) =>
      MatchesRelease(db, p, wall2);
      if DispatchChecked(db, p, wall).1.Ok? { MatchesDispatch(db, p, wall); }
    case FinishStep(p, final, wall) => MatchesFinish(db, p, final, wall);
  }

  lemma MatchesNothing(a: Audit)
    ensures Matches(a, a, None)
  {
  }

  lemma MatchesRelease(db: Db, p: Permit, wall: int)
    ensures Matches(db.audit, Release(db, p, wall).0.audit, None)
  {
  }

  lemma MatchesDispatch(db: Db, p: Permit, wall: int)
    requires DispatchChecked(db, p, wall).1.Ok?
    ensures Matches(db.audit, DispatchChecked(db, p, wall).0.audit, Some(Sent(p.request, p.token)))
  {
  }

  lemma MatchesFinish(db: Db, p: Permit, f: Final, wall: int)
    ensures var (db', r) := Finish(db, p, f, wall);
            Matches(db.audit, db'.audit, if r.Ok? then Some(Finished(p.request)) else None)
  {
  }

  lemma MatchesQuiet(db: Db, lim: Limits, s: Step)
    requires !s.Restart? && !s.ReleaseStep? && !s.DispatchStep? && !s.FinishStep? && !s.MaintenanceStep?
    requires !s.AdmitStep?
    ensures Matches(db.audit, Effect(db, lim, s).0.audit, Effect(db, lim, s).1)
  {
    hide Admit, Lookup, Decide, DeviceRequest;
  }

  lemma StepMatches(db: Db, lim: Limits, s: Step)
    requires db.highWater <= I64_MAX
    ensures Matches(db.audit, Effect(db, lim, s).0.audit, Effect(db, lim, s).1)
  {
    if s.AdmitStep? { MatchesAdmit(db, lim, s); }
    else if s.Restart? || s.ReleaseStep? || s.DispatchStep? || s.FinishStep? || s.MaintenanceStep? {
      MatchesAuditStep(db, lim, s);
    } else { MatchesQuiet(db, lim, s); }
  }

  lemma LatestAppend(log: seq<Event>, e: Event, r: RequestId)
    ensures Latest(log + [e], r) == if About(e, r) then Some(e) else Latest(log, r)
  {
  }

  lemma AppendOnce(log: seq<Event>, e: Event)
    requires OnceEach(log)
    requires e.Sent? ==> WasAdmitted(log, e.request)
    requires e.Finished? ==> WasSent(log, e.request)
    ensures OnceEach(log + [e])
  {
    var grown := log + [e];
    forall i | 0 <= i < |grown|
      ensures grown[i].Sent? ==> WasAdmitted(grown[..i], grown[i].request)
      ensures grown[i].Finished? ==> WasSent(grown[..i], grown[i].request)
    {
      assert grown[..i] == log[..i];
      assert i == |log| ==> log[..i] == log;
    }
  }

  lemma RecordKeeps(log: seq<Event>, a: Audit, b: Audit, e: Option<Event>)
    requires OnceEach(log) && InPhase(log, a) && Matches(a, b, e)
    ensures OnceEach(Record(log, e)) && InPhase(Record(log, e), b)
  {
    if e.Some? { AppendOnce(log, e.value); }
    forall r | r in b
      ensures RowInPhase(Record(log, e), r, b[r])
    {
      assert Began(a, r, b[r], e);
      if e.Some? { LatestAppend(log, e.value, r); }
    }
  }

  ghost predicate Once(w: World) {
    DbInv(w.db) && OnceEach(w.log) && InPhase(w.log, w.db.audit)
  }

  lemma ApplyOnce(w: World, s: Step)
    requires Once(w)
    ensures Once(Apply(w, s))
  {
    StepEvolves(w.db, w.lim, s);
    StepMatches(w.db, w.lim, s);
    hide Effect;
    RecordKeeps(w.log, w.db.audit, Effect(w.db, w.lim, s).0.audit, Effect(w.db, w.lim, s).1);
  }

  /**
   * Over any run from a fresh store every dispatch of a request is preceded, as the request's latest
   * event, by its admission, and every finish by its dispatch: one admission is dispatched at most
   * once and finished at most once, even if request ids repeat.
   */
  lemma {:induction false} AtMostOnce(w: World, steps: seq<Step>)
    requires Fresh(w)
    ensures Once(Run(w, steps))
  {
    if steps != [] {
      var before, last := steps[..|steps| - 1], steps[|steps| - 1];
      AtMostOnce(w, before);
      hide Once, Apply;
      ApplyOnce(Run(w, before), last);
    }
  }

  // ---------------------------------------------------------------- evidence is never lost

  /** Who may have changed a row that is still there, by what it has become. */
  ghost predicate Caused(s: Step, r: RequestId, a: Row, b: Row) {
    && (b.outcome.Unknown? && b.ended.None? && b != a ==> s.Restart? && a.InFlight())
    && (b.outcome.Dispatched? && b != a ==> s.DispatchStep? && s.permit.request == r && a.outcome.Reserved?)
    && (a.outcome.Dispatched? && b != a ==>
          s.Restart? || (s.FinishStep? && s.permit.request == r && Reports(s.final, b.outcome)))
    && (b.outcome.Completed? || b.outcome.PolicyDenied? ==>
          b == a || (s.FinishStep? && s.permit.request == r && a.outcome.Dispatched?))
  }

  lemma MovesHaveCauses(s: Step, r: RequestId, a: Row, b: Row, now: int)
    requires RowMoves(s, r, a, b, now) || (Deletable(a, now) && Drawn(s, r, b, now))
    ensures Caused(s, r, a, b)
  {
  }

  /**
   * What may happen to a row in one step, by cause: a result is lost only at a restart, a request is
   * sent only by its own dispatch, a sent one is closed only by its own finish, with the outcome it
   * reports, and a row goes only by an admission or by maintenance.
   */
  lemma OutcomesHaveCauses(db: Db, lim: Limits, s: Step, r: RequestId)
    requires DbInv(db) && r in db.audit
    ensures var db' := Effect(db, lim, s).0;
            if r in db'.audit then Caused(s, r, db.audit[r], db'.audit[r])
            else (s.AdmitStep? || s.MaintenanceStep?) && Deletable(db.audit[r], db'.highWater)
  {
    StepEvolves(db, lim, s);
    hide Effect, DbInv, TokensKept, SameIdentity, RowMoves, Drawn, Caused;
    var db' := Effect(db, lim, s).0;
    if r in db'.audit { MovesHaveCauses(s, r, db.audit[r], db'.audit[r], db'.highWater); }
  }

  /**
   * An unknown outcome is permanent: from any state of the store, through any steps, the row stays
   * exactly as it is.
   */
  lemma {:induction false} UnknownIsForever(w: World, steps: seq<Step>, r: RequestId)
    requires DbInv(w.db) && r in w.db.audit && w.db.audit[r].outcome.Unknown?
    ensures r in Run(w, steps).db.audit && Run(w, steps).db.audit[r] == w.db.audit[r]
  {
    if steps != [] {
      var before, last := steps[..|steps| - 1], steps[|steps| - 1];
      hide Effect, TokensKept, SameIdentity;
      UnknownIsForever(w, before, r);
      RunKeepsDb(w, before);
      StepEvolves(Run(w, before).db, Run(w, before).lim, last);
    }
  }

  ghost predicate Settles(s: Step, r: RequestId) {
    s.Restart? || (s.FinishStep? && s.permit.request == r)
  }

  ghost predicate Unchanged(a: Audit, b: Audit, r: RequestId) {
    r in a && r in b && b[r] == a[r]
  }

  lemma ReleaseLeaves(db: Db, p: Permit, wall: int, r: RequestId)
    requires r in db.audit && db.audit[r].outcome.Dispatched?
    ensures Unchanged(db.audit, Release(db, p, wall).0.audit, r)
    ensures Unchanged(db.audit, DispatchChecked(db, p, wall).0.audit, r)
  {
  }

  lemma DispatchedStaysAudit(db: Db, lim: Limits, s: Step, r: RequestId)
    requires s.ReleaseStep? || s.DispatchStep? || s.FinishStep? || s.MaintenanceStep?
    requires r in db.audit && db.audit[r].outcome.Dispatched? && !Settles(s, r)
    ensures Unchanged(db.audit, Effect(db, lim, s).0.audit, r)
  {
    hide Admit, Mint, DevicePoll, Lookup, Decide, DeviceRequest, Rotate, Revoke, RevokeCreated, Review, Open;
    if s.ReleaseStep? { ReleaseLeaves(db, s.permit, s.wall, r); }
    if s.DispatchStep? {
      ReleaseLeaves(db, s.permit, s.wall, r);
      ReleaseLeaves(db, s.permit, s.wall2, r);
    }
  }

  lemma DispatchedStays(db: Db, lim: Limits, s: Step, r: RequestId)
    requires r in db.audit && db.audit[r].outcome.Dispatched? && !Settles(s, r) && db.highWater <= I64_MAX
    ensures r in Effect(db, lim, s).0.audit && Effect(db, lim, s).0.audit[r] == db.audit[r]
  {
    hide Reserve, Lookup, Decide, DeviceRequest, PollPace, Release, Dispatch, Finish, Maintenance;
    if s.AdmitStep? && Admit(db, lim, s.credential, s.op, s.wall0, s.wall, s.request).1.Ok? {
      AdmitOk(db, lim, s.credential, s.op, s.wall0, s.wall, s.request);
      ReserveMatches(db, lim, Admit(db, lim, s.credential, s.op, s.wall0, s.wall, s.request).1.value.token,
                     s.op, Now(db, s.wall), s.request);
    } else if s.ReleaseStep? || s.DispatchStep? || s.FinishStep? || s.MaintenanceStep? {
      DispatchedStaysAudit(db, lim, s, r);
    }
  }

  lemma {:induction false} DispatchedKept(w: World, steps: seq<Step>, p: Permit)
    requires HasRow(w.db.audit, p, Dispatched) && DbInv(w.db)
    requires forall i :: 0 <= i < |steps| ==> !Settles(steps[i], p.request)
    ensures HasRow(Run(w, steps).db.audit, p, Dispatched) && Run(w, steps).db.digest == w.db.digest
  {
    if steps != [] {
      hide Effect, DbInv, TokensKept, RowsMove;
      var before, last := steps[..|steps| - 1], steps[|steps| - 1];
      DispatchedKept(w, before, p);
      RunKeepsDb(w, before);
      var v := Run(w, before);
      ClockBound(v.db);
      DispatchedStays(v.db, v.lim, last, p.request);
      StepEvolves(v.db, v.lim, last);
    }
  }

  lemma FinishCloses(db: Db, p: Permit, f: Final, wall: int)
    requires HasRow(db.audit, p, Dispatched) && p.binding == db.digest && ClockOk(wall)
    ensures var (db', r) := Finish(db, p, f, wall); r.Ok? && ClosedAs(db, db', p.request, f)
  {
  }

  /**
   * A dispatched request keeps its row through any steps other than its own finish or a restart, and
   * its result can then still be recorded, whatever became of its token.
   */
  lemma DispatchedCanFinish(w: World, steps: seq<Step>, p: Permit, f: Final, wall: int)
    requires HasRow(w.db.audit, p, Dispatched) && p.binding == w.db.digest && DbInv(w.db)
    requires forall i :: 0 <= i < |steps| ==> !Settles(steps[i], p.request)
    requires ClockOk(wall)
    ensures var v := Run(w, steps);
            && HasRow(v.db.audit, p, Dispatched) && v.db.digest == w.db.digest
            && Finish(v.db, p, f, wall).1.Ok?
            && ClosedAs(v.db, Finish(v.db, p, f, wall).0, p.request, f)
  {
    hide Run, Finish, ClosedAs, HasRow, DbInv;
    DispatchedKept(w, steps, p);
    FinishCloses(Run(w, steps).db, p, f, wall);
  }

  // ---------------------------------------------------------------- exactly which rows an admission deletes

  ghost function Before(audit: Audit, rows: set<RequestId>, r: RequestId): set<RequestId>
    requires rows <= audit.Keys && r in rows
  {
    set x | x in rows && x != r && NotAfter(audit, x, r)
  }

  /** A row's place in `ORDER BY started,request` decides whether `LIMIT k` takes it. */
  lemma OldestByRank(audit: Audit, rows: set<RequestId>, k: nat, r: RequestId)
    requires rows <= audit.Keys && r in rows
    ensures r in Oldest(audit, rows, k) <==> |Before(audit, rows, r)| < k
  {
    var first := Oldest(audit, rows, k);
    var before := Before(audit, rows, r);
    if r in first {
      forall x | x in before ensures x in first { assert x in first || x in rows - first; }
      SubsetSize(before, first - {r});
    } else {
      assert r in rows - first;
      assert first <= before;
      SubsetSize(first, before);
      if |first| < k { SubsetOfSameSize(first, rows); }
    }
  }

  ghost predicate Takes(audit: Audit, rows: set<RequestId>, k: nat, r: RequestId)
    requires rows <= audit.Keys
  {
    r in rows && |Before(audit, rows, r)| < k
  }

  // The rows an admission may delete: of one token, and of all.
  ghost function DeletableOf(audit: Audit, token: string, now: int): set<RequestId> {
    set r | r in audit && audit[r].token == token && Deletable(audit[r], now)
  }

  ghost function DeletableRows(audit: Audit, now: int): set<RequestId> {
    set r | r in audit && Deletable(audit[r], now)
  }

  /** The oldest deletable rows of the token, as many as it has over its cap of `cap - 1`. */
  ghost function OwnTaken(audit: Audit, token: string, now: int, cap: int): set<RequestId> {
    set r | r in audit && Takes(audit, DeletableOf(audit, token, now), Excess(|RowsOf(audit, token)|, cap), r)
  }

  /** The row is one of those, or among the oldest deletable rows by which the rest is over the total cap. */
  ghost predicate Deleted(audit: Audit, token: string, now: int, lim: Limits, r: RequestId) {
    var own := OwnTaken(audit, token, now, lim.auditPerToken);
    || r in own
    || Takes(audit, DeletableRows(audit, now) - own, Excess(|audit.Keys - own|, lim.auditRows), r)
  }

  // Two tables with the same start times rank rows alike.
  lemma SameRank(a: Audit, b: Audit, rows: set<RequestId>, r: RequestId)
    requires rows <= a.Keys && rows <= b.Keys && r in rows
    requires forall x :: x in rows ==> b[x].started == a[x].started
    ensures Before(b, rows, r) == Before(a, rows, r)
  {
  }

  lemma StaleIsDeletable(audit: Audit, token: string, now: int)
    ensures var stale := ReleaseStale(audit, now);
            && stale.Keys == audit.Keys
            && (forall x :: x in audit ==> stale[x].started == audit[x].started)
            && RowsOf(stale, token) == RowsOf(audit, token)
            && PrunableOf(stale, token, now) == DeletableOf(audit, token, now)
            && Prunable(stale, now) == DeletableRows(audit, now)
  {
  }

  // The query picks the rows that rank decides.
  lemma OldestAre(a: Audit, b: Audit, rows: set<RequestId>, k: nat, r: RequestId)
    requires rows <= a.Keys && rows <= b.Keys && forall x :: x in rows ==> b[x].started == a[x].started
    ensures r in Oldest(b, rows, k) <==> Takes(a, rows, k, r)
  {
    if r in rows {
      OldestByRank(b, rows, k, r);
      SameRank(a, b, rows, r);
    }
  }

  lemma OwnAreOldest(audit: Audit, token: string, now: int, cap: int)
    ensures PruneToken(ReleaseStale(audit, now), token, now, cap) ==
            ReleaseStale(audit, now) - OwnTaken(audit, token, now, cap)
  {
    var stale := ReleaseStale(audit, now);
    var rows := DeletableOf(audit, token, now);
    var k := Excess(|RowsOf(audit, token)|, cap);
    StaleIsDeletable(audit, token, now);
    forall r ensures r in Oldest(stale, rows, k) <==> r in OwnTaken(audit, token, now, cap) {
      OldestAre(audit, stale, rows, k, r);
    }
    hide ReleaseStale, Oldest, OwnTaken;
    assert Oldest(stale, rows, k) == OwnTaken(audit, token, now, cap);
  }

  /**
   * Which rows an admission deletes, on the table before the call. A dispatched or unknown row is
   * never deleted, but a reservation is not safe: it is relabelled once it is 30 seconds old and may
   * be pruned in the same transaction.
   */
  lemma DeletedExactly(audit: Audit, token: string, now: int, lim: Limits, r: RequestId)
    requires r in audit
    ensures r !in Tidy(audit, token, now, lim) <==> Deleted(audit, token, now, lim, r)
    ensures r !in Tidy(audit, token, now, lim) ==> Deletable(audit[r], now)
  {
    var stale := ReleaseStale(audit, now);
    var own := OwnTaken(audit, token, now, lim.auditPerToken);
    StaleIsDeletable(audit, token, now);
    OwnAreOldest(audit, token, now, lim.auditPerToken);
    hide ReleaseStale, OwnTaken, PruneToken;
    var rest := stale - own;
    var rows := DeletableRows(audit, now) - own;
    assert rest.Keys == audit.Keys - own;
    assert |rest| == |rest.Keys|;
    assert Prunable(rest, now) == rows;
    OldestAre(audit, rest, rows, Excess(|rest|, lim.auditRows), r);
    OwnIsDeletable(audit, token, now, lim.auditPerToken);
  }

  lemma OwnIsDeletable(audit: Audit, token: string, now: int, cap: int)
    ensures OwnTaken(audit, token, now, cap) <= DeletableOf(audit, token, now)
  {
  }

  /**
   * When an admission deletes a row that is in flight: exactly if it is a reservation 60 seconds old or
   * older that ranks among the rows deleted for the caps. A row whose id is drawn again counts as deleted.
   */
  lemma InFlightDeletedExactly(db: Db, lim: Limits, s: Step, r: RequestId)
    requires DbInv(db) && s.AdmitStep? && Effect(db, lim, s).1.Some? && r in db.audit && db.audit[r].InFlight()
    ensures var (db', e) := Effect(db, lim, s);
            && e.value.Admitted?
            && (r !in db'.audit || r == s.request <==>
                  && db.audit[r].outcome.Reserved? && db.audit[r].started <= e.value.at - 60
                  && Deleted(db.audit, e.value.token, e.value.at, lim, r))
  {
    hide Effect, Admit, DbInv, Reserve, Tidy, AtCapacity, RecentRows, Deleted, Deletable;
    AdmissionIs(db, lim, s);
    ClockBound(db);
    var (db', p) := Admit(db, lim, s.credential, s.op, s.wall0, s.wall, s.request);
    AdmitOk(db, lim, s.credential, s.op, s.wall0, s.wall, s.request);
    ReserveOk(db, lim, p.value.token, s.op, Now(db, s.wall), s.request);
    DeletedExactly(db.audit, p.value.token, Now(db, s.wall), lim, r);
    InFlightDeletable(db.audit[r], Now(db, s.wall));
  }

  lemma InFlightDeletable(row: Row, now: int)
    requires row.InFlight()
    ensures Deletable(row, now) <==> row.outcome.Reserved? && row.started <= now - 60
  {
  }

  // ---------------------------------------------------------------- a reservation that is lost

  const TINY := Limits(1, 1, 1, 1, 1, 1)

  // What a store draws: the digest and generation of its file, and a token's id and secret.
  datatype Draws = Draws(digest: string, generation: string, id: string, secret: string) {
    predicate Valid() {
      Hex(generation, 64) && Hex(id, 32) && Hex(secret, 64)
    }
  }

  const OWNER := Owner(Binding("w", "a", "g"), "o")

  // A new file; the digest and the generation are drawn or derived when it is made.
  function NewDb(digest: string, generation: string): Db {
    Db(OWNER.binding, digest, generation, false, 0, map[], map[], map[], map[], map[], None)
  }

  // A token that lives for a day, the request it reserves at once, and another one 60 seconds later.
  function Losing(d: Draws): seq<Step> {
    [ReviewStep(OWNER, true, 0),
     MintStep(OWNER, true, DAY, None, d.id, d.secret, 0),
     AdmitStep(Format(d.id, d.secret), Cli, 0, 0, 7),
     AdmitStep(Format(d.id, d.secret), Cli, 60, 60, 8)]
  }

  function MintedDb(d: Draws, audit: Audit, high: int): Db {
    NewDb(d.digest, d.generation).(reviewed := true, audit := audit, highWater := high,
             tokens := map[d.id := Token(Verifier(d.digest, d.generation, d.id, d.secret), d.generation, 0, DAY, "o", None)])
  }

  function Reservation(d: Draws, at: int): Row {
    Row(d.id, d.generation, Cli, None, at, None, Reserved)
  }

  lemma LosingMints(d: Draws)
    ensures var steps, w := Losing(d), World(NewDb(d.digest, d.generation), TINY, []);
            Fresh(w) && Apply(Apply(w, steps[0]), steps[1]) == World(MintedDb(d, map[], 0), TINY, [])
  {
    assert LiveTokens(NewDb(d.digest, d.generation).(reviewed := true), 0) == {};
  }

  // The credential passes every check that comes before the counts.
  lemma LosingAdmits(d: Draws, audit: Audit, high: int, wall: int)
    requires d.Valid() && 0 <= high <= wall <= 60
    ensures AdmitError(MintedDb(d, audit, high), Format(d.id, d.secret), Cli, wall, wall) == None
    ensures Parse(Format(d.id, d.secret)) == Some((d.id, d.secret))
  {
    ParseInvertsFormat(Format(d.id, d.secret), d.id, d.secret);
    hide Parse, Format;
  }

  lemma NothingCounts(id: string, since: int)
    ensures !AtCapacity(map[], id, TINY) && |RecentRows(map[], id, since)| == 0
  {
    var none: Audit := map[];
    assert RowsOf(none, id) == {} && ActiveRows(none) == {} && ActiveRowsOf(none, id) == {} && RecentRows(none, id, since) == {};
  }

  lemma NothingToTidy(id: string)
    ensures Tidy(map[], id, 0, TINY) == map[]
  {
    TidyKeeps(map[], id, 0, TINY);
  }

  // One stale reservation under a cap of one row: tidying leaves nothing.
  lemma StaleIsTidied(d: Draws)
    ensures Tidy(map[7 := Reservation(d, 0)], d.id, 60, TINY) == map[]
  {
    var audit: Audit := map[7 := Reservation(d, 0)];
    assert RowsOf(audit, d.id) == {7} && DeletableOf(audit, d.id, 60) == {7};
    assert Before(audit, {7}, 7) == {};
    assert Deleted(audit, d.id, 60, TINY, 7);
    hide Tidy, Deleted;
    DeletedExactly(audit, d.id, 60, TINY, 7);
    TidyKeeps(audit, d.id, 60, TINY);
    assert Tidy(audit, d.id, 60, TINY).Keys == {};
  }

  lemma LosingReserves(d: Draws, audit: Audit, high: int, wall: int, request: RequestId, log: seq<Event>)
    requires d.Valid() && 0 <= high <= wall <= 60
    requires Tidy(audit, d.id, wall, TINY) == map[]
    ensures var w := Apply(World(MintedDb(d, audit, high), TINY, log),
                           AdmitStep(Format(d.id, d.secret), Cli, wall, wall, request));
            w.db == MintedDb(d, map[request := Reservation(d, wall)], wall) && w.lim == TINY
  {
    LosingAdmits(d, audit, high, wall);
    NothingCounts(d.id, wall - 60);
    hide Tidy, AtCapacity, RecentRows, AdmitError, Parse, Format;
  }

  lemma RunSnoc(w: World, steps: seq<Step>, s: Step)
    ensures Run(w, steps + [s]) == Apply(Run(w, steps), s)
  {
    hide Apply;
    assert (steps + [s])[..|steps|] == steps;
  }

  lemma RunOfFour(w: World, a: Step, b: Step, c: Step, d: Step)
    ensures Run(w, [a, b, c]) == Apply(Apply(Apply(w, a), b), c)
    ensures Run(w, [a, b, c, d]) == Apply(Run(w, [a, b, c]), d)
  {
    hide Apply;
    RunSnoc(w, [], a);
    RunSnoc(w, [a], b);
    RunSnoc(w, [a, b], c);
    RunSnoc(w, [a, b, c], d);
    assert [] + [a] == [a] && [a] + [b] == [a, b] && [a, b] + [c] == [a, b, c] && [a, b, c] + [d] == [a, b, c, d];
    hide Run;
  }

  /**
   * In-flight rows are not all safe: a run from a new file in which a reservation is in flight before
   * the last step, and gone after it, whatever was drawn for the file and the token.
   */
  lemma ReservationLost(d: Draws)
    requires d.Valid()
    ensures var w, steps := World(NewDb(d.digest, d.generation), TINY, []), Losing(d);
            var before, after := Run(w, steps[..3]).db.audit, Run(w, steps).db.audit;
            Fresh(w) && 7 in before && before[7].InFlight() && 7 !in after && 8 in after
  {
    var w, steps := World(NewDb(d.digest, d.generation), TINY, []), Losing(d);
    assert steps[..3] == [steps[0], steps[1], steps[2]];
    RunOfFour(w, steps[0], steps[1], steps[2], steps[3]);
    LosingMints(d);
    NothingToTidy(d.id);
    StaleIsTidied(d);
    hide Apply, Tidy, Format, Run;
    LosingReserves(d, map[], 0, 0, 7, []);
    LosingReserves(d, map[7 := Reservation(d, 0)], 0, 60, 8, Run(w, steps[..3]).log);
  }
}
