/** At most 60 admissions of one token in any 60 seconds of store time, over every run. */
module RateLimit {
  import opened Prelude
  import opened CredentialStore
  import opened CredentialRuns

  ghost predicate Admits(e: Event, token: string) {
    e.Admitted? && e.token == token
  }

  // Admissions are logged in order of store time, and none lies in the store's future.
  ghost predicate Ordered(log: seq<Event>, high: int) {
    && (forall i :: 0 <= i < |log| && log[i].Admitted? ==> log[i].at <= high)
    && (forall i, j :: 0 <= i < j < |log| && log[i].Admitted? && log[j].Admitted? ==> log[i].at <= log[j].at)
  }

  ghost predicate Witnessed(e: Event, audit: Audit)
    requires e.Admitted?
  {
    e.request in audit && audit[e.request].token == e.token && audit[e.request].started == e.at
  }

  // Every admission of the last 60 seconds still has its own audit row.
  ghost predicate RecentWitnessed(log: seq<Event>, audit: Audit, high: int) {
    && (forall i :: 0 <= i < |log| && log[i].Admitted? && log[i].at > high - 60 ==> Witnessed(log[i], audit))
    && (forall i, j :: 0 <= i < j < |log| && log[i].Admitted? && log[j].Admitted? && log[i].at > high - 60 ==>
          log[i].request != log[j].request)
  }

  // The admissions up to entry `last` that are less than 60 seconds older than it.
  ghost function Lookback(log: seq<Event>, token: string, last: nat): set<nat>
    requires last < |log| && log[last].Admitted?
  {
    set i | 0 <= i <= last && Admits(log[i], token) && log[i].at > log[last].at - 60
  }

  ghost predicate Bounded(log: seq<Event>) {
    forall last: nat :: last < |log| && log[last].Admitted? ==> |Lookback(log, log[last].token, last)| <= 60
  }

  ghost predicate Inv(w: World) {
    && DbInv(w.db)
    && Ordered(w.log, w.db.highWater)
    && RecentWitnessed(w.log, w.db.audit, w.db.highWater)
    && Bounded(w.log)
  }

  ghost function RecentEntries(log: seq<Event>, token: string, since: int): set<nat> {
    set i | 0 <= i < |log| && Admits(log[i], token) && log[i].at > since
  }

  /** Log entries inside the window inject into the audit rows that `admit` counts. */
  lemma EntriesAreRows(log: seq<Event>, audit: Audit, token: string, now: int)
    requires RecentWitnessed(log, audit, now)
    ensures |RecentEntries(log, token, now - 60)| <= |RecentRows(audit, token, now - 60)|
  {
    var entries := RecentEntries(log, token, now - 60);
    var requests := map i | i in entries :: log[i].request;
    InjectionSize(entries, requests, RecentRows(audit, token, now - 60));
  }

  lemma WitnessesSurvive(s: Step, log: seq<Event>, a: Audit, b: Audit, low: int, high: int)
    requires RecentWitnessed(log, a, low) && low <= high
    requires RowsMove(s, a, b, high)
    ensures RecentWitnessed(log, b, high)
  {
  }

  lemma LookbackGrows(log: seq<Event>, e: Event, token: string, last: nat)
    requires last < |log| && log[last].Admitted?
    ensures Lookback(log + [e], token, last) == Lookback(log, token, last)
  {
  }

  lemma NewLookback(log: seq<Event>, e: Event)
    requires e.Admitted?
    ensures Lookback(log + [e], e.token, |log|) == RecentEntries(log, e.token, e.at - 60) + {|log|}
  {
  }

  lemma AppendBounded(log: seq<Event>, e: Event)
    requires Bounded(log)
    requires e.Admitted? ==> |RecentEntries(log, e.token, e.at - 60)| < 60
    ensures Bounded(log + [e])
  {
    hide Lookback, RecentEntries, Admits;
    var grown := log + [e];
    forall last: nat | last < |grown| && grown[last].Admitted?
      ensures |Lookback(grown, grown[last].token, last)| <= 60
    {
      if last < |log| {
        LookbackGrows(log, e, log[last].token, last);
      } else {
        NewLookback(log, e);
      }
    }
  }

  // Rows inside the rate window survive the tidying that precedes an admission.
  lemma TidyKeepsRecent(log: seq<Event>, audit: Audit, low: int, token: string, now: int, lim: Limits)
    requires RecentWitnessed(log, audit, low) && low <= now
    ensures RecentWitnessed(log, Tidy(audit, token, now, lim), now)
  {
    TidyKeeps(audit, token, now, lim);
    var stale := ReleaseStale(audit, now);
    forall i | 0 <= i < |log| && log[i].Admitted? && log[i].at > now - 60
      ensures Witnessed(log[i], Tidy(audit, token, now, lim))
    {
      assert Witnessed(log[i], audit);
      assert stale[log[i].request].started == log[i].at;
    }
  }

  lemma AppendWitnessed(log: seq<Event>, audit: Audit, request: RequestId, row: Row, now: int)
    requires RecentWitnessed(log, audit, now) && request !in audit && row.started == now
    ensures RecentWitnessed(log + [Admitted(request, row.token, now, row.operation, row.target)], audit[request := row], now)
  {
  }

  lemma AdmissionKeeps(log: seq<Event>, low: int, audit: Audit, request: RequestId, row: Row)
    requires Ordered(log, low) && Bounded(log) && low <= row.started
    requires RecentWitnessed(log, audit, row.started) && request !in audit
    requires |RecentRows(audit, row.token, row.started - 60)| < 60
    ensures var grown := log + [Admitted(request, row.token, row.started, row.operation, row.target)];
            && Ordered(grown, row.started)
            && RecentWitnessed(grown, audit[request := row], row.started)
            && Bounded(grown)
  {
    EntriesAreRows(log, audit, row.token, row.started);
    AppendBounded(log, Admitted(request, row.token, row.started, row.operation, row.target));
    AppendWitnessed(log, audit, request, row, row.started);
  }

  // The audit table `admit` counted, and the row it added.
  lemma ReserveCounted(db: Db, lim: Limits, log: seq<Event>, id: string, op: Operation, now: int, request: RequestId)
    returns (audit: Audit, row: Row)
    requires Reserve(db, lim, id, op, now, request).1.Ok? && db.highWater <= now <= I64_MAX
    requires RecentWitnessed(log, db.audit, db.highWater)
    ensures RecentWitnessed(log, audit, now) && request !in audit && |RecentRows(audit, id, now - 60)| < 60
    ensures row.token == id && row.started == now && row.operation == op && row.target == Target(db, id, op)
    ensures Reserve(db, lim, id, op, now, request).0.audit == audit[request := row]
  {
    ReserveOk(db, lim, id, op, now, request);
    TidyKeepsRecent(log, db.audit, db.highWater, id, now, lim);
    audit, row := Tidy(db.audit, id, now, lim), Reserve(db, lim, id, op, now, request).0.audit[request];
  }

  lemma ReserveKeeps(db: Db, lim: Limits, log: seq<Event>, id: string, op: Operation, now: int, request: RequestId)
    requires Reserve(db, lim, id, op, now, request).1.Ok? && db.highWater <= now <= I64_MAX
    requires Ordered(log, db.highWater) && Bounded(log) && RecentWitnessed(log, db.audit, db.highWater)
    ensures var grown := log + [Admitted(request, id, now, op, Target(db, id, op))];
            && Ordered(grown, now) && Bounded(grown)
            && RecentWitnessed(grown, Reserve(db, lim, id, op, now, request).0.audit, now)
  {
    hide Reserve, RecentRows, Ordered, Bounded, RecentWitnessed;
    var audit, row := ReserveCounted(db, lim, log, id, op, now, request);
    AdmissionKeeps(log, db.highWater, audit, request, row);
  }

  lemma AdmitKeeps(w: World, s: Step)
    requires Inv(w) && s.AdmitStep? && Effect(w.db, w.lim, s).1.Some?
    ensures Inv(Apply(w, s))
  {
    hide Effect, Admit, Reserve, DbInv, Tidy, AtCapacity, RecentRows, Ordered, Bounded, RecentWitnessed, RowsMove, OnlyAudit;
    AdmissionIs(w.db, w.lim, s);
    ClockBound(w.db);
    var (db', r) := Admit(w.db, w.lim, s.credential, s.op, s.wall0, s.wall, s.request);
    AdmitOk(w.db, w.lim, s.credential, s.op, s.wall0, s.wall, s.request);
    StepEvolves(w.db, w.lim, s);
    ReserveOk(w.db, w.lim, r.value.token, s.op, Now(w.db, s.wall), s.request);
    ReserveKeeps(w.db, w.lim, w.log, r.value.token, s.op, Now(w.db, s.wall), s.request);
  }

  // An event that admits nothing.
  lemma QuietGrows(log: seq<Event>, e: Option<Event>, audit: Audit, low: int, high: int)
    requires e.Some? ==> !e.value.Admitted?
    requires Ordered(log, low) && low <= high && RecentWitnessed(log, audit, high)
    ensures Ordered(Record(log, e), high) && RecentWitnessed(Record(log, e), audit, high)
  {
  }

  lemma OtherKeeps(w: World, s: Step)
    requires Inv(w)
    requires var e := Effect(w.db, w.lim, s).1; e.Some? ==> !e.value.Admitted?
    ensures Inv(Apply(w, s))
  {
    hide Effect, Bounded, Ordered, RecentWitnessed, RowsMove, DbInv;
    var (db', e) := Effect(w.db, w.lim, s);
    StepEvolves(w.db, w.lim, s);
    WitnessesSurvive(s, w.log, w.db.audit, db'.audit, w.db.highWater, db'.highWater);
    QuietGrows(w.log, e, db'.audit, w.db.highWater, db'.highWater);
    if e.Some? { AppendBounded(w.log, e.value); }
  }

  lemma ApplyKeeps(w: World, s: Step)
    requires Inv(w)
    ensures Inv(Apply(w, s))
  {
    hide Inv, Apply, Admit, Mint, DevicePoll, Lookup, Decide, DeviceRequest, Dispatch, Finish, Release, Open;
    var e := Effect(w.db, w.lim, s).1;
    if e.Some? && e.value.Admitted? { AdmitKeeps(w, s); } else { OtherKeeps(w, s); }
  }

  lemma {:induction false} RunKeeps(w: World, steps: seq<Step>)
    requires Inv(w)
    ensures Inv(Run(w, steps))
  {
    hide Inv, Apply;
    if steps != [] {
      var before, last := steps[..|steps| - 1], steps[|steps| - 1];
      RunKeeps(w, before);
      ApplyKeeps(Run(w, before), last);
    }
  }

  /** The log entries that admit `token` in the 60 seconds from `start`. */
  ghost function Window(log: seq<Event>, token: string, start: int): set<nat> {
    set i | 0 <= i < |log| && Admits(log[i], token) && start <= log[i].at < start + 60
  }

  lemma {:induction false} LatestExists(entries: set<nat>) returns (last: nat)
    requires entries != {}
    ensures last in entries && forall i :: i in entries ==> i <= last
    decreases entries
  {
    last :| last in entries;
    if entries != {last} {
      assert entries == entries - {last} + {last};
      var other := LatestExists(entries - {last});
      if other > last { last := other; }
    }
  }

  /**
   * From a fresh store, after any steps, no 60-second window of store time holds more than 60
   * admissions of one token: across restarts, clocks that jump back, and pruning of the very rows
   * the limit is counted from.
   */
  lemma RateLimitHolds(w: World, steps: seq<Step>, token: string, start: int)
    requires Fresh(w)
    ensures |Window(Run(w, steps).log, token, start)| <= 60
  {
    RunKeeps(w, steps);
    var log := Run(w, steps).log;
    var entries := Window(log, token, start);
    if entries != {} {
      var last := LatestExists(entries);
      assert entries <= Lookback(log, token, last);
      SubsetSize(entries, Lookback(log, token, last));
    }
  }
}
