/** Guessing user codes is bounded: at most 30 lookups per minute of store time get an answer. */
module LookupBudget {
  import opened Prelude
  import opened CredentialStore
  import opened CredentialRuns

  ghost function Tries(log: seq<Event>, minute: int): set<nat> {
    set i | 0 <= i < |log| && log[i] == Tried(minute)
  }

  ghost predicate Spent(log: seq<Event>, budget: Option<Budget>, high: int) {
    && (budget.Some? ==> budget.value.minute <= high / 60 && |Tries(log, budget.value.minute)| <= budget.value.attempts)
    && (forall i :: 0 <= i < |log| && log[i].Tried? ==> budget.Some? && log[i].minute <= budget.value.minute)
    && (forall minute :: |Tries(log, minute)| <= 30)
  }

  lemma TriesAppend(log: seq<Event>, e: Event, minute: int)
    ensures |Tries(log + [e], minute)| == |Tries(log, minute)| + if e == Tried(minute) then 1 else 0
  {
    if e == Tried(minute) {
      assert Tries(log + [e], minute) == Tries(log, minute) + {|log|};
    } else {
      assert Tries(log + [e], minute) == Tries(log, minute);
    }
  }

  lemma SpendKeeps(log: seq<Event>, budget: Option<Budget>, high: int, now: int)
    requires Spent(log, budget, high) && 0 <= high <= now
    ensures var next := SpendAttempt(budget, now / 60);
            Spent(if next.attempts <= 30 then log + [Tried(now / 60)] else log, Some(next), now)
  {
    var minute := now / 60;
    var next := SpendAttempt(budget, minute);
    if budget.None? || budget.value.minute < minute {
      assert Tries(log, minute) == {};
    }
    if next.attempts <= 30 {
      forall m ensures |Tries(log + [Tried(minute)], m)| <= 30 { TriesAppend(log, Tried(minute), m); }
      TriesAppend(log, Tried(minute), minute);
    }
  }

  lemma QuietKeeps(log: seq<Event>, budget: Option<Budget>, low: int, high: int, e: Option<Event>)
    requires Spent(log, budget, low) && low <= high && (e.Some? ==> !e.value.Tried?)
    ensures Spent(Record(log, e), budget, high)
  {
    if e.Some? {
      forall m ensures |Tries(log + [e.value], m)| == |Tries(log, m)| { TriesAppend(log, e.value, m); }
    }
  }

  // How each step treats the attempt budget.
  ghost predicate Spends(s: Step, db: Db) {
    || (s.LookupStep? && OwnerOk(db, s.owner) && ClockOk(s.wall))
    || (s.DecideStep? && (s.approve ==> s.confirmed && (s.days == 30 || s.days == 90))
        && OwnerOk(db, s.owner) && ClockOk(s.wall))
  }

  ghost predicate BudgetMoves(s: Step, a: Db, b: Db, e: Option<Event>) {
    if Spends(s, a) then
      var now := Now(a, s.wall);
      && b.budget == Some(SpendAttempt(a.budget, now / 60)) && now <= b.highWater
      && e == (if b.budget.value.attempts <= 30 then Some(Tried(now / 60)) else None)
    else
      b.budget == a.budget && (e.Some? ==> !e.value.Tried?)
  }

  lemma LookupSpends(db: Db, lim: Limits, s: Step)
    requires s.LookupStep? || s.DecideStep?
    ensures BudgetMoves(s, db, Effect(db, lim, s).0, Effect(db, lim, s).1)
  {
    hide Lookup, OwnerOk, SpendAttempt;
    LookupSpendsOne(db, s.owner, s.code, s.wall);
  }

  lemma LookupSpendsOne(db: Db, owner: Owner, code: Option<string>, wall: int)
    ensures var db' := Lookup(db, owner, code, wall).0;
            if OwnerOk(db, owner) && ClockOk(wall)
            then db'.budget == Some(SpendAttempt(db.budget, Now(db, wall) / 60)) && db'.highWater == Now(db, wall)
            else db' == db
    ensures Lookup(db, owner, code, wall).1.Ok? ==> OwnerOk(db, owner) && ClockOk(wall)
  {
    hide UserHasGrant, UserGrant, OwnerOk, SpendAttempt;
  }

  lemma StepBudget(db: Db, lim: Limits, s: Step)
    requires db.highWater <= I64_MAX
    ensures BudgetMoves(s, db, Effect(db, lim, s).0, Effect(db, lim, s).1)
  {
    hide Admit, Open, Release, Dispatch, Finish, Maintenance, Lookup, Decide, AttemptPasses;
    hide Revoke, RevokeCreated, Review, Rotate, DeviceRequest, PollPace, MintError;
    if s.AdmitStep? { AdmitOnlyAudit(db, lim, s); }
    if s.LookupStep? || s.DecideStep? { LookupSpends(db, lim, s); }
  }

  lemma SpentLater(log: seq<Event>, budget: Option<Budget>, low: int, high: int)
    requires Spent(log, budget, low) && low <= high
    ensures Spent(log, budget, high)
  {
  }

  /** Over any run from a fresh store, no minute of store time answers more than 30 lookups. */
  lemma {:induction false} LookupsBounded(w: World, steps: seq<Step>)
    requires Fresh(w)
    ensures DbInv(Run(w, steps).db)
    ensures Spent(Run(w, steps).log, Run(w, steps).db.budget, Run(w, steps).db.highWater)
    ensures forall minute :: |Tries(Run(w, steps).log, minute)| <= 30
  {
    if steps == [] {
      assert forall minute :: Tries(w.log, minute) == {};
    } else {
      hide Spent, Tries;
      var before, last := steps[..|steps| - 1], steps[|steps| - 1];
      LookupsBounded(w, before);
      StepSpends(Run(w, before), last);
      SpentBounds(Run(w, steps).log, Run(w, steps).db.budget, Run(w, steps).db.highWater);
    }
  }

  lemma SpentBounds(log: seq<Event>, budget: Option<Budget>, high: int)
    requires Spent(log, budget, high)
    ensures forall minute :: |Tries(log, minute)| <= 30
  {
  }

  lemma StepSpends(w: World, s: Step)
    requires DbInv(w.db) && Spent(w.log, w.db.budget, w.db.highWater)
    ensures DbInv(Apply(w, s).db) && Spent(Apply(w, s).log, Apply(w, s).db.budget, Apply(w, s).db.highWater)
  {
    hide Effect, Spent;
    StepEvolves(w.db, w.lim, s);
    StepBudget(w.db, w.lim, s);
    var (db', e) := Effect(w.db, w.lim, s);
    if Spends(s, w.db) {
      var now := Now(w.db, s.wall);
      SpendKeeps(w.log, w.db.budget, w.db.highWater, now);
      SpentLater(Apply(w, s).log, db'.budget, now, db'.highWater);
    } else {
      QuietKeeps(w.log, w.db.budget, w.db.highWater, db'.highWater, e);
    }
  }
}
