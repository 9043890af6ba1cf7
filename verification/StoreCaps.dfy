/** The store's caps hold together in every reachable state. */
module StoreCaps {
  import opened Prelude
  import opened CredentialStore
  import opened CredentialRuns

  /** All caps at once, for given limits. */
  ghost predicate WithinCaps(db: Db, max: Limits) {
    && AuditWithin(db.audit, max)
    && |db.tokens| <= max.tokenRecords
    && LiveWithin(db, max)
  }

  ghost predicate AuditWithin(audit: Audit, max: Limits) {
    && |audit| <= max.auditRows
    && |ActiveRows(audit)| <= max.concurrent
    && (forall token :: |RowsOf(audit, token)| <= max.auditPerToken)
    && (forall token :: |ActiveRowsOf(audit, token)| <= max.concurrentPerToken)
  }

  // At every clock value the store can still show.
  ghost predicate LiveWithin(db: Db, max: Limits) {
    forall now :: now >= db.highWater ==> |LiveTokens(db, now)| <= max.liveTokens
  }

  // ---------------------------------------------------------------- audit rows

  ghost predicate Shrinks(a: Audit, b: Audit) {
    forall r :: r in b ==> r in a && b[r].token == a[r].token && (b[r].InFlight() ==> a[r].InFlight())
  }

  lemma ShrinkWithin(a: Audit, b: Audit, max: Limits)
    requires AuditWithin(a, max) && Shrinks(a, b)
    ensures AuditWithin(b, max)
  {
    SubsetSize(b.Keys, a.Keys);
    SubsetSize(ActiveRows(b), ActiveRows(a));
    forall token ensures |RowsOf(b, token)| <= max.auditPerToken {
      SubsetSize(RowsOf(b, token), RowsOf(a, token));
    }
    forall token ensures |ActiveRowsOf(b, token)| <= max.concurrentPerToken {
      SubsetSize(ActiveRowsOf(b, token), ActiveRowsOf(a, token));
    }
  }

  lemma AddRowOf(a: Audit, request: RequestId, row: Row, token: string)
    requires request !in a
    ensures |RowsOf(a[request := row], token)| == |RowsOf(a, token)| + if token == row.token then 1 else 0
  {
    var b := a[request := row];
    if token == row.token {
      assert RowsOf(b, token) == RowsOf(a, token) + {request};
    } else {
      assert RowsOf(b, token) == RowsOf(a, token);
    }
  }

  lemma AddActiveRowOf(a: Audit, request: RequestId, row: Row, token: string)
    requires request !in a && row.outcome.Reserved?
    ensures |ActiveRowsOf(a[request := row], token)| == |ActiveRowsOf(a, token)| + if token == row.token then 1 else 0
  {
    var b := a[request := row];
    if token == row.token {
      assert ActiveRowsOf(b, token) == ActiveRowsOf(a, token) + {request};
    } else {
      assert ActiveRowsOf(b, token) == ActiveRowsOf(a, token);
    }
  }

  lemma AddRowWithin(a: Audit, request: RequestId, row: Row, lim: Limits, max: Limits)
    requires AuditWithin(a, max) && !AtCapacity(a, row.token, lim) && lim.Within(max)
    requires request !in a && row.outcome.Reserved?
    ensures AuditWithin(a[request := row], max)
  {
    var b := a[request := row];
    assert ActiveRows(b) == ActiveRows(a) + {request};
    hide RowsOf, ActiveRowsOf, ActiveRows;
    forall token
      ensures |RowsOf(b, token)| <= max.auditPerToken && |ActiveRowsOf(b, token)| <= max.concurrentPerToken
    {
      AddRowOf(a, request, row, token);
      AddActiveRowOf(a, request, row, token);
    }
  }

  lemma TidyShrinks(a: Audit, token: string, now: int, lim: Limits)
    ensures Shrinks(a, Tidy(a, token, now, lim))
  {
  }

  lemma ReserveWithin(db: Db, lim: Limits, id: string, op: Operation, now: int, request: RequestId, max: Limits)
    requires Reserve(db, lim, id, op, now, request).1.Ok? && db.highWater <= now <= I64_MAX
    requires AuditWithin(db.audit, max) && lim.Within(max)
    ensures AuditWithin(Reserve(db, lim, id, op, now, request).0.audit, max)
  {
    hide Reserve, Tidy, AtCapacity, AuditWithin;
    ReserveOk(db, lim, id, op, now, request);
    TidyShrinks(db.audit, id, now, lim);
    ShrinkWithin(db.audit, Tidy(db.audit, id, now, lim), max);
    AddRowWithin(Tidy(db.audit, id, now, lim), request, Reserve(db, lim, id, op, now, request).0.audit[request], lim, max);
  }

  lemma RowShrinks(a: Audit, r: RequestId, row: Row)
    requires r in a && a[r].InFlight() && row.token == a[r].token
    ensures Shrinks(a, a[r := row]) && Shrinks(a, a)
  {
  }

  lemma ReleaseShrinks(db: Db, p: Permit, wall: int)
    ensures Shrinks(db.audit, Release(db, p, wall).0.audit)
    ensures Shrinks(db.audit, DispatchChecked(db, p, wall).0.audit)
    ensures DispatchChecked(db, p, wall).1.Err? ==> DispatchChecked(db, p, wall).0 == db
  {
    if HasRow(db.audit, p, Reserved) {
      var row := db.audit[p.request];
      RowShrinks(db.audit, p.request, row.(outcome := Unavailable, ended := Some(Now(db, wall))));
      RowShrinks(db.audit, p.request, row.(outcome := Dispatched));
    }
  }

  lemma FinishShrinks(db: Db, p: Permit, f: Final, wall: int)
    ensures Shrinks(db.audit, Finish(db, p, f, wall).0.audit)
  {
  }

  lemma SameShrinks(a: Audit)
    ensures Shrinks(a, a)
  {
  }

  lemma LostShrinks(a: Audit)
    ensures Shrinks(a, LostResults(a))
  {
  }

  lemma ExpiryShrinks(a: Audit, now: int)
    ensures Shrinks(a, a - Expired(a, now))
  {
  }

  lemma OthersShrink(db: Db, lim: Limits, s: Step)
    requires !s.AdmitStep?
    ensures Shrinks(db.audit, Effect(db, lim, s).0.audit)
  {
    hide Admit, Lookup, Decide, DeviceRequest, PollPace, Release, DispatchChecked, Finish, MintError, OwnerOk;
    hide Revoke, RevokeCreated, Review, Rotate, Shrinks, Expired, LostResults;
    SameShrinks(db.audit);
    LostShrinks(db.audit);
    if s.MaintenanceStep? { ExpiryShrinks(db.audit, Now(db, s.wall)); }
    if s.ReleaseStep? { ReleaseShrinks(db, s.permit, s.wall); }
    if s.DispatchStep? { ReleaseShrinks(db, s.permit, s.wall); ReleaseShrinks(db, s.permit, s.wall2); }
    if s.FinishStep? { FinishShrinks(db, s.permit, s.final, s.wall); }
  }

  lemma StepAuditWithin(db: Db, lim: Limits, s: Step, max: Limits)
    requires AuditWithin(db.audit, max) && lim.Within(max) && db.highWater <= I64_MAX
    ensures AuditWithin(Effect(db, lim, s).0.audit, max)
  {
    hide Reserve, AuditWithin;
    if s.AdmitStep? {
      var (db', r) := Admit(db, lim, s.credential, s.op, s.wall0, s.wall, s.request);
      if r.Ok? {
        AdmitOk(db, lim, s.credential, s.op, s.wall0, s.wall, s.request);
        ReserveWithin(db, lim, r.value.token, s.op, Now(db, s.wall), s.request, max);
      }
    } else {
      hide Effect;
      OthersShrink(db, lim, s);
      ShrinkWithin(db.audit, Effect(db, lim, s).0.audit, max);
    }
  }

  // ---------------------------------------------------------------- tokens

  // No new token, and none comes back to life.
  ghost predicate TokensShrink(a: Db, b: Db) {
    b.tokens.Keys == a.tokens.Keys && forall now :: LiveTokens(b, now) <= LiveTokens(a, now)
  }

  ghost predicate TokensWithin(db: Db, max: Limits) {
    |db.tokens| <= max.tokenRecords && LiveWithin(db, max)
  }

  lemma ShrinkTokensWithin(a: Db, b: Db, max: Limits)
    requires TokensWithin(a, max) && TokensShrink(a, b) && a.highWater <= b.highWater
    ensures TokensWithin(b, max)
  {
    assert |b.tokens.Keys| == |a.tokens.Keys|;
    forall now | now >= b.highWater ensures |LiveTokens(b, now)| <= max.liveTokens {
      SubsetSize(LiveTokens(b, now), LiveTokens(a, now));
    }
  }

  lemma LiveAfterMint(a: Db, b: Db, id: string, token: Token, at: int, now: int)
    requires b.tokens == a.tokens[id := token] && b.generation == a.generation && at <= now
    ensures |LiveTokens(b, now)| <= |LiveTokens(a, at)| + 1
  {
    assert LiveTokens(b, now) <= LiveTokens(a, at) + {id};
    SubsetSize(LiveTokens(b, now), LiveTokens(a, at) + {id});
  }

  lemma MintWithin(db: Db, lim: Limits, owner: Owner, nameOk: bool, ttl: int, endpoint: Option<Endpoint>,
                   device: Option<string>, id: string, secret: string, wall: int, max: Limits)
    requires TokensWithin(db, max) && lim.Within(max)
    ensures TokensWithin(Mint(db, lim, owner, nameOk, ttl, endpoint, device, id, secret, wall).0, max)
  {
    hide LiveTokens, MintError, Mint;
    var (db', r) := Mint(db, lim, owner, nameOk, ttl, endpoint, device, id, secret, wall);
    MintFails(db, lim, owner, nameOk, ttl, endpoint, device, id, secret, wall);
    if r.Ok? {
      MintOk(db, lim, owner, nameOk, ttl, endpoint, device, id, secret, wall);
      assert db'.tokens.Keys == db.tokens.Keys + {id};
      forall now | now >= db'.highWater ensures |LiveTokens(db', now)| <= max.liveTokens {
        LiveAfterMint(db, db', id, db'.tokens[id], Now(db, wall), now);
      }
    }
  }

  lemma SameTokensShrink(a: Db, b: Db)
    requires b.tokens == a.tokens && b.generation == a.generation
    ensures TokensShrink(a, b)
  {
  }

  lemma RevokeShrinks(db: Db, id: string, now: int, at: int)
    ensures TokensShrink(db, Checkpoint(RevokeToken(db, id, now), at))
  {
  }

  lemma RotateShrinks(db: Db, owner: Owner, generation: string, wall: int)
    ensures TokensShrink(db, Rotate(db, owner, generation, wall).0)
  {
  }

  lemma AuditStepsKeepTokens(db: Db, lim: Limits, s: Step)
    requires s.Restart? || s.ReleaseStep? || s.DispatchStep? || s.FinishStep? || s.MaintenanceStep?
    ensures var db' := Effect(db, lim, s).0; db'.tokens == db.tokens && db'.generation == db.generation
  {
  }

  lemma OthersKeepTokens(db: Db, lim: Limits, s: Step)
    requires !s.MintStep? && !s.PollStep? && db.highWater <= I64_MAX
    ensures TokensShrink(db, Effect(db, lim, s).0)
  {
    hide TokensShrink, RevokeToken, Rotate, Admit, Lookup, Decide, DeviceRequest;
    SameTokensShrink(db, db);
    match s
    case RevokeStep(_, id, wall) => RevokeShrinks(db, id, Now(db, wall), Now(db, wall));
    case RevokeCreatedStep(_, id, wall) => RevokeShrinks(db, id, Now(db, wall), Now(db, wall));
    case RotateStep(owner, generation, wall) => RotateShrinks(db, owner, generation, wall);
    case ReviewStep(_, _, _) => SameTokensShrink(db, Effect(db, lim, s).0);
    case RequestStep(_, _, _, _, _, _) => SameTokensShrink(db, Effect(db, lim, s).0);
    case LookupStep(_, _, _) => SameTokensShrink(db, Effect(db, lim, s).0);
    case DecideStep(_, _, _, _, _, _, _) => SameTokensShrink(db, Effect(db, lim, s).0);
    case AdmitStep(_, _, _, _, _) =>
      AdmitOnlyAudit(db, lim, s);
      SameTokensShrink(db, Effect(db, lim, s).0);
    case _ =>
      AuditStepsKeepTokens(db, lim, s);
      SameTokensShrink(db, Effect(db, lim, s).0);
  }

  lemma StepTokensWithin(db: Db, lim: Limits, s: Step, max: Limits)
    requires DbInv(db) && TokensWithin(db, max) && lim.Within(max)
    ensures TokensWithin(Effect(db, lim, s).0, max)
  {
    if s.MintStep? {
      MintWithin(db, lim, s.owner, s.nameOk, s.ttl, s.endpoint, None, s.id, s.secret, s.wall, max);
    } else if s.PollStep? {
      PollWithin(db, lim, s.device, s.wall, s.wall2, s.id, s.secret, s.crash, max);
    } else {
      hide Effect;
      OthersKeepTokens(db, lim, s);
      StepEvolves(db, lim, s);
      ShrinkTokensWithin(db, Effect(db, lim, s).0, max);
    }
  }

  lemma PollWithin(db: Db, lim: Limits, device: string, wall: int, wall2: int, id: string, secret: string, crash: bool,
                   max: Limits)
    requires DbInv(db) && TokensWithin(db, max) && lim.Within(max)
    ensures TokensWithin(DevicePoll(db, lim, device, wall, wall2, id, secret, crash).0, max)
  {
    hide PollPace, TokensWithin, Mint;
    var (paced, answer) := PollPace(db, device, wall);
    ShrinkTokensWithin(db, paced, max);
    if answer.None? {
      var g := paced.grants[device];
      MintWithin(paced, lim, Owner(paced.identity, g.approver.value), g.nameOk, g.days.value * DAY,
                 Some(Endpoint(g.key, g.nameOk, g.key !in paced.agents)), Some(device), id, secret, wall2, max);
    }
  }

  // ---------------------------------------------------------------- runs

  // Every restart opens the store with limits no larger than `max`.
  ghost predicate LimitsWithin(steps: seq<Step>, max: Limits) {
    forall i :: 0 <= i < |steps| && steps[i].Restart? ==> steps[i].limits.Within(max)
  }

  /**
   * If no restart raises a limit above `max`, then after any run from a fresh store the audit rows
   * in total and per token, the requests in flight in total and per token, the token records, and
   * the live tokens at every clock value from the high-water mark on, are all within `max`.
   */
  lemma {:induction false} CapsHold(w: World, steps: seq<Step>, max: Limits)
    requires Fresh(w) && w.lim.Within(max) && LimitsWithin(steps, max)
    ensures WithinCaps(Run(w, steps).db, max)
    ensures DbInv(Run(w, steps).db) && Run(w, steps).lim.Within(max)
  {
    if steps == [] {
      FreshWithin(w, max);
    } else {
      hide WithinCaps, AuditWithin, LiveWithin;
      var before, last := steps[..|steps| - 1], steps[|steps| - 1];
      CapsHold(w, before, max);
      StepWithin(Run(w, before), last, max);
    }
  }

  lemma FreshWithin(w: World, max: Limits)
    requires Fresh(w) && w.lim.Within(max)
    ensures WithinCaps(w.db, max)
  {
  }

  lemma StepWithin(w: World, s: Step, max: Limits)
    requires DbInv(w.db) && WithinCaps(w.db, max) && w.lim.Within(max)
    requires s.Restart? ==> s.limits.Within(max)
    ensures WithinCaps(Apply(w, s).db, max) && DbInv(Apply(w, s).db) && Apply(w, s).lim.Within(max)
  {
    hide Effect, AuditWithin, LiveWithin;
    StepEvolves(w.db, w.lim, s);
    StepAuditWithin(w.db, w.lim, s, max);
    StepTokensWithin(w.db, w.lim, s, max);
  }

  lemma ApplyWithin(w: World, s: Step)
    requires DbInv(w.db) && WithinCaps(w.db, DEFAULT_LIMITS) && w.lim.Valid()
    ensures WithinCaps(Apply(w, s).db, DEFAULT_LIMITS) && DbInv(Apply(w, s).db) && Apply(w, s).lim.Valid()
  {
    hide WithinCaps, AuditWithin, LiveWithin, Admit, Mint, DevicePoll, Lookup, Decide, DeviceRequest, Dispatch;
    if s.Restart? && Open(w.db, s.identity, s.limits).1.Err? {
      assert Effect(w.db, w.lim, s).0 == w.db;
    } else {
      StepWithin(w, s, DEFAULT_LIMITS);
    }
  }

  /** The built-in maxima bound the store whatever valid limits each restart chooses. */
  lemma {:induction false} BuiltInCapsHold(w: World, steps: seq<Step>)
    requires Fresh(w)
    ensures WithinCaps(Run(w, steps).db, Limits(100, 1000, 100_000, 1000, 8, 2))
    ensures DbInv(Run(w, steps).db) && Run(w, steps).lim.Valid()
  {
    if steps == [] {
      FreshWithin(w, DEFAULT_LIMITS);
    } else {
      hide WithinCaps, DbInv, Apply;
      var before, last := steps[..|steps| - 1], steps[|steps| - 1];
      BuiltInCapsHold(w, before);
      ApplyWithin(Run(w, before), last);
    }
  }
}
