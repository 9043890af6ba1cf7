/**
 * Whole runs of the credential store: every transaction, restarts, crashes between the two
 * transactions of one call, and wall-clock readings in any order.
 */
module CredentialRuns {
  import opened Prelude
  import opened CredentialStore

  datatype Event =
    | Admitted(request: RequestId, token: string, at: int, operation: Operation, target: Option<string>)
    | Sent(request: RequestId, token: string)
    | Finished(request: RequestId)
    | Requested(device: string)
    | Minted(device: string, id: string)
    | Tried(minute: int)

  datatype Step =
    | Restart(identity: Binding, limits: Limits)
    | MintStep(owner: Owner, nameOk: bool, ttl: int, endpoint: Option<Endpoint>, id: string, secret: string, wall: int)
    | RevokeStep(owner: Owner, id: string, wall: int)
    | RevokeCreatedStep(permit: Permit, id: string, wall: int)
    | ReviewStep(owner: Owner, enabled: bool, wall: int)
    | RotateStep(owner: Owner, generation: string, wall: int)
    | AdmitStep(credential: string, op: Operation, wall0: int, wall: int, request: RequestId)
    | ReleaseStep(permit: Permit, wall: int)
    | DispatchStep(permit: Permit, wall: int, wall2: int, crash: bool)
    | FinishStep(permit: Permit, final: Final, wall: int)
    | MaintenanceStep(owner: Owner, wall: int)
    | RequestStep(key: string, nameOk: bool, ttl: int, device: string, user: string, wall: int)
    | LookupStep(owner: Owner, code: Option<string>, wall: int)
    | DecideStep(owner: Owner, code: Option<string>, approve: bool, days: int, confirmed: bool, wall: int, wall2: int)
    | PollStep(device: string, wall: int, wall2: int, id: string, secret: string, crash: bool)

  // The database, the limits the running process was opened with, and what has happened so far.
  datatype World = World(db: Db, lim: Limits, log: seq<Event>)

  ghost predicate AttemptPasses(db: Db, owner: Owner, wall: int) {
    OwnerOk(db, owner) && ClockOk(wall) && SpendAttempt(db.budget, Now(db, wall) / 60).attempts <= 30
  }

  // An admission, as the permit that was handed out says.
  ghost function Permitted(p: Permit, at: int): Event {
    Admitted(p.request, p.token, at, p.operation, p.target)
  }

  /** The database after a step, and the event worth remembering. */
  ghost function Effect(db: Db, lim: Limits, s: Step): (Db, Option<Event>) {
    match s
    case Restart(identity, limits) => (Open(db, identity, limits).0, None)
    case MintStep(owner, nameOk, ttl, endpoint, id, secret, wall) =>
      (Mint(db, lim, owner, nameOk, ttl, endpoint, None, id, secret, wall).0, None)
    case RevokeStep(owner, id, wall) => (Revoke(db, owner, id, wall).0, None)
    case RevokeCreatedStep(permit, id, wall) => (RevokeCreated(db, permit, id, wall).0, None)
    case ReviewStep(owner, enabled, wall) => (Review(db, owner, enabled, wall).0, None)
    case RotateStep(owner, generation, wall) => (Rotate(db, owner, generation, wall).0, None)
    case AdmitStep(credential, op, wall0, wall, request) =>
      var (db', r) := Admit(db, lim, credential, op, wall0, wall, request);
      (db', if r.Ok? then Some(Permitted(r.value, Now(db, wall))) else None)
    case ReleaseStep(permit, wall) => (Release(db, permit, wall).0, None)
    case DispatchStep(permit, wall, wall2, crash) =>
      var (db', r) := Dispatch(db, permit, wall, wall2, crash);
      (db', if r.Ok? then Some(Sent(permit.request, permit.token)) else None)
    case FinishStep(permit, final, wall) =>
      var (db', r) := Finish(db, permit, final, wall);
      (db', if r.Ok? then Some(Finished(permit.request)) else None)
    case MaintenanceStep(owner, wall) => (Maintenance(db, owner, wall).0, None)
    case RequestStep(key, nameOk, ttl, device, user, wall) =>
      var (db', r) := DeviceRequest(db, key, nameOk, ttl, device, user, wall);
      (db', if r.Ok? then Some(Requested(device)) else None)
    case LookupStep(owner, code, wall) =>
      (Lookup(db, owner, code, wall).0,
       if AttemptPasses(db, owner, wall) then Some(Tried(Now(db, wall) / 60)) else None)
    case DecideStep(owner, code, approve, days, confirmed, wall, wall2) =>
      (Decide(db, owner, code, approve, days, confirmed, wall, wall2).0,
       if (approve ==> confirmed && (days == 30 || days == 90)) && AttemptPasses(db, owner, wall)
       then Some(Tried(Now(db, wall) / 60)) else None)
    case PollStep(device, wall, wall2, id, secret, crash) =>
      var (db', r) := DevicePoll(db, lim, device, wall, wall2, id, secret, crash);
      (db', if r.Ok? && r.value.Issued? then Some(Minted(device, id)) else None)
  }

  ghost function Limited(db: Db, lim: Limits, s: Step): Limits {
    if s.Restart? && Open(db, s.identity, s.limits).1.Ok? then s.limits else lim
  }

  ghost function Record(log: seq<Event>, e: Option<Event>): seq<Event> {
    if e.None? then log else log + [e.value]
  }

  ghost function Apply(w: World, s: Step): World {
    var (db, e) := Effect(w.db, w.lim, s);
    World(db, Limited(w.db, w.lim, s), Record(w.log, e))
  }

  ghost function Run(w: World, steps: seq<Step>): World {
    if steps == [] then w else Apply(Run(w, steps[..|steps| - 1]), steps[|steps| - 1])
  }

  // A store file that was just created.
  ghost predicate Fresh(w: World) {
    && w.db.highWater == 0 && !w.db.reviewed && w.db.budget == None
    && w.db.tokens == map[] && w.db.audit == map[] && w.db.agents == map[] && w.db.bindings == map[]
    && w.db.grants == map[] && w.lim.Valid() && w.log == []
  }

  // ---------------------------------------------------------------- what one step may change

  ghost function Ended(row: Row, outcome: Outcome, now: int): Row {
    row.(outcome := outcome, ended := Some(now))
  }

  /** The recorded outcome is the reported one. */
  ghost predicate Reports(f: Final, o: Outcome) {
    && (f == FinalCompleted <==> o == Completed) && (f == FinalDenied <==> o == PolicyDenied)
    && (f == FinalUnavailable <==> o == Unavailable) && (f == FinalUnknown <==> o == Unknown)
  }

  /** The row is closed with the reported outcome, and no other row is touched. */
  ghost predicate ClosedAs(a: Db, b: Db, r: RequestId, f: Final) {
    && r in a.audit && r in b.audit && Reports(f, b.audit[r].outcome)
    && b.audit == a.audit[r := a.audit[r].(outcome := b.audit[r].outcome, ended := Some(b.highWater))]
  }

  /**
   * One audit row before and after a step. Each change has its own cause: only a restart loses a
   * result, only its own dispatch sends a request, only its own finish closes a dispatched one, and a
   * reservation is given back by its own release or failed dispatch, or by an admission once stale.
   */
  ghost predicate RowMoves(s: Step, r: RequestId, a: Row, b: Row, now: int) {
    || b == a
    || (s.Restart? && a.InFlight() && b == a.(outcome := Unknown, ended := None))
    || (s.DispatchStep? && s.permit.request == r && a.outcome.Reserved? && b == a.(outcome := Dispatched))
    || ((s.ReleaseStep? || s.DispatchStep?) && s.permit.request == r && a.outcome.Reserved? && b == Ended(a, Unavailable, now))
    || (s.AdmitStep? && a.outcome.Reserved? && a.started <= now - 30 && b == Ended(a, Unavailable, now))
    || (s.FinishStep? && s.permit.request == r && a.outcome.Dispatched? && Reports(s.final, b.outcome) &&
        b == Ended(a, b.outcome, now))
  }

  /** Rows a step may delete: closed ones, or reservations that were never dispatched, out of the rate window. */
  ghost predicate Deletable(a: Row, now: int) {
    a.started <= now - 60 && (a.Closed() || a.outcome.Reserved?)
  }

  type Audit = map<RequestId, Row>

  // The row that an admission adds.
  ghost predicate Drawn(s: Step, r: RequestId, row: Row, now: int) {
    s.AdmitStep? && s.request == r && row.outcome.Reserved? && row.started == now
  }

  // A row stays and moves, or is deleted; a deleted id may be drawn again by the admission that deletes it.
  ghost predicate RowsMove(s: Step, a: Audit, b: Audit, now: int) {
    && (forall r :: r in a ==>
          || (r in b && RowMoves(s, r, a[r], b[r], now))
          || (Deletable(a[r], now) && (s.AdmitStep? || s.MaintenanceStep?) && (r in b ==> Drawn(s, r, b[r], now))))
    && (forall r :: r in b && r !in a ==> Drawn(s, r, b[r], now))
  }

  ghost predicate SameToken(a: Token, b: Token) {
    && b.verifier == a.verifier && b.generation == a.generation && b.created == a.created
    && b.expires == a.expires && b.creator == a.creator
    && (a.revokedAt.Some? ==> b.revokedAt.Some?)
  }

  ghost predicate TokensKept(a: map<string, Token>, b: map<string, Token>) {
    forall k :: k in a ==> k in b && SameToken(a[k], b[k])
  }

  ghost predicate SameIdentity(a: Db, b: Db) {
    b.digest == a.digest && b.identity == a.identity && a.highWater <= b.highWater <= I64_MAX
  }

  // ---------------------------------------------------------------- invariant of the tables

  ghost predicate RowTimed(high: int, row: Row) {
    && row.started <= high
    && (row.ended.Some? ==> row.started <= row.ended.value <= high)
    && (row.InFlight() ==> row.ended.None?)
  }

  ghost predicate RowsTimed(audit: Audit, high: int) {
    forall r :: r in audit ==> RowTimed(high, audit[r])
  }

  // A token outside the current generation was revoked when the generation was rotated.
  ghost predicate Contained(tokens: map<string, Token>, generation: string) {
    forall k :: k in tokens && tokens[k].generation != generation ==> tokens[k].revokedAt.Some?
  }

  ghost predicate RowsNamed(audit: Audit, tokens: map<string, Token>) {
    forall r :: r in audit ==> audit[r].token in tokens
  }

  ghost predicate DbInv(db: Db) {
    && 0 <= db.highWater <= I64_MAX && RowsTimed(db.audit, db.highWater) && Contained(db.tokens, db.generation)
    && RowsNamed(db.audit, db.tokens) && db.bindings.Keys <= db.tokens.Keys
  }

  /** The summary of one step that the theorems below are built on. */
  ghost predicate Evolves(s: Step, a: Db, b: Db) {
    && SameIdentity(a, b)
    && TokensKept(a.tokens, b.tokens)
    && RowsMove(s, a.audit, b.audit, b.highWater)
    && DbInv(b)
  }

  // ---------------------------------------------------------------- every step evolves the database

  lemma StaleRowsTimed(a: Audit, low: int, now: int)
    requires RowsTimed(a, low) && low <= now
    ensures RowsTimed(ReleaseStale(a, now), now)
  {
  }

  lemma TidyKeeps(audit: Audit, token: string, now: int, lim: Limits)
    ensures var a, b := ReleaseStale(audit, now), Tidy(audit, token, now, lim);
            && b.Keys <= a.Keys
            && (forall r :: r in b ==> b[r] == a[r])
            && (forall r :: r in a && r !in b ==> a[r].Closed() && a[r].started <= now - 60)
  {
  }

  lemma AdmissionMovesRow(s: Step, a: Audit, token: string, now: int, lim: Limits, row: Row, r: RequestId)
    requires s.AdmitStep? && r in a && s.request !in Tidy(a, token, now, lim)
    requires row.outcome.Reserved? && row.started == now
    ensures var b := Tidy(a, token, now, lim)[s.request := row];
            || (r in b && RowMoves(s, r, a[r], b[r], now))
            || (Deletable(a[r], now) && (r in b ==> Drawn(s, r, b[r], now)))
  {
    TidyKeeps(a, token, now, lim);
    var stale := ReleaseStale(a, now);
    assert r in stale;
  }

  lemma AdmissionMoves(s: Step, a: Audit, token: string, now: int, lim: Limits, row: Row)
    requires s.AdmitStep? && s.request !in Tidy(a, token, now, lim)
    requires row.outcome.Reserved? && row.started == now
    ensures RowsMove(s, a, Tidy(a, token, now, lim)[s.request := row], now)
  {
    TidyKeeps(a, token, now, lim);
    var stale := ReleaseStale(a, now);
    hide Tidy;
    var b := Tidy(a, token, now, lim)[s.request := row];
    forall r | r in a { AdmissionMovesRow(s, a, token, now, lim, row, r); }
    hide RowMoves, Deletable, ReleaseStale;
    forall r | r in b && r !in a ensures Drawn(s, r, b[r], now) { }
  }

  lemma AdmissionKept(s: Step, a: Audit, token: string, low: int, now: int, lim: Limits, row: Row, tokens: map<string, Token>)
    requires s.AdmitStep? && RowsTimed(a, low) && low <= now && RowsNamed(a, tokens)
    requires row.outcome.Reserved? && row.started == now && row.ended == None && row.token in tokens
    ensures var b := Tidy(a, token, now, lim)[s.request := row];
            RowsTimed(b, now) && RowsNamed(b, tokens)
  {
    StaleRowsTimed(a, low, now);
    TidyKeeps(a, token, now, lim);
    hide Tidy;
  }

  // Only the audit table and the clock change.
  lemma EvolvesAudit(s: Step, a: Db, b: Db)
    requires DbInv(a) && SameIdentity(a, b) && b.tokens == a.tokens && b.generation == a.generation
    requires b.bindings == a.bindings && RowsNamed(b.audit, b.tokens)
    requires RowsMove(s, a.audit, b.audit, b.highWater) && RowsTimed(b.audit, b.highWater)
    ensures Evolves(s, a, b)
  {
  }

  // Neither audit rows nor tokens change.
  lemma EvolvesQuietly(s: Step, a: Db, b: Db)
    requires DbInv(a) && SameIdentity(a, b) && b.tokens == a.tokens && b.generation == a.generation
    requires b.audit == a.audit && b.bindings == a.bindings
    ensures Evolves(s, a, b)
  {
  }

  lemma EvolvesTokens(s: Step, a: Db, b: Db)
    requires DbInv(a) && SameIdentity(a, b) && b.audit == a.audit
    requires TokensKept(a.tokens, b.tokens) && Contained(b.tokens, b.generation) && b.bindings.Keys <= b.tokens.Keys
    ensures Evolves(s, a, b)
  {
  }

  lemma EvolvesRow(s: Step, a: Db, b: Db, r: RequestId)
    requires DbInv(a) && SameIdentity(a, b) && b.tokens == a.tokens && b.generation == a.generation
    requires b.bindings == a.bindings
    requires r in a.audit && r in b.audit && b.audit == a.audit[r := b.audit[r]]
    requires RowMoves(s, r, a.audit[r], b.audit[r], b.highWater) && RowTimed(b.highWater, b.audit[r])
    ensures Evolves(s, a, b)
  {
  }

  lemma EvolvesAdmit(db: Db, lim: Limits, s: Step)
    requires DbInv(db) && s.AdmitStep?
    ensures Evolves(s, db, Admit(db, lim, s.credential, s.op, s.wall0, s.wall, s.request).0)
  {
    var (db', r) := Admit(db, lim, s.credential, s.op, s.wall0, s.wall, s.request);
    if r.Ok? {
      AdmitOk(db, lim, s.credential, s.op, s.wall0, s.wall, s.request);
      ReserveOk(db, lim, r.value.token, s.op, Now(db, s.wall), s.request);
      AdmissionMoves(s, db.audit, r.value.token, db'.highWater, lim, db'.audit[s.request]);
      AdmissionKept(s, db.audit, r.value.token, db.highWater, db'.highWater, lim, db'.audit[s.request], db.tokens);
      hide Admit, Reserve, Tidy, AtCapacity, RecentRows, RowsMove, RowsTimed, RowsNamed;
      EvolvesAudit(s, db, db');
    } else {
      EvolvesQuietly(s, db, db');
    }
  }

  // A step that admits is an admission, and logs who was admitted and when.
  lemma AdmissionIs(db: Db, lim: Limits, s: Step)
    requires s.AdmitStep?
    ensures var (db', r) := Admit(db, lim, s.credential, s.op, s.wall0, s.wall, s.request);
            Effect(db, lim, s) == (db', if r.Ok? then Some(Permitted(r.value, Now(db, s.wall))) else None)
  {
    hide Admit;
  }

  lemma ClockBound(db: Db)
    requires DbInv(db)
    ensures db.highWater <= I64_MAX
  {
  }

  // An admission touches nothing but the audit table and the clock.
  lemma AdmitOnlyAudit(db: Db, lim: Limits, s: Step)
    requires s.AdmitStep? && db.highWater <= I64_MAX
    ensures OnlyAudit(db, Effect(db, lim, s).0)
  {
    hide Reserve, AtCapacity, Tidy, RecentRows;
    var (db', r) := Admit(db, lim, s.credential, s.op, s.wall0, s.wall, s.request);
    if r.Ok? {
      AdmitOk(db, lim, s.credential, s.op, s.wall0, s.wall, s.request);
      ReserveOk(db, lim, r.value.token, s.op, Now(db, s.wall), s.request);
    }
  }

  lemma EvolvesRelease(s: Step, db: Db, p: Permit, wall: int)
    requires DbInv(db) && (s.ReleaseStep? || s.DispatchStep?) && s.permit == p
    ensures Evolves(s, db, Release(db, p, wall).0)
  {
    var (db', r) := Release(db, p, wall);
    if HasRow(db.audit, p, Reserved) && r.Ok? {
      EvolvesRow(s, db, db', p.request);
    } else {
      EvolvesQuietly(s, db, db');
    }
  }

  lemma EvolvesDispatch(s: Step, db: Db)
    requires DbInv(db) && s.DispatchStep?
    ensures Evolves(s, db, Dispatch(db, s.permit, s.wall, s.wall2, s.crash).0)
  {
    var (db', r) := DispatchChecked(db, s.permit, s.wall);
    if r.Ok? {
      EvolvesRow(s, db, db', s.permit.request);
    } else {
      EvolvesQuietly(s, db, db');
      EvolvesRelease(s, db, s.permit, s.wall2);
    }
  }

  lemma EvolvesFinish(s: Step, db: Db)
    requires DbInv(db) && s.FinishStep?
    ensures Evolves(s, db, Finish(db, s.permit, s.final, s.wall).0)
  {
    var (db', r) := Finish(db, s.permit, s.final, s.wall);
    if r.Ok? {
      EvolvesRow(s, db, db', s.permit.request);
    } else {
      EvolvesQuietly(s, db, db');
    }
  }

  lemma EvolvesMaintenance(s: Step, db: Db)
    requires DbInv(db) && s.MaintenanceStep?
    ensures Evolves(s, db, Maintenance(db, s.owner, s.wall).0)
  {
    var (db', r) := Maintenance(db, s.owner, s.wall);
    if r.Ok? {
      assert db'.audit == db.audit - Expired(db.audit, db'.highWater);
      EvolvesAudit(s, db, db');
    } else {
      EvolvesQuietly(s, db, db');
    }
  }

  lemma EvolvesOpen(s: Step, db: Db)
    requires DbInv(db) && s.Restart?
    ensures Evolves(s, db, Open(db, s.identity, s.limits).0)
  {
    hide Identifier;
    var (db', r) := Open(db, s.identity, s.limits);
    if r.Ok? { EvolvesAudit(s, db, db'); } else { EvolvesQuietly(s, db, db'); }
  }

  lemma EvolvesRevoke(s: Step, db: Db, id: string, wall: int)
    requires DbInv(db)
    ensures ClockOk(wall) ==> Evolves(s, db, Checkpoint(RevokeToken(db, id, Now(db, wall)), Now(db, wall)))
    ensures Evolves(s, db, db)
  {
    EvolvesQuietly(s, db, db);
    if ClockOk(wall) { EvolvesTokens(s, db, Checkpoint(RevokeToken(db, id, Now(db, wall)), Now(db, wall))); }
  }

  lemma EvolvesRotate(s: Step, db: Db)
    requires DbInv(db) && s.RotateStep?
    ensures Evolves(s, db, Rotate(db, s.owner, s.generation, s.wall).0)
  {
    EvolvesTokens(s, db, Rotate(db, s.owner, s.generation, s.wall).0);
  }

  lemma EvolvesReview(s: Step, db: Db)
    requires DbInv(db) && s.ReviewStep?
    ensures Evolves(s, db, Review(db, s.owner, s.enabled, s.wall).0)
  {
    EvolvesQuietly(s, db, Review(db, s.owner, s.enabled, s.wall).0);
  }

  lemma EvolvesMint(s: Step, db: Db, lim: Limits, owner: Owner, nameOk: bool, ttl: int, endpoint: Option<Endpoint>,
                    device: Option<string>, id: string, secret: string, wall: int)
    requires DbInv(db)
    ensures Evolves(s, db, Mint(db, lim, owner, nameOk, ttl, endpoint, device, id, secret, wall).0)
  {
    EvolvesTokens(s, db, Mint(db, lim, owner, nameOk, ttl, endpoint, device, id, secret, wall).0);
  }

  lemma EvolvesGrants(s: Step, a: Db, b: Db)
    requires DbInv(a) && OnlyGrants(a, b)
    ensures Evolves(s, a, b)
  {
  }

  lemma EvolvesTwice(s: Step, a: Db, b: Db, c: Db)
    requires DbInv(a) && OnlyGrants(a, b) && Evolves(s, b, c) && c.audit == b.audit
    ensures Evolves(s, a, c)
  {
  }

  lemma EvolvesPoll(s: Step, db: Db, lim: Limits)
    requires DbInv(db) && s.PollStep?
    ensures Evolves(s, db, DevicePoll(db, lim, s.device, s.wall, s.wall2, s.id, s.secret, s.crash).0)
  {
    var (paced, answer) := PollPace(db, s.device, s.wall);
    EvolvesGrants(s, db, paced);
    if answer.None? {
      var g := paced.grants[s.device];
      EvolvesMint(s, paced, lim, Owner(paced.identity, g.approver.value), g.nameOk, g.days.value * DAY,
                  Some(Endpoint(g.key, g.nameOk, g.key !in paced.agents)), Some(s.device), s.id, s.secret, s.wall2);
      EvolvesTwice(s, db, paced, MintForGrant(paced, lim, g, s.device, s.wall2, s.id, s.secret).0);
    }
  }

  lemma EvolvesAuditStep(db: Db, lim: Limits, s: Step)
    requires DbInv(db)
    requires s.Restart? || s.AdmitStep? || s.ReleaseStep? || s.DispatchStep? || s.FinishStep? || s.MaintenanceStep?
    ensures Evolves(s, db, Effect(db, lim, s).0)
  {
    hide Evolves, Admit, Release, Dispatch, Finish, Maintenance, Open;
    match s
    case Restart(_, _) => EvolvesOpen(s, db);
    case AdmitStep(_, _, _, _, _) => EvolvesAdmit(db, lim, s);
    case ReleaseStep(permit, wall) => EvolvesRelease(s, db, permit, wall);
    case DispatchStep(_, _, _, _) => EvolvesDispatch(s, db);
    case FinishStep(_, _, _) => EvolvesFinish(s, db);
    case MaintenanceStep(_, _) => EvolvesMaintenance(s, db);
  }

  lemma EvolvesTokenStep(db: Db, lim: Limits, s: Step)
    requires DbInv(db)
    requires s.MintStep? || s.ReviewStep? || s.RotateStep?
    ensures Evolves(s, db, Effect(db, lim, s).0)
  {
    hide Evolves, Mint, Rotate, Review;
    match s
    case MintStep(owner, nameOk, ttl, endpoint, id, secret, wall) =>
      EvolvesMint(s, db, lim, owner, nameOk, ttl, endpoint, None, id, secret, wall);
    case RotateStep(_, _, _) => EvolvesRotate(s, db);
    case ReviewStep(_, _, _) => EvolvesReview(s, db);
  }

  lemma EvolvesRevokeStep(db: Db, lim: Limits, s: Step)
    requires DbInv(db)
    requires s.RevokeStep? || s.RevokeCreatedStep?
    ensures Evolves(s, db, Effect(db, lim, s).0)
  {
    hide Evolves, RevokeToken;
    EvolvesRevoke(s, db, s.id, s.wall);
  }

  /** Every step keeps the table invariant and changes tokens and audit rows only in the permitted ways. */
  lemma StepEvolves(db: Db, lim: Limits, s: Step)
    requires DbInv(db)
    ensures Evolves(s, db, Effect(db, lim, s).0)
  {
    hide Evolves, DeviceRequest, Lookup, Decide, DevicePoll, Admit, Mint;
    match s
    case RequestStep(_, _, _, _, _, _) => EvolvesGrants(s, db, Effect(db, lim, s).0);
    case LookupStep(_, _, _) => EvolvesGrants(s, db, Effect(db, lim, s).0);
    case DecideStep(_, _, _, _, _, _, _) => EvolvesGrants(s, db, Effect(db, lim, s).0);
    case PollStep(_, _, _, _, _, _) => EvolvesPoll(s, db, lim);
    case MintStep(_, _, _, _, _, _, _) => EvolvesTokenStep(db, lim, s);
    case RevokeStep(_, _, _) => EvolvesRevokeStep(db, lim, s);
    case RevokeCreatedStep(_, _, _) => EvolvesRevokeStep(db, lim, s);
    case RotateStep(_, _, _) => EvolvesTokenStep(db, lim, s);
    case ReviewStep(_, _, _) => EvolvesTokenStep(db, lim, s);
    case _ => EvolvesAuditStep(db, lim, s);
  }

  /** The table invariant holds throughout every run, and the log only grows. */
  lemma {:induction false} RunKeepsDb(w: World, steps: seq<Step>)
    requires DbInv(w.db)
    ensures DbInv(Run(w, steps).db)
    ensures w.log <= Run(w, steps).log
  {
    if steps != [] {
      var before := steps[..|steps| - 1];
      RunKeepsDb(w, before);
      StepEvolves(Run(w, before).db, Run(w, before).lim, steps[|steps| - 1]);
    }
  }
}
