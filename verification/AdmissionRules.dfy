/** Which credential is admitted to what: on the tables before the call, and kept over every run. */
module AdmissionRules {
  import opened Prelude
  import opened CredentialFormat
  import opened CredentialStore
  import opened CredentialRuns
  import opened AuditEvidence

  // ---------------------------------------------------------------- scope

  /**
   * A token bound to an endpoint reads and acknowledges that endpoint's inbox and never touches the registry;
   * a token without an endpoint has no inbox.
   */
  ghost predicate InScope(token: string, op: Operation, target: Option<string>, bindings: map<string, string>) {
    match op
    case Registry => token !in bindings && target == None
    case Inbox => token in bindings && target == Some(bindings[token])
    case Ack => token in bindings && target == Some(bindings[token])
    case Cli => target == None
  }

  ghost predicate RowsInScope(db: Db) {
    forall r :: r in db.audit ==> InScope(db.audit[r].token, db.audit[r].operation, db.audit[r].target, db.bindings)
  }

  /** The same of everything that was ever permitted. */
  ghost predicate LogInScope(log: seq<Event>, db: Db) {
    forall i :: 0 <= i < |log| && log[i].Admitted? ==>
      log[i].token in db.tokens && InScope(log[i].token, log[i].operation, log[i].target, db.bindings)
  }

  // No token that exists gains, loses or changes its endpoint.
  ghost predicate BindingsKept(a: Db, b: Db) {
    forall k :: k in a.tokens ==> (k in b.bindings <==> k in a.bindings) && (k in a.bindings ==> b.bindings[k] == a.bindings[k])
  }

  lemma MintBindings(db: Db, lim: Limits, owner: Owner, nameOk: bool, ttl: int, endpoint: Option<Endpoint>,
                     device: Option<string>, id: string, secret: string, wall: int)
    ensures BindingsKept(db, Mint(db, lim, owner, nameOk, ttl, endpoint, device, id, secret, wall).0)
  {
    MintFails(db, lim, owner, nameOk, ttl, endpoint, device, id, secret, wall);
    if Mint(db, lim, owner, nameOk, ttl, endpoint, device, id, secret, wall).1.Ok? {
      MintOk(db, lim, owner, nameOk, ttl, endpoint, device, id, secret, wall);
    }
    hide Mint;
  }

  lemma PollBindings(db: Db, lim: Limits, s: Step)
    requires s.PollStep?
    ensures BindingsKept(db, DevicePoll(db, lim, s.device, s.wall, s.wall2, s.id, s.secret, s.crash).0)
  {
    hide Mint, PollPace;
    var (paced, answer) := PollPace(db, s.device, s.wall);
    if answer.None? && !s.crash {
      var g := paced.grants[s.device];
      MintBindings(paced, lim, Owner(paced.identity, g.approver.value), g.nameOk, g.days.value * DAY,
                   Some(Endpoint(g.key, g.nameOk, g.key !in paced.agents)), Some(s.device), s.id, s.secret, s.wall2);
    }
  }

  lemma StepBindings(db: Db, lim: Limits, s: Step)
    requires db.highWater <= I64_MAX
    ensures BindingsKept(db, Effect(db, lim, s).0)
  {
    hide Admit, Lookup, Decide, DeviceRequest, Mint, DevicePoll, Release, Dispatch, Finish, Maintenance, Open, Revoke,
         RevokeCreated, Review, Rotate;
    match s
    case MintStep(owner, nameOk, ttl, endpoint, id, secret, wall) =>
      MintBindings(db, lim, owner, nameOk, ttl, endpoint, None, id, secret, wall);
    case PollStep(_, _, _, _, _, _) => PollBindings(db, lim, s);
    case AdmitStep(_, _, _, _, _) => AdmitOnlyAudit(db, lim, s);
    case _ =>
  }

  lemma TargetInScope(db: Db, id: string, op: Operation)
    requires ScopeError(db, id, op).None?
    ensures InScope(id, op, Target(db, id, op), db.bindings)
  {
  }

  /** An admission is for the operation asked for, within the scope of the token, and its row says the same as its permit. */
  lemma AdmittedInScope(db: Db, lim: Limits, s: Step)
    requires DbInv(db) && s.AdmitStep?
    ensures var (db', r) := Admit(db, lim, s.credential, s.op, s.wall0, s.wall, s.request);
            r.Ok? ==>
              && s.request in db'.audit
              && var p, row := r.value, db'.audit[s.request];
                 && p == Permit(s.request, row.token, row.generation, db.digest, s.op, row.target)
                 && row.operation == s.op && row.generation == db.generation && row.token in db.tokens
                 && InScope(row.token, row.operation, row.target, db.bindings)
  {
    hide Reserve, Tidy, AtCapacity, RecentRows, Parse;
    ClockBound(db);
    var (db', r) := Admit(db, lim, s.credential, s.op, s.wall0, s.wall, s.request);
    if r.Ok? {
      AdmitOk(db, lim, s.credential, s.op, s.wall0, s.wall, s.request);
      ReserveOk(db, lim, r.value.token, s.op, Now(db, s.wall), s.request);
      ReserveOk(db, lim, Parse(s.credential).value.0, s.op, Now(db, s.wall), s.request);
      TargetInScope(db, r.value.token, s.op);
    }
  }

  // A row that stays is about the same token and target as before.
  lemma MovedInScope(s: Step, r: RequestId, a: Row, b: Row, now: int, x: Db, y: Db)
    requires RowMoves(s, r, a, b, now) && BindingsKept(x, y) && a.token in x.tokens
    requires InScope(a.token, a.operation, a.target, x.bindings)
    ensures InScope(b.token, b.operation, b.target, y.bindings)
  {
  }

  lemma AdmitKeepsScope(db: Db, lim: Limits, s: Step, r: RequestId)
    requires DbInv(db) && s.AdmitStep? && RowsInScope(db) && r in Effect(db, lim, s).0.audit
    ensures var db' := Effect(db, lim, s).0;
            InScope(db'.audit[r].token, db'.audit[r].operation, db'.audit[r].target, db'.bindings)
  {
    AdmissionIs(db, lim, s);
    ClockBound(db);
    AdmittedInScope(db, lim, s);
    StepEvolves(db, lim, s);
    StepBindings(db, lim, s);
    hide Effect, Admit, DbInv, TokensKept, SameIdentity, RowMoves, InScope, BindingsKept;
    NamedTokens(db);
    AdmitOnlyAudit(db, lim, s);
    AdmitFails(db, lim, s);
    var db' := Effect(db, lim, s).0;
    if r != s.request && r in db.audit && RowMoves(s, r, db.audit[r], db'.audit[r], db'.highWater) {
      MovedInScope(s, r, db.audit[r], db'.audit[r], db'.highWater, db, db');
    }
  }

  lemma NamedTokens(db: Db)
    requires DbInv(db)
    ensures RowsNamed(db.audit, db.tokens)
  {
  }

  lemma AdmitFails(db: Db, lim: Limits, s: Step)
    requires s.AdmitStep?
    ensures Admit(db, lim, s.credential, s.op, s.wall0, s.wall, s.request).1.Err? ==> Effect(db, lim, s).0 == db
  {
    hide Admit;
  }

  lemma StepKeepsScope(db: Db, lim: Limits, s: Step)
    requires DbInv(db) && RowsInScope(db)
    ensures RowsInScope(Effect(db, lim, s).0)
  {
    var db' := Effect(db, lim, s).0;
    forall r | r in db'.audit
      ensures InScope(db'.audit[r].token, db'.audit[r].operation, db'.audit[r].target, db'.bindings)
    {
      if s.AdmitStep? { AdmitKeepsScope(db, lim, s, r); } else { OtherKeepsScope(db, lim, s, r); }
    }
  }

  lemma OtherKeepsScope(db: Db, lim: Limits, s: Step, r: RequestId)
    requires DbInv(db) && !s.AdmitStep? && RowsInScope(db) && r in Effect(db, lim, s).0.audit
    ensures var db' := Effect(db, lim, s).0;
            InScope(db'.audit[r].token, db'.audit[r].operation, db'.audit[r].target, db'.bindings)
  {
    hide Effect, DbInv, TokensKept, SameIdentity, RowMoves, InScope, BindingsKept;
    ClockBound(db);
    StepEvolves(db, lim, s);
    StepBindings(db, lim, s);
    NamedTokens(db);
    var db' := Effect(db, lim, s).0;
    MovedInScope(s, r, db.audit[r], db'.audit[r], db'.highWater, db, db');
  }

  lemma EventInScope(db: Db, lim: Limits, s: Step)
    requires DbInv(db)
    ensures var (db', e) := Effect(db, lim, s);
            e.Some? && e.value.Admitted? ==>
              e.value.token in db.tokens && InScope(e.value.token, e.value.operation, e.value.target, db.bindings)
  {
    if s.AdmitStep? {
      hide Effect, Admit, InScope, DbInv;
      AdmissionIs(db, lim, s);
      AdmittedInScope(db, lim, s);
    }
  }

  lemma LogGrows(a: Db, b: Db, log: seq<Event>, e: Option<Event>)
    requires LogInScope(log, a) && BindingsKept(a, b) && TokensKept(a.tokens, b.tokens)
    requires e.Some? && e.value.Admitted? ==>
               e.value.token in a.tokens && InScope(e.value.token, e.value.operation, e.value.target, a.bindings)
    ensures LogInScope(Record(log, e), b)
  {
    var grown := Record(log, e);
    forall i | 0 <= i < |grown| && grown[i].Admitted?
      ensures grown[i].token in b.tokens && InScope(grown[i].token, grown[i].operation, grown[i].target, b.bindings)
    {
      assert i < |log| ==> grown[i] == log[i];
    }
  }

  /**
   * Over any run from a new store, every row and every permit ever handed out was within the scope of its token:
   * no endpoint token was let into the registry, and no token into an inbox that is not its endpoint's.
   */
  lemma {:induction false} ScopesHold(w: World, steps: seq<Step>)
    requires Fresh(w)
    ensures RowsInScope(Run(w, steps).db) && LogInScope(Run(w, steps).log, Run(w, steps).db)
  {
    if steps != [] {
      var before, s := steps[..|steps| - 1], steps[|steps| - 1];
      var v := Run(w, before);
      ScopesHold(w, before);
      RunKeepsDb(w, before);
      StepKeepsScope(v.db, v.lim, s);
      EventInScope(v.db, v.lim, s);
      StepEvolves(v.db, v.lim, s);
      ClockBound(v.db);
      StepBindings(v.db, v.lim, s);
      hide Effect, DbInv, RowsInScope, LogInScope, BindingsKept, InScope, TokensKept;
      LogGrows(v.db, Effect(v.db, v.lim, s).0, v.log, Effect(v.db, v.lim, s).1);
    }
  }

  // ---------------------------------------------------------------- who is admitted

  ghost predicate LowerHex(v: string, n: nat) {
    |v| == n && forall c :: c in v ==> 48 <= c as int <= 57 || 97 <= c as int <= 102
  }

  lemma HexIs(v: string, n: nat)
    ensures Hex(v, n) <==> LowerHex(v, n)
  {
    if LowerHex(v, n) {
      forall i | 0 <= i < |v| ensures HexDigit(v[i]) {
        assert v[i] in v;
      }
    }
  }

  /** The text names a token of this store and carries its secret. */
  ghost predicate Genuine(db: Db, credential: string, id: string, secret: string) {
    && LowerHex(id, 32) && LowerHex(secret, 64) && credential == "ext1_" + id + "." + secret
    && id in db.tokens && db.tokens[id].verifier == Verifier(db.digest, db.generation, id, secret)
  }

  /** It is of this generation, was not revoked, and expires after `now`. */
  ghost predicate InForce(db: Db, id: string, now: int) {
    && id in db.tokens
    && db.tokens[id].generation == db.generation && db.tokens[id].revokedAt == None && now < db.tokens[id].expires
  }

  /** What the token may be used for. */
  ghost predicate Allowed(db: Db, id: string, op: Operation) {
    if id in db.bindings then
      op != Registry && db.bindings[id] in db.agents && db.agents[db.bindings[id]].enabled
    else op == Registry || op == Cli
  }

  /** The rows that are left when the admission has made room. */
  ghost function Remaining(audit: Audit, token: string, now: int, lim: Limits): set<RequestId> {
    set r | r in audit && !Deleted(audit, token, now, lim, r)
  }

  // Still in flight: dispatched, or reserved less than 30 seconds ago.
  ghost predicate Busy(row: Row, now: int) {
    row.outcome == Dispatched || (row.outcome == Reserved && row.started > now - 30)
  }

  /** Room for one more row: in the table, of the token, in flight, in flight of the token, and in its last minute. */
  ghost predicate Room(audit: Audit, token: string, now: int, lim: Limits) {
    var rows := Remaining(audit, token, now, lim);
    && |rows| < lim.auditRows
    && |set r | r in rows && audit[r].token == token| < lim.auditPerToken
    && |set r | r in rows && Busy(audit[r], now)| < lim.concurrent
    && |set r | r in rows && audit[r].token == token && Busy(audit[r], now)| < lim.concurrentPerToken
    && |set r | r in rows && audit[r].token == token && audit[r].started > now - 60| < 60
  }

  ghost predicate Time(wall: int) {
    0 <= wall < 0x8000_0000_0000_0000
  }

  // A row that is left differs from the one before at most by having been released.
  lemma TidyRow(audit: Audit, token: string, now: int, lim: Limits, r: RequestId)
    ensures var b := Tidy(audit, token, now, lim);
            && (r in b <==> r in Remaining(audit, token, now, lim))
            && (r in b ==> r in audit && b[r].token == audit[r].token && b[r].started == audit[r].started &&
                           (b[r].InFlight() <==> Busy(audit[r], now)))
  {
    hide Tidy, Deleted;
    TidyKeeps(audit, token, now, lim);
    if r in audit { DeletedExactly(audit, token, now, lim, r); }
  }

  lemma TidyRows(audit: Audit, token: string, now: int, lim: Limits)
    ensures var b := Tidy(audit, token, now, lim);
            && b.Keys == Remaining(audit, token, now, lim)
            && forall r :: r in b ==> r in audit && b[r].token == audit[r].token && b[r].started == audit[r].started &&
                                      (b[r].InFlight() <==> Busy(audit[r], now))
  {
    hide Tidy, Remaining, Busy;
    var b := Tidy(audit, token, now, lim);
    forall r ensures r in b <==> r in Remaining(audit, token, now, lim) { TidyRow(audit, token, now, lim, r); }
    forall r | r in b
      ensures r in audit && b[r].token == audit[r].token && b[r].started == audit[r].started &&
              (b[r].InFlight() <==> Busy(audit[r], now))
    {
      TidyRow(audit, token, now, lim, r);
    }
  }

  lemma RoomExactly(audit: Audit, token: string, now: int, lim: Limits)
    ensures var b := Tidy(audit, token, now, lim);
            Room(audit, token, now, lim) <==> !AtCapacity(b, token, lim) && |RecentRows(b, token, now - 60)| < 60
  {
    TidyRows(audit, token, now, lim);
    var b := Tidy(audit, token, now, lim);
    hide Tidy, Remaining, Busy;
    var rows := Remaining(audit, token, now, lim);
    assert |b| == |b.Keys|;
    assert RowsOf(b, token) == set r | r in rows && audit[r].token == token;
    assert ActiveRows(b) == set r | r in rows && Busy(audit[r], now);
    assert ActiveRowsOf(b, token) == set r | r in rows && audit[r].token == token && Busy(audit[r], now);
    assert RecentRows(b, token, now - 60) == set r | r in rows && audit[r].token == token && audit[r].started > now - 60;
  }

  ghost predicate Admissible(db: Db, lim: Limits, id: string, op: Operation, wall0: int, wall: int, request: RequestId) {
    var now := Now(db, wall);
    && db.reviewed && Time(wall0) && Time(wall)
    && InForce(db, id, Now(db, wall0)) && InForce(db, id, now)
    && Allowed(db, id, op)
    && Room(db.audit, id, now, lim) && request !in Remaining(db.audit, id, now, lim)
  }

  lemma GenuineExactly(db: Db, credential: string, id: string, secret: string, now: int)
    ensures Parse(credential) == Some((id, secret)) && CredentialOk(db, id, secret, now) <==>
            Genuine(db, credential, id, secret) && InForce(db, id, now)
  {
    ParseInvertsFormat(credential, id, secret);
    HexIs(id, 32);
    HexIs(secret, 64);
    hide Parse, Hex, LowerHex;
  }

  lemma AllowedExactly(db: Db, id: string, op: Operation)
    ensures ScopeError(db, id, op).None? <==> Allowed(db, id, op)
  {
  }

  lemma ReserveExactly(db: Db, lim: Limits, id: string, op: Operation, now: int, request: RequestId)
    ensures Reserve(db, lim, id, op, now, request).1.Ok? <==>
            Room(db.audit, id, now, lim) && request !in Remaining(db.audit, id, now, lim)
  {
    RoomExactly(db.audit, id, now, lim);
    TidyRows(db.audit, id, now, lim);
    hide Tidy, AtCapacity, RecentRows, Room, Remaining, Busy;
  }

  lemma ChecksExactly(db: Db, credential: string, op: Operation, wall0: int, wall: int, id: string, secret: string)
    ensures Parse(credential) == Some((id, secret)) && AdmitError(db, credential, op, wall0, wall).None? <==>
            && Genuine(db, credential, id, secret) && db.reviewed && Time(wall0) && Time(wall)
            && InForce(db, id, Now(db, wall0)) && InForce(db, id, Now(db, wall)) && Allowed(db, id, op)
  {
    GenuineExactly(db, credential, id, secret, Now(db, wall0));
    GenuineExactly(db, credential, id, secret, Now(db, wall));
    AllowedExactly(db, id, op);
    hide Parse, CredentialOk, Genuine, ScopeError, Allowed;
  }

  /**
   * When a credential is admitted, on the tables before the call: exactly if the API is on, the text is genuine and in
   * force at both readings of the clock, the operation is within its scope, and there is room.
   */
  lemma AdmittedExactly(db: Db, lim: Limits, credential: string, op: Operation, wall0: int, wall: int, request: RequestId)
    ensures var r := Admit(db, lim, credential, op, wall0, wall, request).1;
            && (r.Ok? <==> exists id, secret :: Genuine(db, credential, id, secret) &&
                                               Admissible(db, lim, id, op, wall0, wall, request))
            && (r == Err(Disabled) <==> !db.reviewed)
  {
    hide Genuine, Admissible, Reserve, Parse;
    var r := Admit(db, lim, credential, op, wall0, wall, request).1;
    if Parse(credential).Some? {
      var (id, secret) := Parse(credential).value;
      AdmittedOne(db, lim, credential, op, wall0, wall, request, id, secret);
    }
    forall id, secret | Genuine(db, credential, id, secret) && Admissible(db, lim, id, op, wall0, wall, request) ensures r.Ok? {
      AdmittedOne(db, lim, credential, op, wall0, wall, request, id, secret);
    }
    DisabledExactly(db, lim, credential, op, wall0, wall, request);
  }

  lemma AdmittedOne(db: Db, lim: Limits, credential: string, op: Operation, wall0: int, wall: int, request: RequestId,
                    id: string, secret: string)
    ensures Parse(credential) == Some((id, secret)) && Admit(db, lim, credential, op, wall0, wall, request).1.Ok? <==>
            Genuine(db, credential, id, secret) && Admissible(db, lim, id, op, wall0, wall, request)
  {
    ChecksExactly(db, credential, op, wall0, wall, id, secret);
    ReserveExactly(db, lim, id, op, Now(db, wall), request);
    GenuineToken(db, credential, id, secret);
    hide Genuine, AdmitError, Parse, Reserve, InForce, Allowed, Room, Remaining;
  }

  lemma GenuineToken(db: Db, credential: string, id: string, secret: string)
    ensures Genuine(db, credential, id, secret) ==> id in db.tokens
  {
  }

  lemma DisabledExactly(db: Db, lim: Limits, credential: string, op: Operation, wall0: int, wall: int, request: RequestId)
    ensures Admit(db, lim, credential, op, wall0, wall, request).1 == Err(Disabled) <==> !db.reviewed
  {
    hide Parse, CredentialOk, Tidy, AtCapacity, RecentRows;
  }

  // ---------------------------------------------------------------- and why one is refused

  /** With the API on and a sane clock, a text that is not a token in force is denied, whatever it asks for. */
  lemma StrangerDenied(db: Db, lim: Limits, credential: string, op: Operation, wall0: int, wall: int, request: RequestId)
    requires db.reviewed && Time(wall0)
    requires forall id, secret :: Genuine(db, credential, id, secret) ==> !InForce(db, id, Now(db, wall0))
    ensures Admit(db, lim, credential, op, wall0, wall, request).1 == Err(Denied)
  {
    hide Genuine, InForce, Reserve, Parse, CredentialOk;
    if Parse(credential).Some? {
      var (id, secret) := Parse(credential).value;
      GenuineExactly(db, credential, id, secret, Now(db, wall0));
    }
  }

  /** A token in force is refused by its scope, then by the second reading of the clock, then for lack of room. */
  lemma HolderRefused(db: Db, lim: Limits, credential: string, op: Operation, wall0: int, wall: int, request: RequestId,
                      id: string, secret: string)
    requires db.reviewed && Time(wall0) && Time(wall) && Genuine(db, credential, id, secret) && InForce(db, id, Now(db, wall0))
    ensures var r := Admit(db, lim, credential, op, wall0, wall, request).1;
            && (id in db.bindings && op == Registry && db.bindings[id] in db.agents ==> r == Err(Denied))
            && (id !in db.bindings && (op == Inbox || op == Ack) ==> r == Err(Invalid))
            && (Allowed(db, id, op) && !InForce(db, id, Now(db, wall)) ==> r == Err(Denied))
            && (Allowed(db, id, op) && InForce(db, id, Now(db, wall)) && !Room(db.audit, id, Now(db, wall), lim) ==>
                  r == Err(Capacity))
  {
    GenuineExactly(db, credential, id, secret, Now(db, wall0));
    GenuineExactly(db, credential, id, secret, Now(db, wall));
    AllowedExactly(db, id, op);
    RoomExactly(db.audit, id, Now(db, wall), lim);
    hide Genuine, InForce, Parse, CredentialOk, Room, Tidy, AtCapacity, RecentRows;
  }
}
