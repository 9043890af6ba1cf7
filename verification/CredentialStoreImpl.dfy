/**
 * The credential store as the program runs it: one object whose methods read the tables, return
 * early on refusal, and write the tables only when the transaction commits. It carries its history,
 * every public method is one step of a run, and every step keeps what `StoreInvariant` promises.
 */
module CredentialStoreImpl {
  import opened Prelude
  import opened CredentialFormat
  import opened CredentialStore
  import opened CredentialRuns
  import opened Containment
  import opened StoreInvariant
  import opened AdmissionRules
  import DeviceGrants

  lemma OldestUnique(audit: map<RequestId, Row>, rows: set<RequestId>, k: nat, first: RequestId)
    requires rows <= audit.Keys && IsOldest(audit, rows, first) && k > 0
    ensures Oldest(audit, rows, k) == {first} + Oldest(audit, rows - {first}, k - 1)
  {
  }

  method FindOldest(audit: map<RequestId, Row>, rows: set<RequestId>) returns (first: RequestId)
    requires rows <= audit.Keys && rows != {}
    ensures IsOldest(audit, rows, first)
  {
    first :| first in rows;
    var left := rows - {first};
    while left != {}
      invariant left <= rows && first in rows
      invariant forall x :: x in rows && x !in left ==> NotAfter(audit, first, x)
      decreases left
    {
      var r :| r in left;
      if NotAfter(audit, r, first) { first := r; }
      left := left - {r};
    }
  }

  /** `SELECT request ... ORDER BY started,request LIMIT k` over the candidate rows. */
  method SelectOldest(audit: map<RequestId, Row>, rows: set<RequestId>, k: nat) returns (picked: set<RequestId>)
    requires rows <= audit.Keys
    ensures picked == Oldest(audit, rows, k)
  {
    hide Oldest, IsOldest;
    picked := {};
    var rest, left := rows, k;
    while left > 0 && rest != {}
      invariant rest <= rows
      invariant picked + Oldest(audit, rest, left) == Oldest(audit, rows, k)
      decreases left
    {
      var first := FindOldest(audit, rest);
      OldestUnique(audit, rest, left, first);
      picked, rest, left := picked + {first}, rest - {first}, left - 1;
    }
    assert Oldest(audit, rest, left) == {};
  }

  method FindUserGrant(grants: map<string, Grant>, user: string, now: int, generation: string)
    returns (found: Option<string>)
    ensures found.Some? ==> found.value in grants && OpenTo(grants[found.value], user, now, generation)
    ensures found.None? ==> forall d :: d in grants ==> !OpenTo(grants[d], user, now, generation)
  {
    var left := grants.Keys;
    while left != {}
      invariant left <= grants.Keys
      invariant forall d :: d in grants && d !in left ==> !OpenTo(grants[d], user, now, generation)
      decreases left
    {
      var d :| d in left;
      if OpenTo(grants[d], user, now, generation) { return Some(d); }
      left := left - {d};
    }
    return None;
  }

  // The schema's UNIQUE index on user codes.
  ghost predicate UsersUnique(grants: map<string, Grant>) {
    forall d, e :: d in grants && e in grants && d != e ==> grants[d].user != grants[e].user
  }

  lemma SameUserUnique(grants: map<string, Grant>, d: string, g: Grant)
    requires UsersUnique(grants) && d in grants && g.user == grants[d].user
    ensures UsersUnique(grants[d := g])
  {
  }

  lemma NewUserUnique(grants: map<string, Grant>, gone: set<string>, d: string, g: Grant)
    requires UsersUnique(grants) && forall e :: e in grants - gone ==> grants[e].user != g.user
    ensures UsersUnique((grants - gone)[d := g])
  {
  }

  lemma UserGrantUnique(db: Db, user: string, now: int, d: string)
    requires UsersUnique(db.grants)
    requires d in db.grants && OpenTo(db.grants[d], user, now, db.generation)
    ensures UserHasGrant(db, user, now) && UserGrant(db, user, now) == d
  {
  }

  // Codes that a request leaves in the table differ from its own.
  lemma RequestedIsNew(db: Db, key: string, nameOk: bool, ttl: int, device: string, user: string, wall: int)
    requires RequestError(db, key, nameOk, ttl, device, user, wall).None?
    ensures forall d :: d in db.grants - OldGrants(db, Now(db, wall)) ==> db.grants[d].user != user
  {
    hide ExternalKey, OldGrants, OpenGrants;
  }

  /** The permit is this store's, the clock is sane, and the request was dispatched and has no result yet. */
  predicate Finishable(db: Db, p: Permit, wall: int) {
    p.binding == db.digest && ClockOk(wall) && HasRow(db.audit, p, Dispatched)
  }

  class Store {
    const identity: Binding
    const digest: string
    var limits: Limits
    var generation: string
    var reviewed: bool
    var highWater: int
    var tokens: map<string, Token>
    var audit: map<RequestId, Row>
    var agents: map<string, Agent>
    var bindings: map<string, string>
    var grants: map<string, Grant>
    var budget: Option<Budget>
    ghost var log: seq<Event>

    function Snapshot(): Db
      reads this
    {
      Db(identity, digest, generation, reviewed, highWater, tokens, audit, agents, bindings, grants, budget)
    }

    /** The tables, the limits, and the history that led to them. */
    ghost function State(): World
      reads this
    {
      World(Snapshot(), limits, log)
    }

    ghost predicate Valid()
      reads this
    {
      Inv(State()) && UsersUnique(grants)
    }

    /** A store file that did not exist before. */
    constructor (identity: Binding, digest: string, generation: string, limits: Limits)
      requires limits.Valid()
      ensures Valid() && this.limits == limits
      ensures Snapshot() == Db(identity, digest, generation, false, 0, map[], map[], map[], map[], map[], None)
      ensures Fresh(State())
    {
      this.identity, this.digest, this.limits := identity, digest, limits;
      this.generation, reviewed, highWater := generation, false, 0;
      tokens, audit, agents, bindings, grants, budget := map[], map[], map[], map[], map[], None;
      log := [];
      new;
      FreshInv(State());
    }

    /** Restart: every row is kept, and none is in flight any more; a refused restart changes nothing. */
    method Reopen(identity: Binding, limits: Limits) returns (r: Result<(), Error>)
      requires Valid()
      modifies this`audit, this`limits
      ensures Valid() && State() == Apply(old(State()), Restart(identity, limits))
      ensures r == Open(old(Snapshot()), identity, limits).1
      ensures r.Ok? ==> audit.Keys == old(audit).Keys && ActiveRows(audit) == {}
      ensures r.Ok? ==> forall x :: x in audit && !old(audit)[x].InFlight() ==> audit[x] == old(audit)[x]
      ensures r.Err? ==> State() == old(State())
    {
      hide OnlyAudit, OnlyTokens, OnlyGrants, Inv, Apply, UsersUnique, Open, LostResults, ActiveRows;
      ApplyKeeps(State(), Restart(identity, limits));
      RestartIs(State(), identity, limits);
      r := ReopenRows(identity, limits);
    }

    method ReopenRows(identity: Binding, limits: Limits) returns (r: Result<(), Error>)
      modifies this`audit, this`limits
      ensures (Snapshot(), r) == Open(old(Snapshot()), identity, limits)
      ensures this.limits == if r.Ok? then limits else old(this.limits)
    {
      hide Identifier, LostResults;
      if !limits.Valid() { return Err(Invalid); }
      if !Identifier(identity.workspace) || !Identifier(identity.app) || !Identifier(identity.agent) {
        return Err(Invalid);
      }
      if identity != this.identity { return Err(PrivateStorage); }
      audit := LostResults(audit);
      this.limits := limits;
      return Ok(());
    }

    method EndpointRefusal(e: Endpoint) returns (refusal: Option<Error>)
      ensures refusal == EndpointError(Snapshot(), e)
    {
      if !ExternalKey(e.key) || !e.nameOk { return Some(Invalid); }
      if e.register {
        if |agents| >= 100 { return Some(Capacity); }
        if e.key in agents { return Some(Invalid); }
      } else if e.key !in agents || !agents[e.key].enabled {
        return Some(Invalid);
      }
      return None;
    }

    method MintRefusal(owner: Owner, nameOk: bool, ttl: int, endpoint: Option<Endpoint>, device: Option<string>,
                       id: string, wall: int) returns (refusal: Option<Error>)
      ensures refusal == MintError(Snapshot(), limits, owner, nameOk, ttl, endpoint, device, id, wall)
    {
      if !OwnerOk(Snapshot(), owner) { return Some(Denied); }
      if !nameOk || ttl < 1 || ttl > 90 * DAY { return Some(Invalid); }
      if !ClockOk(wall) { return Some(Invalid); }
      var now := Max(wall, highWater);
      if |LiveTokens(Snapshot(), now)| >= limits.liveTokens || |tokens| >= limits.tokenRecords {
        return Some(Capacity);
      }
      if device.Some? && (device.value !in grants || !Mintable(grants[device.value], now, generation)) {
        return Some(Denied);
      }
      if now + ttl > I64_MAX { return Some(Invalid); }
      if id in tokens { return Some(Storage); }
      if endpoint.Some? { refusal := EndpointRefusal(endpoint.value); } else { refusal := None; }
    }

    /** Mint a token, register and bind its endpoint, and claim its grant, or change nothing. */
    method CreateScopedClaim(owner: Owner, nameOk: bool, ttl: int, endpoint: Option<Endpoint>, device: Option<string>,
                             id: string, secret: string, wall: int) returns (r: Result<string, Error>)
      requires UsersUnique(grants)
      modifies this`tokens, this`agents, this`bindings, this`grants, this`highWater
      ensures (Snapshot(), r) ==
              Mint(old(Snapshot()), limits, owner, nameOk, ttl, endpoint, device, id, secret, wall)
      ensures UsersUnique(grants)
    {
      hide UsersUnique;
      var refusal := MintRefusal(owner, nameOk, ttl, endpoint, device, id, wall);
      if refusal.Some? { return Err(refusal.value); }
      assert device.Some? ==> device.value in grants;
      hide MintError;
      var now := Max(wall, highWater);
      if device.Some? {
        var claimed := grants[device.value].(status := Claimed, token := Some(id));
        SameUserUnique(grants, device.value, claimed);
        grants := grants[device.value := claimed];
      }
      var verifier := Verifier(digest, generation, id, secret);
      tokens := tokens[id := Token(verifier, generation, now, now + ttl, owner.subject, None)];
      if endpoint.Some? {
        if endpoint.value.register { agents := agents[endpoint.value.key := Agent(true, now)]; }
        bindings := bindings[id := endpoint.value.key];
      }
      highWater := Max(highWater, now);
      return Ok(Format(id, secret));
    }

    /** `create_scoped`: the text handed out parses back to the id and secret that were drawn. */
    method CreateToken(owner: Owner, nameOk: bool, ttl: int, endpoint: Option<Endpoint>, id: string, secret: string, wall: int)
      returns (r: Result<string, Error>)
      requires Valid() && Hex(id, 32) && Hex(secret, 64)
      modifies this`tokens, this`agents, this`bindings, this`grants, this`highWater
      ensures Valid() && State() == Apply(old(State()), MintStep(owner, nameOk, ttl, endpoint, id, secret, wall))
      ensures r == Mint(old(Snapshot()), limits, owner, nameOk, ttl, endpoint, None, id, secret, wall).1
      ensures r.Ok? ==> Parse(r.value) == Some((id, secret)) && id in tokens && id !in old(tokens)
      ensures r.Err? ==> State() == old(State())
    {
      hide OnlyAudit, OnlyTokens, OnlyGrants, Inv, UsersUnique, MintError, Format, Parse;
      ApplyKeeps(State(), MintStep(owner, nameOk, ttl, endpoint, id, secret, wall));
      ParseInvertsFormat(Format(id, secret), id, secret);
      MintFresh(Snapshot(), limits, owner, nameOk, ttl, endpoint, id, secret, wall);
      r := CreateScopedClaim(owner, nameOk, ttl, endpoint, None, id, secret, wall);
    }

    /** After a revocation the token is dead, whether or not it was before. */
    method RevokeById(owner: Owner, id: string, wall: int) returns (r: Result<(), Error>)
      requires Valid()
      modifies this`tokens, this`highWater
      ensures Valid() && State() == Apply(old(State()), RevokeStep(owner, id, wall))
      ensures r == Revoke(old(Snapshot()), owner, id, wall).1
      ensures r.Ok? && id in tokens ==> Dead(Snapshot(), id)
      ensures r.Err? ==> State() == old(State())
    {
      hide OnlyAudit, OnlyTokens, OnlyGrants, Inv, OwnerOk, Hex, UsersUnique;
      ApplyKeeps(State(), RevokeStep(owner, id, wall));
      if !OwnerOk(Snapshot(), owner) { return Err(Denied); }
      if !Hex(id, 32) || !ClockOk(wall) { return Err(Invalid); }
      var now := Max(wall, highWater);
      if id in tokens && tokens[id].revokedAt.None? {
        tokens := tokens[id := tokens[id].(revokedAt := Some(now))];
      }
      highWater := Max(highWater, now);
      return Ok(());
    }

    /** A registry token revokes only what it created itself, and then the endpoint's token is dead. */
    method RevokeCreatedExternal(permit: Permit, id: string, wall: int) returns (r: Result<(), Error>)
      requires Valid()
      modifies this`tokens, this`highWater
      ensures Valid() && State() == Apply(old(State()), RevokeCreatedStep(permit, id, wall))
      ensures r == RevokeCreated(old(Snapshot()), permit, id, wall).1
      ensures r.Ok? ==> Dead(Snapshot(), id) && id in bindings && tokens[id].creator == permit.token
      ensures r.Err? ==> State() == old(State())
    {
      hide OnlyAudit, OnlyTokens, OnlyGrants, Inv, Hex, UsersUnique;
      ApplyKeeps(State(), RevokeCreatedStep(permit, id, wall));
      if permit.binding != digest || !permit.operation.Registry? || !Hex(id, 32) { return Err(Denied); }
      if !ClockOk(wall) { return Err(Invalid); }
      var now := Max(wall, highWater);
      var allowed := id in tokens && id in bindings && tokens[id].creator == permit.token &&
                     tokens[id].generation == generation && permit.token !in bindings;
      if !allowed || generation != permit.generation { return Err(Denied); }
      if tokens[id].revokedAt.None? {
        tokens := tokens[id := tokens[id].(revokedAt := Some(now))];
      }
      highWater := Max(highWater, now);
      return Ok(());
    }

    /** Once the API is off, every admission is refused as disabled. */
    method PolicyReviewed(owner: Owner, enabled: bool, wall: int) returns (r: Result<(), Error>)
      requires Valid()
      modifies this`reviewed, this`highWater
      ensures Valid() && State() == Apply(old(State()), ReviewStep(owner, enabled, wall))
      ensures r == Review(old(Snapshot()), owner, enabled, wall).1
      ensures r.Ok? && !enabled ==> forall credential, op, wall0, wall1 ::
                AdmitError(Snapshot(), credential, op, wall0, wall1) == Some(Disabled)
      ensures r.Err? ==> State() == old(State())
    {
      hide OnlyAudit, OnlyTokens, OnlyGrants, Inv, OwnerOk, UsersUnique;
      ApplyKeeps(State(), ReviewStep(owner, enabled, wall));
      if !OwnerOk(Snapshot(), owner) { return Err(Denied); }
      if !ClockOk(wall) { return Err(Invalid); }
      reviewed, highWater := enabled, Max(highWater, Max(wall, highWater));
      return Ok(());
    }

    /** After a rotation every token there is is dead, and the API is off. */
    method RotateAfterRestore(owner: Owner, drawn: string, wall: int) returns (r: Result<(), Error>)
      requires Valid()
      modifies this`generation, this`reviewed, this`tokens, this`highWater
      ensures Valid() && State() == Apply(old(State()), RotateStep(owner, drawn, wall))
      ensures r == Rotate(old(Snapshot()), owner, drawn, wall).1
      ensures r.Ok? ==> !reviewed && tokens.Keys == old(tokens).Keys && forall id :: id in tokens ==> Dead(Snapshot(), id)
      ensures r.Err? ==> State() == old(State())
    {
      hide OnlyAudit, OnlyTokens, OnlyGrants, Inv, OwnerOk, UsersUnique;
      ApplyKeeps(State(), RotateStep(owner, drawn, wall));
      if !OwnerOk(Snapshot(), owner) { return Err(Denied); }
      if !ClockOk(wall) { return Err(Invalid); }
      var now := Max(wall, highWater);
      generation, reviewed := drawn, false;
      tokens := RevokeAll(tokens, now);
      highWater := Max(highWater, now);
      return Ok(());
    }

    /** Admission: check the credential twice, tidy the audit rows, count, and reserve. */
    method AdmitFrom(credential: string, op: Operation, wall0: int, wall: int, request: RequestId)
      returns (r: Result<Permit, Error>)
      requires Valid()
      modifies this`audit, this`highWater, this`log
      ensures Valid() && State() == Apply(old(State()), AdmitStep(credential, op, wall0, wall, request))
      ensures r == Admit(old(Snapshot()), limits, credential, op, wall0, wall, request).1
      ensures r.Ok? <==> exists id, secret :: Genuine(old(Snapshot()), credential, id, secret) &&
                                             Admissible(old(Snapshot()), limits, id, op, wall0, wall, request)
      ensures r.Ok? ==> HasRow(audit, r.value, Reserved) && !Dead(Snapshot(), r.value.token)
      ensures r.Ok? ==> r.value.operation == op && InScope(r.value.token, op, r.value.target, bindings)
      ensures r.Err? ==> State() == old(State())
    {
      hide Genuine, Admissible, InScope, OnlyAudit, OnlyTokens, OnlyGrants, Inv, Effect, Apply, Admit, UsersUnique, Dead, HasRow,
           AdmitError, Parse, Reserve;
      ghost var w, s := State(), AdmitStep(credential, op, wall0, wall, request);
      ApplyKeeps(w, s);
      InvClock(w);
      AdmittedRow(w.db, w.lim, s);
      AdmittedInScope(w.db, w.lim, s);
      AdmittedExactly(w.db, w.lim, credential, op, wall0, wall, request);
      AdmitIs(w, s);
      r := AdmitRow(credential, op, wall0, wall, request);
      if r.Err? { return; }
      log := Record(log, Effect(w.db, w.lim, s).1);
    }

    method AdmitRow(credential: string, op: Operation, wall0: int, wall: int, request: RequestId)
      returns (r: Result<Permit, Error>)
      modifies this`audit, this`highWater
      ensures (Snapshot(), r) == Admit(old(Snapshot()), limits, credential, op, wall0, wall, request)
    {
      AdmitParts(Snapshot(), limits, credential, op, wall0, wall, request);
      hide Admit, AdmitError, Parse, Reserve;
      var e := AdmitRefusal(credential, op, wall0, wall);
      if e.Some? { return Err(e.value); }
      var id := Parse(credential).value.0;
      r := ReserveRow(id, op, Target(Snapshot(), id, op), Max(wall, highWater), request);
    }

    // The checks of an admission before the counts.
    method AdmitRefusal(credential: string, op: Operation, wall0: int, wall: int) returns (e: Option<Error>)
      ensures e == AdmitError(Snapshot(), credential, op, wall0, wall)
    {
      hide Parse, CredentialOk;
      if !reviewed { return Some(Disabled); }
      var parsed := Parse(credential);
      if parsed.None? { return Some(Denied); }
      var (id, secret) := parsed.value;
      if !ClockOk(wall0) { return Some(Invalid); }
      if !CredentialOk(Snapshot(), id, secret, Max(wall0, highWater)) { return Some(Denied); }
      if id in bindings {
        if bindings[id] !in agents { return Some(Storage); }
        if !agents[bindings[id]].enabled || op.Registry? { return Some(Denied); }
      } else if op.Inbox? || op.Ack? {
        return Some(Invalid);
      }
      if !ClockOk(wall) { return Some(Invalid); }
      if !CredentialOk(Snapshot(), id, secret, Max(wall, highWater)) { return Some(Denied); }
      return None;
    }

    method ReserveRow(id: string, op: Operation, target: Option<string>, now: int, request: RequestId)
      returns (r: Result<Permit, Error>)
      requires target == Target(Snapshot(), id, op) && now >= highWater
      modifies this`audit, this`highWater
      ensures (Snapshot(), r) == Reserve(old(Snapshot()), limits, id, op, now, request)
    {
      var rows := ReleaseStale(audit, now);
      var own := SelectOldest(rows, PrunableOf(rows, id, now), Excess(|RowsOf(rows, id)|, limits.auditPerToken));
      rows := rows - own;
      var excess := SelectOldest(rows, Prunable(rows, now), Excess(|rows|, limits.auditRows));
      rows := rows - excess;
      assert rows == Tidy(audit, id, now, limits);
      if AtCapacity(rows, id, limits) { return Err(Capacity); }
      if |RecentRows(rows, id, now - 60)| >= RATE { return Err(Capacity); }
      if request in rows { return Err(Storage); }
      audit := rows[request := Row(id, generation, op, target, now, None, Reserved)];
      highWater := Max(highWater, now);
      return Ok(Permit(request, id, generation, digest, op, target));
    }

    method ReleaseRow(p: Permit, wall: int) returns (r: Result<(), Error>)
      modifies this`audit, this`highWater
      ensures (Snapshot(), r) == Release(old(Snapshot()), p, wall)
    {
      if p.binding != digest { return Err(Denied); }
      if !ClockOk(wall) { return Err(Invalid); }
      var now := Max(wall, highWater);
      if HasRow(audit, p, Reserved) {
        audit := audit[p.request := audit[p.request].(outcome := Unavailable, ended := Some(now))];
      }
      highWater := Max(highWater, now);
      return Ok(());
    }

    /** A released permit holds no slot, and its row is kept. */
    method ReleasePermit(p: Permit, wall: int) returns (r: Result<(), Error>)
      requires Valid()
      modifies this`audit, this`highWater
      ensures Valid() && State() == Apply(old(State()), ReleaseStep(p, wall))
      ensures r == Release(old(Snapshot()), p, wall).1
      ensures r.Ok? ==> !HasRow(audit, p, Reserved) && audit.Keys == old(audit).Keys
      ensures r.Err? ==> State() == old(State())
    {
      hide OnlyAudit, OnlyTokens, OnlyGrants, Inv, Apply, UsersUnique, Release;
      ApplyKeeps(State(), ReleaseStep(p, wall));
      ReleaseIs(State(), p, wall);
      r := ReleaseRow(p, wall);
    }

    method DispatchCheckedPermit(p: Permit, wall: int) returns (r: Result<(), Error>)
      modifies this`audit, this`highWater
      ensures (Snapshot(), r) == DispatchChecked(old(Snapshot()), p, wall)
    {
      if p.binding != digest { return Err(Denied); }
      if !ClockOk(wall) { return Err(Invalid); }
      var now := Max(wall, highWater);
      if p.generation != generation || !reviewed { return Err(Disabled); }
      if p.token !in tokens || !Live(tokens[p.token], p.generation, now) { return Err(Denied); }
      if p.token in bindings && (bindings[p.token] !in agents || !agents[bindings[p.token]].enabled) {
        return Err(Denied);
      }
      if !HasRow(audit, p, Reserved) { return Err(Denied); }
      audit := audit[p.request := audit[p.request].(outcome := Dispatched)];
      highWater := Max(highWater, now);
      return Ok(());
    }

    /** A dispatched permit's token is alive and its row says so; a refused one holds no slot any more. */
    method DispatchPermit(p: Permit, wall: int, wall2: int) returns (r: Result<(), Error>)
      requires Valid()
      modifies this`audit, this`highWater, this`log
      ensures Valid() && State() == Apply(old(State()), DispatchStep(p, wall, wall2, false))
      ensures r == Dispatch(old(Snapshot()), p, wall, wall2, false).1
      ensures r.Ok? ==> HasRow(audit, p, Dispatched) && p.token in tokens && !Dead(Snapshot(), p.token)
      ensures r.Err? && p.binding == digest && ClockOk(wall2) ==> !HasRow(audit, p, Reserved)
    {
      hide OnlyAudit, OnlyTokens, OnlyGrants, Inv, DispatchChecked, Release, Apply, Effect, UsersUnique, Dead, HasRow;
      ghost var w, s := State(), DispatchStep(p, wall, wall2, false);
      ApplyKeeps(w, s);
      DispatchMeans(w.db, p, wall, wall2);
      DispatchIs(w, s);
      r := DispatchCheckedPermit(p, wall);
      if r.Err? {
        var _ := ReleaseRow(p, wall2);
      }
      log := Record(log, Effect(w.db, w.lim, s).1);
    }

    /** A result is recorded exactly for a dispatched row, and no row is lost. */
    method FinishPermit(p: Permit, f: Final, wall: int) returns (r: Result<(), Error>)
      requires Valid()
      modifies this`audit, this`highWater, this`log
      ensures Valid() && State() == Apply(old(State()), FinishStep(p, f, wall))
      ensures r == Finish(old(Snapshot()), p, f, wall).1
      ensures r.Ok? <==> Finishable(old(Snapshot()), p, wall)
      ensures r.Ok? ==> ClosedAs(old(Snapshot()), Snapshot(), p.request, f)
      ensures r.Err? ==> State() == old(State())
    {
      hide OnlyAudit, OnlyTokens, OnlyGrants, Inv, Apply, Effect, UsersUnique, Finish, Finishable, HasRow, Record, ClosedAs;
      ghost var w, s := State(), FinishStep(p, f, wall);
      ApplyKeeps(w, s);
      FinishIs(w, s);
      r := FinishRow(p, f, wall);
      if r.Err? { return; }
      log := Record(log, Effect(w.db, w.lim, s).1);
    }

    method FinishRow(p: Permit, f: Final, wall: int) returns (r: Result<(), Error>)
      modifies this`audit, this`highWater
      ensures (Snapshot(), r) == Finish(old(Snapshot()), p, f, wall)
    {
      if p.binding != digest { return Err(Denied); }
      if !ClockOk(wall) { return Err(Invalid); }
      var now := Max(wall, highWater);
      if !HasRow(audit, p, Dispatched) { return Err(Denied); }
      audit := audit[p.request := audit[p.request].(outcome := FinalOutcome(f), ended := Some(now))];
      highWater := Max(highWater, now);
      return Ok(());
    }

    /** Maintenance drops the closed rows that ended over 30 days ago and no others, and counts them. */
    method Maintain(owner: Owner, wall: int) returns (r: Result<nat, Error>)
      requires Valid()
      modifies this`audit, this`highWater
      ensures Valid() && State() == Apply(old(State()), MaintenanceStep(owner, wall))
      ensures r == Maintenance(old(Snapshot()), owner, wall).1
      ensures r.Ok? ==> forall x :: x in old(audit) ==>
                (x !in audit <==> old(audit)[x].Closed() && old(audit)[x].ended.value < highWater - 30 * DAY)
      ensures r.Ok? ==> audit.Keys <= old(audit).Keys && r.value == |old(audit).Keys - audit.Keys|
      ensures r.Err? ==> State() == old(State())
    {
      hide OnlyAudit, OnlyTokens, OnlyGrants, Inv, OwnerOk, UsersUnique;
      ApplyKeeps(State(), MaintenanceStep(owner, wall));
      if !OwnerOk(Snapshot(), owner) { return Err(Denied); }
      if !ClockOk(wall) { return Err(Invalid); }
      var now := Max(wall, highWater);
      var gone := Expired(audit, now);
      assert audit.Keys - (audit - gone).Keys == gone;
      audit, highWater := audit - gone, Max(highWater, now);
      return Ok(|gone|);
    }

    method RequestDevice(key: string, nameOk: bool, ttl: int, device: string, user: string, wall: int)
      returns (r: Result<(), Error>)
      requires Valid()
      modifies this`grants, this`highWater, this`log
      ensures Valid() && State() == Apply(old(State()), RequestStep(key, nameOk, ttl, device, user, wall))
      ensures r == DeviceRequest(old(Snapshot()), key, nameOk, ttl, device, user, wall).1
      ensures r.Err? ==> State() == old(State())
    {
      hide OnlyAudit, OnlyTokens, OnlyGrants, Inv, UsersUnique, DeviceRequest;
      ghost var w, s := State(), RequestStep(key, nameOk, ttl, device, user, wall);
      ApplyKeeps(w, s);
      r := InsertGrant(key, nameOk, ttl, device, user, wall);
      log := Record(log, Effect(w.db, w.lim, s).1);
    }

    method InsertGrant(key: string, nameOk: bool, ttl: int, device: string, user: string, wall: int)
      returns (r: Result<(), Error>)
      requires UsersUnique(grants)
      modifies this`grants, this`highWater
      ensures (Snapshot(), r) == DeviceRequest(old(Snapshot()), key, nameOk, ttl, device, user, wall)
      ensures UsersUnique(grants)
    {
      var e := RequestRefusal(key, nameOk, ttl, device, user, wall);
      if e.Some? { return Err(e.value); }
      RequestedIsNew(Snapshot(), key, nameOk, ttl, device, user, wall);
      var now := Max(wall, highWater);
      var grant := Grant(user, key, nameOk, now, Wrap(now + ttl), now, generation, Pending, None, None, None);
      NewUserUnique(grants, OldGrants(Snapshot(), now), device, grant);
      hide OldGrants, UsersUnique, RequestError;
      grants := (grants - OldGrants(Snapshot(), now))[device := grant];
      highWater := Max(highWater, now);
      return Ok(());
    }

    method RequestRefusal(key: string, nameOk: bool, ttl: int, device: string, user: string, wall: int) returns (e: Option<Error>)
      ensures e == RequestError(Snapshot(), key, nameOk, ttl, device, user, wall)
    {
      hide ExternalKey, OldGrants, OpenGrants;
      if !ExternalKey(key) || !nameOk || ttl < 60 || ttl > 1800 { return Some(Invalid); }
      if !ClockOk(wall) { return Some(Invalid); }
      var now := Max(wall, highWater);
      var kept := grants - OldGrants(Snapshot(), now);
      if |OpenGrants(kept, now)| >= 100 || |kept| >= 1000 { return Some(Capacity); }
      if device in kept || exists d :: d in kept && kept[d].user == user { return Some(Storage); }
      return None;
    }

    // The attempt is counted, and the count committed, before the code is looked at.
    method LookupCode(owner: Owner, user: Option<string>, wall: int) returns (r: Result<string, Error>)
      requires UsersUnique(grants)
      modifies this`budget, this`highWater
      ensures (Snapshot(), r) == Lookup(old(Snapshot()), owner, user, wall)
    {
      ghost var db := Snapshot();
      hide UsersUnique, OwnerOk, UserGrant, UserHasGrant, SpendAttempt, OpenTo, Lookup;
      LookupRefused(db, owner, user, wall);
      if !OwnerOk(Snapshot(), owner) { return Err(Denied); }
      if !ClockOk(wall) { return Err(Invalid); }
      var now := Max(wall, highWater);
      var next := SpendAttempt(budget, now / 60);
      budget, highWater := Some(next), Max(highWater, now);
      if next.attempts > 30 { return Err(Capacity); }
      if user.None? { return Err(Invalid); }
      var found := FindUserGrant(grants, user.value, now, generation);
      LookupFinds(db, owner, user.value, wall, found);
      if found.None? { return Err(Invalid); }
      return Ok(found.value);
    }

    /** `device_owner_lookup`: a hit is the one open grant of that code. */
    method OwnerLookup(owner: Owner, user: Option<string>, wall: int) returns (r: Result<string, Error>)
      requires Valid()
      modifies this`budget, this`highWater, this`log
      ensures Valid() && State() == Apply(old(State()), LookupStep(owner, user, wall))
      ensures r == Lookup(old(Snapshot()), owner, user, wall).1
      ensures r.Ok? ==> user.Some? && r.value in grants && grants[r.value].user == user.value
      ensures r.Ok? ==> forall d :: d in grants && grants[d].user == user.value ==> d == r.value
    {
      hide OnlyAudit, OnlyTokens, OnlyGrants, Inv, Lookup, AttemptPasses;
      ghost var w, s := State(), LookupStep(owner, user, wall);
      ApplyKeeps(w, s);
      LookupHit(w.db, owner, user, wall);
      r := LookupCode(owner, user, wall);
      log := Record(log, Effect(w.db, w.lim, s).1);
    }

    method DecideDevice(owner: Owner, user: Option<string>, approve: bool, days: int, confirmed: bool,
                        wall: int, wall2: int) returns (r: Result<(), Error>)
      requires Valid()
      modifies this`budget, this`grants, this`highWater, this`log
      ensures Valid() && State() == Apply(old(State()), DecideStep(owner, user, approve, days, confirmed, wall, wall2))
      ensures r == Decide(old(Snapshot()), owner, user, approve, days, confirmed, wall, wall2).1
      ensures r.Ok? ==> user.Some? && Decided(old(Snapshot()), Snapshot(), owner, user.value, approve, days)
      ensures r.Err? ==> grants == old(grants)
    {
      hide OnlyAudit, OnlyTokens, OnlyGrants, Inv, UsersUnique, Decide, Decided, Apply, Effect;
      ghost var w, s := State(), DecideStep(owner, user, approve, days, confirmed, wall, wall2);
      ApplyKeeps(w, s);
      DecideIs(w, s);
      DecideMeans(w.db, owner, user, approve, days, confirmed, wall, wall2);
      r := DecideGrant(owner, user, approve, days, confirmed, wall, wall2);
      log := Record(log, Effect(w.db, w.lim, s).1);
    }

    method DecideGrant(owner: Owner, user: Option<string>, approve: bool, days: int, confirmed: bool,
                       wall: int, wall2: int) returns (r: Result<(), Error>)
      requires UsersUnique(grants)
      modifies this`budget, this`grants, this`highWater
      ensures (Snapshot(), r) == Decide(old(Snapshot()), owner, user, approve, days, confirmed, wall, wall2)
      ensures UsersUnique(grants)
    {
      hide UsersUnique, Lookup;
      if approve && (!confirmed || (days != 30 && days != 90)) { return Err(Invalid); }
      var found := LookupCode(owner, user, wall);
      if found.Err? { return Err(found.error); }
      var d := found.value;
      if d !in grants || !grants[d].status.Pending? { return Err(Denied); }
      if !ClockOk(wall2) { return Err(Invalid); }
      var now := Max(wall2, highWater);
      if grants[d].expires <= now { return Err(Denied); }
      var decided := grants[d].(status := if approve then Approved else Rejected, days := Some(days),
                                approver := Some(owner.subject));
      SameUserUnique(grants, d, decided);
      grants := grants[d := decided];
      highWater := Max(highWater, now);
      return Ok(());
    }

    /** First transaction of a poll: None means that the caller goes on to mint. */
    method PaceDevice(device: string, wall: int) returns (answer: Option<Result<Poll, Error>>)
      requires UsersUnique(grants)
      modifies this`grants, this`highWater
      ensures (Snapshot(), answer) == PollPace(old(Snapshot()), device, wall)
      ensures UsersUnique(grants)
    {
      hide UsersUnique;
      if !ClockOk(wall) { return Some(Err(Invalid)); }
      if device !in grants { return Some(Err(Denied)); }
      var now := Max(wall, highWater);
      var g := grants[device];
      var response: Option<Poll> := None;
      if g.expires <= now || g.generation != generation {
        response := Some(Expired410);
      } else if g.status.Claimed? {
        response := Some(Claimed409);
      } else if g.status.Rejected? {
        response := Some(Denied403);
      } else if g.pollAfter > now {
        response := Some(SlowDown429);
      }
      highWater := Max(highWater, now);
      if response.Some? { return Some(Ok(response.value)); }
      SameUserUnique(grants, device, g.(pollAfter := Wrap(now + 5)));
      grants := grants[device := g.(pollAfter := Wrap(now + 5))];
      if g.status.Pending? { return Some(Ok(Pending200)); }
      if g.approver.None? || g.days.None? { return Some(Err(Invalid)); }
      return None;
    }

    method PollDevice(device: string, wall: int, wall2: int, id: string, secret: string)
      returns (r: Result<Poll, Error>)
      requires Valid()
      modifies this`tokens, this`agents, this`bindings, this`grants, this`highWater, this`log
      ensures Valid() && State() == Apply(old(State()), PollStep(device, wall, wall2, id, secret, false))
      ensures r == DevicePoll(old(Snapshot()), limits, device, wall, wall2, id, secret, false).1
      ensures r.Ok? && r.value.Issued? ==> device in grants && grants[device].token == Some(id) && id in tokens
    {
      hide OnlyAudit, OnlyTokens, OnlyGrants, Inv, UsersUnique, PollPace, Mint, Apply, Effect, DevicePoll;
      ghost var w, s := State(), PollStep(device, wall, wall2, id, secret, false);
      ApplyKeeps(w, s);
      IssuedIsClaimed(w, device, wall, wall2, id, secret);
      PollIs(w, s);
      var answer := PaceDevice(device, wall);
      if answer.Some? {
        r := answer.value;
      } else {
        var g := grants[device];
        var minted := CreateScopedClaim(Owner(identity, g.approver.value), g.nameOk, g.days.value * DAY,
                                        Some(Endpoint(g.key, g.nameOk, g.key !in agents)), Some(device),
                                        id, secret, wall2);
        r := if minted.Ok? then Ok(Issued(minted.value)) else Err(minted.error);
      }
      PolledIs(w.db, w.lim, device, wall, wall2, id, secret);
      log := Record(log, Effect(w.db, w.lim, s).1);
    }
  }

  /** `open` on a path without a file: limits out of range and malformed identities are refused. */
  method OpenNew(identity: Binding, digest: string, generation: string, limits: Limits)
    returns (store: Store?, r: Result<(), Error>)
    ensures r == (if limits.Valid() && IdentityOk(identity) then Ok(()) else Err(Invalid))
    ensures store != null <==> r.Ok?
    ensures store != null ==> fresh(store) && store.Valid() && Fresh(store.State()) && store.limits == limits
    ensures store != null ==> store.identity == identity && store.digest == digest && store.generation == generation
  {
    if !limits.Valid() || !IdentityOk(identity) { return null, Err(Invalid); }
    store := new Store(identity, digest, generation, limits);
    r := Ok(());
  }

  predicate IdentityOk(identity: Binding) {
    Identifier(identity.workspace) && Identifier(identity.app) && Identifier(identity.agent)
  }

  // ---------------------------------------------------------------- what the methods rely on

  lemma MintFresh(db: Db, lim: Limits, owner: Owner, nameOk: bool, ttl: int, endpoint: Option<Endpoint>,
                  id: string, secret: string, wall: int)
    ensures var (db', r) := Mint(db, lim, owner, nameOk, ttl, endpoint, None, id, secret, wall);
            if r.Ok? then r.value == Format(id, secret) && id in db'.tokens && id !in db.tokens else db' == db
  {
    if Mint(db, lim, owner, nameOk, ttl, endpoint, None, id, secret, wall).1.Ok? {
      MintOk(db, lim, owner, nameOk, ttl, endpoint, None, id, secret, wall);
    }
    hide MintError, Format;
  }

  lemma AdmitIs(w: World, s: Step)
    requires s.AdmitStep?
    ensures var (db', r) := Admit(w.db, w.lim, s.credential, s.op, s.wall0, s.wall, s.request);
            && Apply(w, s) == World(db', w.lim, Record(w.log, Effect(w.db, w.lim, s).1))
            && (r.Err? ==> Apply(w, s) == w && db' == w.db)
  {
    hide Admit;
  }

  // An admission is its checks and then the reservation.
  lemma AdmitParts(db: Db, lim: Limits, credential: string, op: Operation, wall0: int, wall: int, request: RequestId)
    ensures var e := AdmitError(db, credential, op, wall0, wall);
            && (e.Some? ==> Admit(db, lim, credential, op, wall0, wall, request) == (db, Err(e.value)))
            && (e.None? ==> Parse(credential).Some?)
            && (e.None? ==> Admit(db, lim, credential, op, wall0, wall, request) ==
                            Reserve(db, lim, Parse(credential).value.0, op, Now(db, wall), request))
  {
    hide Reserve, Parse, CredentialOk;
  }

  lemma InvClock(w: World)
    requires Inv(w)
    ensures w.db.highWater <= I64_MAX && DbInv(w.db)
  {
  }

  lemma RestartIs(w: World, identity: Binding, limits: Limits)
    ensures var (db', r) := Open(w.db, identity, limits);
            && Apply(w, Restart(identity, limits)) == World(db', if r.Ok? then limits else w.lim, w.log)
            && (r.Err? ==> db' == w.db)
            && (r.Ok? ==> db'.audit.Keys == w.db.audit.Keys && ActiveRows(db'.audit) == {})
            && (r.Ok? ==> forall x :: x in db'.audit && !w.db.audit[x].InFlight() ==> db'.audit[x] == w.db.audit[x])
  {
    hide Identifier;
  }

  lemma ReleaseIs(w: World, p: Permit, wall: int)
    ensures var (db', r) := Release(w.db, p, wall);
            && Apply(w, ReleaseStep(p, wall)) == World(db', w.lim, w.log) && (r.Err? ==> db' == w.db)
            && (r.Ok? ==> !HasRow(db'.audit, p, Reserved) && db'.audit.Keys == w.db.audit.Keys)
  {
  }

  lemma DispatchIs(w: World, s: Step)
    requires s.DispatchStep?
    ensures Apply(w, s) == World(Dispatch(w.db, s.permit, s.wall, s.wall2, s.crash).0, w.lim,
                                 Record(w.log, Effect(w.db, w.lim, s).1))
  {
    hide Dispatch, Record;
  }

  lemma FinishIs(w: World, s: Step)
    requires s.FinishStep?
    ensures var (db', r) := Finish(w.db, s.permit, s.final, s.wall);
            && Apply(w, s) == World(db', w.lim, Record(w.log, Effect(w.db, w.lim, s).1))
            && (r.Err? ==> Apply(w, s) == w && db' == w.db)
            && (r.Ok? <==> Finishable(w.db, s.permit, s.wall))
            && (r.Ok? ==> ClosedAs(w.db, db', s.permit.request, s.final))
  {
    FinishMeans(w.db, s.permit, s.final, s.wall);
    hide Finish, HasRow, Finishable, ClosedAs;
  }

  lemma FinishMeans(db: Db, p: Permit, f: Final, wall: int)
    ensures var (db', r) := Finish(db, p, f, wall);
            && (r.Ok? <==> Finishable(db, p, wall))
            && (r.Ok? ==> ClosedAs(db, db', p.request, f))
  {
  }

  /** The owner's decision on the one grant of that code, which was pending, of this generation and unexpired until now. */
  ghost predicate Decided(a: Db, b: Db, owner: Owner, user: string, approve: bool, days: int) {
    exists d :: d in a.grants && DecidedOn(a, b, d, owner, user, approve, days)
  }

  ghost predicate DecidedOn(a: Db, b: Db, d: string, owner: Owner, user: string, approve: bool, days: int)
    requires d in a.grants
  {
    && a.grants[d].status.Pending? && a.grants[d].user == user && a.grants[d].generation == a.generation
    && a.grants[d].expires > b.highWater
    && b.grants == a.grants[d := a.grants[d].(status := if approve then Approved else Rejected, days := Some(days),
                                              approver := Some(owner.subject))]
  }

  lemma DecideMeans(db: Db, owner: Owner, user: Option<string>, approve: bool, days: int, confirmed: bool, wall: int, wall2: int)
    ensures var (db', r) := Decide(db, owner, user, approve, days, confirmed, wall, wall2);
            && (r.Ok? ==> user.Some? && Decided(db, db', owner, user.value, approve, days))
            && (r.Err? ==> db'.grants == db.grants)
  {
    hide Lookup, OwnerOk;
    LookupOpens(db, owner, user, wall);
    var (db', r) := Decide(db, owner, user, approve, days, confirmed, wall, wall2);
    if r.Ok? {
      var d := Lookup(db, owner, user, wall).1.value;
      assert DecidedOn(db, db', d, owner, user.value, approve, days);
    }
  }

  lemma LookupOpens(db: Db, owner: Owner, user: Option<string>, wall: int)
    ensures var (db', r) := Lookup(db, owner, user, wall);
            r.Ok? ==> user.Some? && r.value in db.grants && OpenTo(db.grants[r.value], user.value, Now(db, wall), db.generation)
  {
    hide OwnerOk, SpendAttempt, OpenTo;
  }

  lemma DecideIs(w: World, s: Step)
    requires s.DecideStep?
    ensures Apply(w, s) ==
            World(Decide(w.db, s.owner, s.code, s.approve, s.days, s.confirmed, s.wall, s.wall2).0, w.lim,
                  Record(w.log, Effect(w.db, w.lim, s).1))
  {
    hide Decide, Record, AttemptPasses;
  }

  lemma PollIs(w: World, s: Step)
    requires s.PollStep?
    ensures Apply(w, s) == World(DevicePoll(w.db, w.lim, s.device, s.wall, s.wall2, s.id, s.secret, s.crash).0, w.lim,
                                 Record(w.log, Effect(w.db, w.lim, s).1))
  {
    hide DevicePoll, Record;
  }

  // A poll is its pacing and, when that gives no answer, a mint.
  lemma PolledIs(db: Db, lim: Limits, device: string, wall: int, wall2: int, id: string, secret: string)
    ensures var (paced, answer) := PollPace(db, device, wall);
            DevicePoll(db, lim, device, wall, wall2, id, secret, false) ==
            if answer.Some? then (paced, answer.value)
            else
              var g := paced.grants[device];
              var (minted, r) := Mint(paced, lim, Owner(paced.identity, g.approver.value), g.nameOk, g.days.value * DAY,
                                      Some(Endpoint(g.key, g.nameOk, g.key !in paced.agents)), Some(device), id, secret, wall2);
              (minted, if r.Ok? then Ok(Issued(r.value)) else Err(r.error))
  {
    hide PollPace, Mint;
  }

  lemma AdmittedRow(db: Db, lim: Limits, s: Step)
    requires s.AdmitStep? && db.highWater <= I64_MAX
    ensures var (db', r) := Admit(db, lim, s.credential, s.op, s.wall0, s.wall, s.request);
            r.Ok? ==> HasRow(db'.audit, r.value, Reserved) && !Dead(db', r.value.token)
  {
    hide Reserve, Tidy, AtCapacity, RecentRows;
    var (db', r) := Admit(db, lim, s.credential, s.op, s.wall0, s.wall, s.request);
    if r.Ok? {
      AdmitOk(db, lim, s.credential, s.op, s.wall0, s.wall, s.request);
      ReserveOk(db, lim, r.value.token, s.op, Now(db, s.wall), s.request);
    }
  }

  lemma DispatchMeans(db: Db, p: Permit, wall: int, wall2: int)
    ensures var (db', r) := Dispatch(db, p, wall, wall2, false);
            && (r.Ok? ==> HasRow(db'.audit, p, Dispatched) && p.token in db'.tokens && !Dead(db', p.token))
            && (r.Err? && p.binding == db.digest && ClockOk(wall2) ==> !HasRow(db'.audit, p, Reserved))
  {
  }

  lemma LookupRefused(db: Db, owner: Owner, user: Option<string>, wall: int)
    ensures !OwnerOk(db, owner) ==> Lookup(db, owner, user, wall) == (db, Err(Denied))
    ensures OwnerOk(db, owner) && !ClockOk(wall) ==> Lookup(db, owner, user, wall) == (db, Err(Invalid))
    ensures OwnerOk(db, owner) && ClockOk(wall) ==>
              var next := SpendAttempt(db.budget, Now(db, wall) / 60);
              && Lookup(db, owner, user, wall).0 == Checkpoint(db.(budget := Some(next)), Now(db, wall))
              && (next.attempts > 30 ==> Lookup(db, owner, user, wall).1 == Err(Capacity))
              && (next.attempts <= 30 && user.None? ==> Lookup(db, owner, user, wall).1 == Err(Invalid))
  {
    hide OwnerOk, SpendAttempt, UserHasGrant, UserGrant;
  }

  lemma LookupFinds(db: Db, owner: Owner, user: string, wall: int, found: Option<string>)
    requires UsersUnique(db.grants) && OwnerOk(db, owner) && ClockOk(wall)
    requires SpendAttempt(db.budget, Now(db, wall) / 60).attempts <= 30
    requires found.Some? ==> found.value in db.grants && OpenTo(db.grants[found.value], user, Now(db, wall), db.generation)
    requires found.None? ==> forall d :: d in db.grants ==> !OpenTo(db.grants[d], user, Now(db, wall), db.generation)
    ensures Lookup(db, owner, Some(user), wall).1 == if found.Some? then Ok(found.value) else Err(Invalid)
  {
    hide OwnerOk, UserGrant, SpendAttempt, OpenTo, UsersUnique;
    var now := Now(db, wall);
    var db1 := Checkpoint(db.(budget := Some(SpendAttempt(db.budget, now / 60))), now);
    if found.Some? { UserGrantUnique(db1, user, now, found.value); }
  }

  lemma LookupHit(db: Db, owner: Owner, user: Option<string>, wall: int)
    requires UsersUnique(db.grants)
    ensures var r := Lookup(db, owner, user, wall).1;
            r.Ok? ==> user.Some? && r.value in db.grants && db.grants[r.value].user == user.value &&
                      forall d :: d in db.grants && db.grants[d].user == user.value ==> d == r.value
  {
    hide OwnerOk, SpendAttempt;
  }

  lemma IssuedIsClaimed(w: World, device: string, wall: int, wall2: int, id: string, secret: string)
    requires Inv(w)
    ensures var (db', r) := DevicePoll(w.db, w.lim, device, wall, wall2, id, secret, false);
            r.Ok? && r.value.Issued? ==> device in db'.grants && db'.grants[device].token == Some(id) && id in db'.tokens
  {
    var s := PollStep(device, wall, wall2, id, secret, false);
    DeviceGrants.PollMoves(w.db, w.lim, device, wall, wall2, id, secret, false);
    hide DevicePoll;
  }
}
