/**
 * The external-agent credential store as a value: its tables and one function per transaction.
 * A transaction either commits a new `Db` or fails with an error and the `Db` it started from.
 * Random ids are inputs; reusing one runs into the table's primary key, as in SQLite. SHA-256 is
 * collision free, so a stored verifier is the tuple that was hashed.
 */
module CredentialStore {
  import opened Prelude
  import opened CredentialFormat

  const DAY := 86_400
  const I64_MAX := 0x7fff_ffff_ffff_ffff
  const RATE := 60

  datatype Error = Denied | Disabled | Capacity | Invalid | Storage | PrivateStorage

  datatype Binding = Binding(workspace: string, app: string, agent: string)

  datatype Owner = Owner(binding: Binding, subject: string)

  datatype Limits = Limits(liveTokens: int, tokenRecords: int, auditRows: int, auditPerToken: int,
                           concurrent: int, concurrentPerToken: int)
  {
    predicate Within(max: Limits) {
      && liveTokens <= max.liveTokens && tokenRecords <= max.tokenRecords
      && auditRows <= max.auditRows && auditPerToken <= max.auditPerToken
      && concurrent <= max.concurrent && concurrentPerToken <= max.concurrentPerToken
    }

    predicate Valid() {
      && liveTokens > 0 && tokenRecords > 0 && auditRows > 0 && auditPerToken > 0
      && concurrent > 0 && concurrentPerToken > 0
      && Within(DEFAULT_LIMITS)
    }
  }

  const DEFAULT_LIMITS := Limits(100, 1000, 100_000, 1000, 8, 2)

  datatype Verifier = Verifier(binding: string, generation: string, id: string, secret: string)

  datatype Token = Token(verifier: Verifier, generation: string, created: int, expires: int,
                         creator: string, revokedAt: Option<int>)

  datatype Operation = Registry | Inbox | Ack | Cli

  datatype Outcome = Reserved | Dispatched | Completed | PolicyDenied | Unavailable | Unknown

  // A request id is the number its 32 hex digits spell: fixed-width text order is numeric order.
  type RequestId = nat

  datatype Row = Row(token: string, generation: string, operation: Operation, target: Option<string>,
                     started: int, ended: Option<int>, outcome: Outcome)
  {
    predicate InFlight() {
      outcome.Reserved? || outcome.Dispatched?
    }

    // Rows that capacity pressure and retention may delete.
    predicate Closed() {
      (outcome.Completed? || outcome.PolicyDenied? || outcome.Unavailable?) && ended.Some?
    }
  }

  datatype Agent = Agent(enabled: bool, created: int)

  datatype Status = Pending | Approved | Rejected | Claimed

  datatype Grant = Grant(user: string, key: string, nameOk: bool, created: int, expires: int, pollAfter: int,
                         generation: string, status: Status, days: Option<int>, approver: Option<string>,
                         token: Option<string>)

  datatype Budget = Budget(minute: int, attempts: int)

  datatype Permit = Permit(request: RequestId, token: string, generation: string, binding: string,
                           operation: Operation, target: Option<string>)

  datatype Db = Db(identity: Binding, digest: string, generation: string, reviewed: bool, highWater: int,
                   tokens: map<string, Token>, audit: map<RequestId, Row>, agents: map<string, Agent>,
                   bindings: map<string, string>, grants: map<string, Grant>, budget: Option<Budget>)

  // ---------------------------------------------------------------- small helpers

  predicate IdentifierChar(c: char) {
    'a' <= c <= 'z' || 'A' <= c <= 'Z' || '0' <= c <= '9' || c == '_' || c == '-'
  }

  predicate Identifier(v: string) {
    0 < |v| <= 128 && forall i :: 0 <= i < |v| ==> IdentifierChar(v[i])
  }

  predicate ExternalKey(key: string) {
    0 < |key| <= 64 && key[0] != '_' && key[0] != '-' && forall i :: 0 <= i < |key| ==> IdentifierChar(key[i])
  }

  predicate OwnerOk(db: Db, owner: Owner) {
    owner.binding == db.identity && Identifier(owner.subject)
  }

  // `SystemTime::now` in whole seconds fits an i64 and is not before the epoch.
  predicate ClockOk(wall: int) {
    0 <= wall <= I64_MAX
  }

  function Now(db: Db, wall: int): int {
    Max(wall, db.highWater)
  }

  function Checkpoint(db: Db, now: int): Db {
    db.(highWater := Max(db.highWater, now))
  }

  // Two's complement `i64` addition of small positive numbers.
  function Wrap(n: int): int {
    if n > I64_MAX then n - 0x1_0000_0000_0000_0000 else n
  }

  // ---------------------------------------------------------------- queries

  predicate Live(t: Token, generation: string, now: int) {
    t.revokedAt.None? && t.expires > now && t.generation == generation
  }

  function LiveTokens(db: Db, now: int): set<string> {
    set k | k in db.tokens && Live(db.tokens[k], db.generation, now)
  }

  function RowsOf(audit: map<RequestId, Row>, token: string): set<RequestId> {
    set r | r in audit && audit[r].token == token
  }

  function ActiveRows(audit: map<RequestId, Row>): set<RequestId> {
    set r | r in audit && audit[r].InFlight()
  }

  function ActiveRowsOf(audit: map<RequestId, Row>, token: string): set<RequestId> {
    set r | r in audit && audit[r].token == token && audit[r].InFlight()
  }

  function RecentRows(audit: map<RequestId, Row>, token: string, since: int): set<RequestId> {
    set r | r in audit && audit[r].token == token && audit[r].started > since
  }

  predicate HasRow(audit: map<RequestId, Row>, p: Permit, outcome: Outcome) {
    && p.request in audit
    && audit[p.request].token == p.token && audit[p.request].generation == p.generation
    && audit[p.request].outcome == outcome
  }

  // ---------------------------------------------------------------- audit pruning

  predicate NotAfter(audit: map<RequestId, Row>, a: RequestId, b: RequestId)
    requires a in audit && b in audit
  {
    audit[a].started < audit[b].started || (audit[a].started == audit[b].started && a <= b)
  }

  predicate IsOldest(audit: map<RequestId, Row>, rows: set<RequestId>, r: RequestId)
    requires rows <= audit.Keys
  {
    r in rows && forall x :: x in rows ==> NotAfter(audit, r, x)
  }

  lemma {:induction false} OldestExists(audit: map<RequestId, Row>, rows: set<RequestId>)
    requires rows <= audit.Keys && rows != {}
    ensures exists r :: IsOldest(audit, rows, r)
    decreases rows
  {
    var x :| x in rows;
    var rest := rows - {x};
    assert rows == rest + {x};
    if rest == {} {
      assert IsOldest(audit, rows, x);
    } else {
      OldestExists(audit, rest);
      var r :| IsOldest(audit, rest, r);
      assert IsOldest(audit, rows, if NotAfter(audit, x, r) then x else r);
    }
  }

  /** The first `k` of `rows` in order of start time, then request id (`ORDER BY started,request LIMIT k`). */
  ghost function Oldest(audit: map<RequestId, Row>, rows: set<RequestId>, k: nat): (r: set<RequestId>)
    requires rows <= audit.Keys
    ensures r <= rows
    ensures |r| == if k < |rows| then k else |rows|
    ensures forall a, b :: a in r && b in rows - r ==> NotAfter(audit, a, b)
    decreases k
  {
    if k == 0 || rows == {} then {}
    else
      OldestExists(audit, rows);
      var first :| IsOldest(audit, rows, first);
      {first} + Oldest(audit, rows - {first}, k - 1)
  }

  function ReleaseStale(audit: map<RequestId, Row>, now: int): map<RequestId, Row> {
    map r | r in audit ::
      if audit[r].outcome.Reserved? && audit[r].started <= now - 30
      then audit[r].(outcome := Unavailable, ended := Some(now)) else audit[r]
  }

  function Excess(rows: nat, cap: int): nat {
    if rows - cap + 1 > 0 then rows - cap + 1 else 0
  }

  function PrunableOf(audit: map<RequestId, Row>, token: string, now: int): set<RequestId> {
    set r | r in audit && audit[r].token == token && audit[r].Closed() && audit[r].started <= now - 60
  }

  function Prunable(audit: map<RequestId, Row>, now: int): set<RequestId> {
    set r | r in audit && audit[r].Closed() && audit[r].started <= now - 60
  }

  ghost function PruneToken(audit: map<RequestId, Row>, token: string, now: int, cap: int): map<RequestId, Row> {
    audit - Oldest(audit, PrunableOf(audit, token, now), Excess(|RowsOf(audit, token)|, cap))
  }

  ghost function PruneAll(audit: map<RequestId, Row>, now: int, cap: int): map<RequestId, Row> {
    audit - Oldest(audit, Prunable(audit, now), Excess(|audit|, cap))
  }

  /** What `admit` does to the audit table before it counts. */
  ghost function Tidy(audit: map<RequestId, Row>, token: string, now: int, lim: Limits): map<RequestId, Row> {
    PruneAll(PruneToken(ReleaseStale(audit, now), token, now, lim.auditPerToken), now, lim.auditRows)
  }

  // ---------------------------------------------------------------- transactions

  // Everything but the audit table and the clock stays; the clock does not go back.
  ghost predicate OnlyAudit(a: Db, b: Db) {
    && b.identity == a.identity && b.digest == a.digest && b.generation == a.generation && b.reviewed == a.reviewed
    && b.tokens == a.tokens && b.agents == a.agents && b.bindings == a.bindings && b.grants == a.grants
    && b.budget == a.budget && (b.highWater == a.highWater || a.highWater <= b.highWater <= I64_MAX)
  }

  function LostResults(audit: map<RequestId, Row>): map<RequestId, Row> {
    map r | r in audit :: if audit[r].InFlight() then audit[r].(outcome := Unknown, ended := None) else audit[r]
  }

  /** Restart: lost results become unknown, and nothing in flight is retried or removed. */
  function Open(db: Db, identity: Binding, lim: Limits): (r: (Db, Result<(), Error>))
    ensures OnlyAudit(db, r.0)
    ensures r.1.Err? ==> r.0 == db
  {
    if !lim.Valid() then (db, Err(Invalid))
    else if !Identifier(identity.workspace) || !Identifier(identity.app) || !Identifier(identity.agent)
    then (db, Err(Invalid))
    else if identity != db.identity then (db, Err(PrivateStorage))
    else (db.(audit := LostResults(db.audit)), Ok(()))
  }

  datatype Endpoint = Endpoint(key: string, nameOk: bool, register: bool)

  predicate Mintable(g: Grant, now: int, generation: string) {
    g.status.Approved? && g.expires > now && g.generation == generation
  }

  /** Why the endpoint of a new token is refused, if it is. */
  function EndpointError(db: Db, e: Endpoint): Option<Error> {
    if !ExternalKey(e.key) || !e.nameOk then Some(Invalid)
    else if e.register then
      if |db.agents| >= 100 then Some(Capacity)
      else if e.key in db.agents then Some(Invalid)
      else None
    else if e.key in db.agents && db.agents[e.key].enabled then None
    else Some(Invalid)
  }

  function MintError(db: Db, lim: Limits, owner: Owner, nameOk: bool, ttl: int, endpoint: Option<Endpoint>,
                     device: Option<string>, id: string, wall: int): Option<Error> {
    var now := Now(db, wall);
    if !OwnerOk(db, owner) then Some(Denied)
    else if !nameOk || !(1 <= ttl <= 90 * DAY) || !ClockOk(wall) then Some(Invalid)
    else if |LiveTokens(db, now)| >= lim.liveTokens || |db.tokens| >= lim.tokenRecords then Some(Capacity)
    else if device.Some? && !(device.value in db.grants && Mintable(db.grants[device.value], now, db.generation))
    then Some(Denied)
    else if now + ttl > I64_MAX then Some(Invalid)
    else if id in db.tokens then Some(Storage)
    else if endpoint.Some? then EndpointError(db, endpoint.value)
    else None
  }

  /** `create_scoped_claim`: mint a token, bind it to its endpoint and claim its device grant, all or nothing. */
  function Mint(db: Db, lim: Limits, owner: Owner, nameOk: bool, ttl: int, endpoint: Option<Endpoint>,
                device: Option<string>, id: string, secret: string, wall: int): (Db, Result<string, Error>) {
    match MintError(db, lim, owner, nameOk, ttl, endpoint, device, id, wall)
    case Some(e) => (db, Err(e))
    case None =>
      var now := Now(db, wall);
      var token := Token(Verifier(db.digest, db.generation, id, secret), db.generation, now, now + ttl,
                         owner.subject, None);
      var minted := db.(
        tokens := db.tokens[id := token],
        agents := if endpoint.Some? && endpoint.value.register
                  then db.agents[endpoint.value.key := Agent(true, now)] else db.agents,
        bindings := if endpoint.Some? then db.bindings[id := endpoint.value.key] else db.bindings,
        grants := if device.Some? && device.value in db.grants
                  then db.grants[device.value := db.grants[device.value].(status := Claimed, token := Some(id))]
                  else db.grants);
      (Checkpoint(minted, now), Ok(Format(id, secret)))
  }

  /** What a successful mint found and what it left behind. */
  lemma MintOk(db: Db, lim: Limits, owner: Owner, nameOk: bool, ttl: int, endpoint: Option<Endpoint>,
               device: Option<string>, id: string, secret: string, wall: int)
    requires Mint(db, lim, owner, nameOk, ttl, endpoint, device, id, secret, wall).1.Ok?
    ensures var db' := Mint(db, lim, owner, nameOk, ttl, endpoint, device, id, secret, wall).0;
            var now := Now(db, wall);
            && MintError(db, lim, owner, nameOk, ttl, endpoint, device, id, wall) == None
            && |LiveTokens(db, now)| < lim.liveTokens && |db.tokens| < lim.tokenRecords
            && id !in db.tokens && id in db'.tokens && db'.tokens == db.tokens[id := db'.tokens[id]]
            && db'.generation == db.generation && db'.highWater == now
            && db'.bindings == (if endpoint.Some? then db.bindings[id := endpoint.value.key] else db.bindings)
            && (device.None? ==> db'.grants == db.grants)
  {
  }

  lemma MintFails(db: Db, lim: Limits, owner: Owner, nameOk: bool, ttl: int, endpoint: Option<Endpoint>,
                  device: Option<string>, id: string, secret: string, wall: int)
    ensures var (db', r) := Mint(db, lim, owner, nameOk, ttl, endpoint, device, id, secret, wall); r.Err? ==> db' == db
  {
    hide MintError, Format;
  }

  // Audit rows, endpoints and grants stay, and no token record comes or goes.
  ghost predicate OnlyTokens(a: Db, b: Db) {
    && b.identity == a.identity && b.digest == a.digest && b.tokens.Keys == a.tokens.Keys && b.audit == a.audit
    && b.agents == a.agents && b.bindings == a.bindings && b.grants == a.grants && b.budget == a.budget
    && (b.highWater == a.highWater || a.highWater <= b.highWater <= I64_MAX)
  }

  function RevokeToken(db: Db, id: string, now: int): (r: Db)
    ensures r.tokens.Keys == db.tokens.Keys && r == db.(tokens := r.tokens)
  {
    if id in db.tokens && db.tokens[id].revokedAt.None?
    then db.(tokens := db.tokens[id := db.tokens[id].(revokedAt := Some(now))]) else db
  }

  function Revoke(db: Db, owner: Owner, id: string, wall: int): (r: (Db, Result<(), Error>))
    ensures OnlyTokens(db, r.0)
  {
    if !OwnerOk(db, owner) then (db, Err(Denied))
    else if !Hex(id, 32) || !ClockOk(wall) then (db, Err(Invalid))
    else (Checkpoint(RevokeToken(db, id, Now(db, wall)), Now(db, wall)), Ok(()))
  }

  /** A registry token may revoke the endpoint tokens it created itself, in the current generation. */
  function RevokeCreated(db: Db, permit: Permit, id: string, wall: int): (r: (Db, Result<(), Error>))
    ensures OnlyTokens(db, r.0)
  {
    if permit.binding != db.digest || !permit.operation.Registry? || !Hex(id, 32) then (db, Err(Denied))
    else if !ClockOk(wall) then (db, Err(Invalid))
    else if && id in db.tokens && id in db.bindings && db.tokens[id].creator == permit.token
            && db.tokens[id].generation == db.generation && permit.token !in db.bindings
            && permit.generation == db.generation
    then (Checkpoint(RevokeToken(db, id, Now(db, wall)), Now(db, wall)), Ok(()))
    else (db, Err(Denied))
  }

  function Review(db: Db, owner: Owner, enabled: bool, wall: int): (r: (Db, Result<(), Error>))
    ensures OnlyTokens(db, r.0)
  {
    if !OwnerOk(db, owner) then (db, Err(Denied))
    else if !ClockOk(wall) then (db, Err(Invalid))
    else (Checkpoint(db.(reviewed := enabled), Now(db, wall)), Ok(()))
  }

  function RevokeAll(tokens: map<string, Token>, now: int): (r: map<string, Token>)
    ensures r.Keys == tokens.Keys
    ensures forall k :: k in r ==> r[k].revokedAt.Some?
  {
    map k | k in tokens ::
      if tokens[k].revokedAt.None? then tokens[k].(revokedAt := Some(now)) else tokens[k]
  }

  /** `rotate_after_restore`: a new generation, the API off, and every token revoked. */
  function Rotate(db: Db, owner: Owner, generation: string, wall: int): (r: (Db, Result<(), Error>))
    ensures OnlyTokens(db, r.0)
  {
    if !OwnerOk(db, owner) then (db, Err(Denied))
    else if !ClockOk(wall) then (db, Err(Invalid))
    else
      var now := Now(db, wall);
      (Checkpoint(db.(generation := generation, reviewed := false, tokens := RevokeAll(db.tokens, now)), now), Ok(()))
  }

  predicate CredentialOk(db: Db, id: string, secret: string, now: int) {
    && id in db.tokens
    && db.tokens[id].verifier == Verifier(db.digest, db.generation, id, secret)
    && Live(db.tokens[id], db.generation, now)
  }

  /** Scope is durable token metadata: a bound token has no registry, an unbound one no inbox. */
  function ScopeError(db: Db, id: string, op: Operation): Option<Error> {
    if id in db.bindings then
      if db.bindings[id] !in db.agents then Some(Storage)
      else if !db.agents[db.bindings[id]].enabled || op.Registry? then Some(Denied)
      else None
    else if op.Inbox? || op.Ack? then Some(Invalid)
    else None
  }

  /** Refusals of `admit` that come before any table is looked at for capacity. */
  function AdmitError(db: Db, credential: string, op: Operation, wall0: int, wall: int): Option<Error> {
    if !db.reviewed then Some(Disabled)
    else match Parse(credential)
      case None => Some(Denied)
      case Some((id, secret)) =>
        if !ClockOk(wall0) then Some(Invalid)
        else if !CredentialOk(db, id, secret, Now(db, wall0)) then Some(Denied)
        else if ScopeError(db, id, op).Some? then ScopeError(db, id, op)
        else if !ClockOk(wall) then Some(Invalid)
        else if !CredentialOk(db, id, secret, Now(db, wall)) then Some(Denied)
        else None
  }

  predicate AtCapacity(audit: map<RequestId, Row>, token: string, lim: Limits) {
    || |audit| >= lim.auditRows || |RowsOf(audit, token)| >= lim.auditPerToken
    || |ActiveRows(audit)| >= lim.concurrent || |ActiveRowsOf(audit, token)| >= lim.concurrentPerToken
  }

  function Target(db: Db, id: string, op: Operation): Option<string> {
    if (op.Inbox? || op.Ack?) && id in db.bindings then Some(db.bindings[id]) else None
  }

  /** The write half of `admit`: tidy the audit table, count, and reserve. */
  ghost function Reserve(db: Db, lim: Limits, id: string, op: Operation, now: int, request: RequestId)
    : (Db, Result<Permit, Error>)
  {
    var audit := Tidy(db.audit, id, now, lim);
    if AtCapacity(audit, id, lim) || |RecentRows(audit, id, now - 60)| >= RATE then (db, Err(Capacity))
    else if request in audit then (db, Err(Storage))
    else
      var row := Row(id, db.generation, op, Target(db, id, op), now, None, Reserved);
      (Checkpoint(db.(audit := audit[request := row]), now),
       Ok(Permit(request, id, db.generation, db.digest, op, Target(db, id, op))))
  }

  /** `admit_from`; a refused admission leaves no trace. */
  ghost function Admit(db: Db, lim: Limits, credential: string, op: Operation, wall0: int, wall: int,
                       request: RequestId): (r: (Db, Result<Permit, Error>))
    ensures r.1.Err? ==> r.0 == db
  {
    match AdmitError(db, credential, op, wall0, wall)
    case Some(e) => (db, Err(e))
    case None =>
      assert Parse(credential).Some?;
      Reserve(db, lim, Parse(credential).value.0, op, Now(db, wall), request)
  }

  /** What a successful admission found and what it left behind. */
  lemma ReserveOk(db: Db, lim: Limits, id: string, op: Operation, now: int, request: RequestId)
    requires Reserve(db, lim, id, op, now, request).1.Ok? && db.highWater <= now <= I64_MAX
    ensures var (db', r) := Reserve(db, lim, id, op, now, request);
            var audit := Tidy(db.audit, id, now, lim);
            && OnlyAudit(db, db') && db'.highWater == now
            && r.value == Permit(request, id, db.generation, db.digest, op, Target(db, id, op))
            && !AtCapacity(audit, id, lim) && |RecentRows(audit, id, now - 60)| < RATE
            && request !in audit && request in db'.audit
            && db'.audit == audit[request := db'.audit[request]]
            && db'.audit[request] == Row(id, db.generation, op, Target(db, id, op), now, None, Reserved)
  {
  }

  lemma AdmitOk(db: Db, lim: Limits, credential: string, op: Operation, wall0: int, wall: int, request: RequestId)
    requires Admit(db, lim, credential, op, wall0, wall, request).1.Ok?
    ensures var (db', r) := Admit(db, lim, credential, op, wall0, wall, request);
            var id, now := r.value.token, Now(db, wall);
            && ClockOk(wall)
            && id in db.tokens && Live(db.tokens[id], db.generation, now)
            && (db', r) == Reserve(db, lim, id, op, now, request)
  {
  }

  function Release(db: Db, p: Permit, wall: int): (r: (Db, Result<(), Error>))
    ensures OnlyAudit(db, r.0)
  {
    if p.binding != db.digest then (db, Err(Denied))
    else if !ClockOk(wall) then (db, Err(Invalid))
    else
      var now := Now(db, wall);
      var released :=
        if HasRow(db.audit, p, Reserved)
        then db.(audit := db.audit[p.request := db.audit[p.request].(outcome := Unavailable, ended := Some(now))])
        else db;
      (Checkpoint(released, now), Ok(()))
  }

  predicate EndpointEnabled(db: Db, token: string) {
    token in db.bindings ==> db.bindings[token] in db.agents && db.agents[db.bindings[token]].enabled
  }

  function DispatchChecked(db: Db, p: Permit, wall: int): (r: (Db, Result<(), Error>))
    ensures OnlyAudit(db, r.0)
    ensures r.1.Err? ==> r.0 == db
  {
    var now := Now(db, wall);
    if p.binding != db.digest then (db, Err(Denied))
    else if !ClockOk(wall) then (db, Err(Invalid))
    else if p.generation != db.generation || !db.reviewed then (db, Err(Disabled))
    else if !(p.token in db.tokens && Live(db.tokens[p.token], p.generation, now)) then (db, Err(Denied))
    else if !EndpointEnabled(db, p.token) then (db, Err(Denied))
    else if !HasRow(db.audit, p, Reserved) then (db, Err(Denied))
    else (Checkpoint(db.(audit := db.audit[p.request := db.audit[p.request].(outcome := Dispatched)]), now), Ok(()))
  }

  /** `dispatch`: a refused reservation is released at once, unless the process dies (`crash`) in between. */
  function Dispatch(db: Db, p: Permit, wall: int, wall2: int, crash: bool): (r: (Db, Result<(), Error>))
    ensures OnlyAudit(db, r.0)
  {
    var (db1, r) := DispatchChecked(db, p, wall);
    if r.Ok? || crash then (db1, r) else (Release(db1, p, wall2).0, r)
  }

  datatype Final = FinalCompleted | FinalDenied | FinalUnavailable | FinalUnknown

  function FinalOutcome(f: Final): (o: Outcome) {
    match f
    case FinalCompleted => Completed
    case FinalDenied => PolicyDenied
    case FinalUnavailable => Unavailable
    case FinalUnknown => Unknown
  }

  function Finish(db: Db, p: Permit, f: Final, wall: int): (r: (Db, Result<(), Error>))
    ensures OnlyAudit(db, r.0)
    ensures r.1.Err? ==> r.0 == db
  {
    var now := Now(db, wall);
    if p.binding != db.digest then (db, Err(Denied))
    else if !ClockOk(wall) then (db, Err(Invalid))
    else if !HasRow(db.audit, p, Dispatched) then (db, Err(Denied))
    else (Checkpoint(db.(audit := db.audit[p.request :=
            db.audit[p.request].(outcome := FinalOutcome(f), ended := Some(now))]), now), Ok(()))
  }

  function Expired(audit: map<RequestId, Row>, now: int): set<RequestId> {
    set r | r in audit && audit[r].Closed() && audit[r].ended.value < now - 30 * DAY
  }

  function Maintenance(db: Db, owner: Owner, wall: int): (r: (Db, Result<nat, Error>))
    ensures OnlyAudit(db, r.0)
  {
    if !OwnerOk(db, owner) then (db, Err(Denied))
    else if !ClockOk(wall) then (db, Err(Invalid))
    else
      var gone := Expired(db.audit, Now(db, wall));
      (Checkpoint(db.(audit := db.audit - gone), Now(db, wall)), Ok(|gone|))
  }

  // ---------------------------------------------------------------- device grants

  // Everything but grants, the attempt budget and the clock stays; the clock does not go back.
  ghost predicate OnlyGrants(a: Db, b: Db) {
    && b.identity == a.identity && b.digest == a.digest && b.generation == a.generation && b.reviewed == a.reviewed
    && b.tokens == a.tokens && b.audit == a.audit && b.agents == a.agents && b.bindings == a.bindings
    && (b.highWater == a.highWater || a.highWater <= b.highWater <= I64_MAX)
  }

  function OldGrants(db: Db, now: int): set<string> {
    set d | d in db.grants && db.grants[d].expires <= now - DAY
  }

  function OpenGrants(grants: map<string, Grant>, now: int): set<string> {
    set d | d in grants && grants[d].expires > now && (grants[d].status.Pending? || grants[d].status.Approved?)
  }

  /** Why a device request is refused, if it is. */
  function RequestError(db: Db, key: string, nameOk: bool, ttl: int, device: string, user: string, wall: int): Option<Error> {
    var now := Now(db, wall);
    if !ExternalKey(key) || !nameOk || !(60 <= ttl <= 1800) || !ClockOk(wall) then Some(Invalid)
    else
      var kept := db.grants - OldGrants(db, now);
      if |OpenGrants(kept, now)| >= 100 || |kept| >= 1000 then Some(Capacity)
      else if device in kept || exists d :: d in kept && kept[d].user == user then Some(Storage)
      else None
  }

  /** `device_request`: `device` stands for the hash of the secret and `user` for the hash of the short code. */
  function DeviceRequest(db: Db, key: string, nameOk: bool, ttl: int, device: string, user: string, wall: int)
    : (r: (Db, Result<(), Error>))
    ensures OnlyGrants(db, r.0) && r.0.budget == db.budget
    ensures r.1.Err? ==> r.0 == db
    ensures r.1.Ok? ==>
              && device in r.0.grants && r.0.grants[device].status.Pending? && r.0.grants[device].token.None?
              && r.0.grants == (db.grants - OldGrants(db, Now(db, wall)))[device := r.0.grants[device]]
  {
    match RequestError(db, key, nameOk, ttl, device, user, wall)
    case Some(e) => (db, Err(e))
    case None =>
      var now := Now(db, wall);
      var grant := Grant(user, key, nameOk, now, Wrap(now + ttl), now, db.generation, Pending, None, None, None);
      (Checkpoint(db.(grants := (db.grants - OldGrants(db, now))[device := grant]), now), Ok(()))
  }

  function SpendAttempt(budget: Option<Budget>, minute: int): (b: Budget)
    ensures b.minute == minute
  {
    match budget
    case None => Budget(minute, 1)
    case Some(was) => Budget(minute, if was.minute == minute then was.attempts + 1 else 1)
  }

  predicate OpenTo(g: Grant, user: string, now: int, generation: string) {
    g.user == user && g.expires > now && g.generation == generation
  }

  predicate UserHasGrant(db: Db, user: string, now: int) {
    exists d :: d in db.grants && OpenTo(db.grants[d], user, now, db.generation)
  }

  ghost function UserGrant(db: Db, user: string, now: int): string
    requires UserHasGrant(db, user, now)
  {
    var d :| d in db.grants && OpenTo(db.grants[d], user, now, db.generation);
    d
  }

  /**
   * `device_owner_lookup`: every attempt by an owner spends the budget of its minute, also a malformed
   * code (`user` is None). The result is the hash of the matching grant.
   */
  ghost function Lookup(db: Db, owner: Owner, user: Option<string>, wall: int): (r: (Db, Result<string, Error>))
    ensures OnlyGrants(db, r.0) && r.0.grants == db.grants
  {
    if !OwnerOk(db, owner) then (db, Err(Denied))
    else if !ClockOk(wall) then (db, Err(Invalid))
    else
      var now := Now(db, wall);
      var budget := SpendAttempt(db.budget, now / 60);
      var db1 := Checkpoint(db.(budget := Some(budget)), now);
      if budget.attempts > 30 then (db1, Err(Capacity))
      else if user.None? || !UserHasGrant(db1, user.value, now) then (db1, Err(Invalid))
      else (db1, Ok(UserGrant(db1, user.value, now)))
  }

  /** `device_decide`: a lookup, then the decision on the still pending grant in a second transaction. */
  ghost function Decide(db: Db, owner: Owner, user: Option<string>, approve: bool, days: int, confirmed: bool,
                        wall: int, wall2: int): (r: (Db, Result<(), Error>))
    ensures OnlyGrants(db, r.0)
  {
    if approve && (!confirmed || (days != 30 && days != 90)) then (db, Err(Invalid))
    else
      var (db1, found) := Lookup(db, owner, user, wall);
      if found.Err? then (db1, Err(found.error))
      else
        var d := found.value;
        if d !in db1.grants || !db1.grants[d].status.Pending? then (db1, Err(Denied))
        else if !ClockOk(wall2) then (db1, Err(Invalid))
        else
          var now := Now(db1, wall2);
          if db1.grants[d].expires <= now then (db1, Err(Denied))
          else
            var g := db1.grants[d].(status := if approve then Approved else Rejected, days := Some(days),
                                    approver := Some(owner.subject));
            (Checkpoint(db1.(grants := db1.grants[d := g]), now), Ok(()))
  }

  datatype Poll = Expired410 | Claimed409 | Denied403 | SlowDown429 | Pending200 | Issued(credential: string)

  function PollAnswer(db: Db, g: Grant, now: int): Option<Poll> {
    if g.expires <= now || g.generation != db.generation then Some(Expired410)
    else if g.status.Claimed? then Some(Claimed409)
    else if g.status.Rejected? then Some(Denied403)
    else if g.pollAfter > now then Some(SlowDown429)
    else None
  }

  /** First transaction of `device_poll`: pace the poller and answer, or (None) go on to mint. */
  function PollPace(db: Db, device: string, wall: int): (r: (Db, Option<Result<Poll, Error>>))
    ensures OnlyGrants(db, r.0) && r.0.budget == db.budget
    ensures r.1.None? ==> device in r.0.grants && r.0.grants[device].approver.Some? && r.0.grants[device].days.Some?
  {
    if !ClockOk(wall) then (db, Some(Err(Invalid)))
    else if device !in db.grants then (db, Some(Err(Denied)))
    else
      var now := Now(db, wall);
      var g := db.grants[device];
      match PollAnswer(db, g, now)
      case Some(answer) => (Checkpoint(db, now), Some(Ok(answer)))
      case None =>
        var paced := Checkpoint(db.(grants := db.grants[device := g.(pollAfter := Wrap(now + 5))]), now);
        (paced,
         if g.status.Pending? then Some(Ok(Pending200))
         else if g.approver.None? || g.days.None? then Some(Err(Invalid))
         else None)
  }

  /** `device_poll`; the process may die (`crash`) between pacing the poller and minting. */
  function DevicePoll(db: Db, lim: Limits, device: string, wall: int, wall2: int, id: string, secret: string,
                      crash: bool): (Db, Result<Poll, Error>) {
    var (paced, answer) := PollPace(db, device, wall);
    if answer.Some? then (paced, answer.value)
    else if crash then (paced, Err(Storage))
    else
      var (minted, r) := MintForGrant(paced, lim, paced.grants[device], device, wall2, id, secret);
      (minted, if r.Ok? then Ok(Issued(r.value)) else Err(r.error))
  }

  function MintForGrant(db: Db, lim: Limits, g: Grant, device: string, wall: int, id: string, secret: string)
    : (Db, Result<string, Error>)
    requires g.approver.Some? && g.days.Some?
  {
    Mint(db, lim, Owner(db.identity, g.approver.value), g.nameOk, g.days.value * DAY,
         Some(Endpoint(g.key, g.nameOk, g.key !in db.agents)), Some(device), id, secret, wall)
  }
}
