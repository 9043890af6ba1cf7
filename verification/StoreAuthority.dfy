/** Who may change the credential store, how, and exactly when: each transaction on the tables before the call. */
module StoreAuthority {
  import opened Prelude
  import opened CredentialFormat
  import opened CredentialStore
  import opened CredentialRuns
  import opened AdmissionRules

  // ---------------------------------------------------------------- names

  // ASCII, by number.
  ghost predicate Alphanumeric(c: char) {
    var n := c as int;
    48 <= n <= 57 || 65 <= n <= 90 || 97 <= n <= 122
  }

  ghost predicate NameChar(c: char) {
    Alphanumeric(c) || c == '_' || c == '-'
  }

  ghost predicate Name(v: string) {
    1 <= |v| <= 128 && forall c :: c in v ==> NameChar(c)
  }

  /** A key of an endpoint: shorter, and starting with a letter or digit. */
  ghost predicate EndpointKey(v: string) {
    1 <= |v| <= 64 && Alphanumeric(v[0]) && forall c :: c in v ==> NameChar(c)
  }

  lemma CharsAre(v: string)
    ensures (forall i :: 0 <= i < |v| ==> IdentifierChar(v[i])) <==> forall c :: c in v ==> NameChar(c)
  {
    forall c ensures IdentifierChar(c) <==> NameChar(c) { }
    hide IdentifierChar, NameChar;
    if forall c :: c in v ==> NameChar(c) {
      forall i | 0 <= i < |v| ensures IdentifierChar(v[i]) {
        assert v[i] in v;
      }
    }
  }

  lemma NamesAre(v: string)
    ensures Identifier(v) <==> Name(v)
    ensures ExternalKey(v) <==> EndpointKey(v)
  {
    CharsAre(v);
    if v != "" { assert v[0] in v; }
  }

  /** The caller is an owner of this very store. */
  ghost predicate Owns(db: Db, owner: Owner) {
    owner.binding == db.identity && Name(owner.subject)
  }

  lemma OwnersAre(db: Db, owner: Owner)
    ensures OwnerOk(db, owner) <==> Owns(db, owner)
  {
    NamesAre(owner.subject);
    hide Identifier, Name;
  }

  // ---------------------------------------------------------------- minting

  /** The endpoint is new and there are fewer than 100, or it is known and enabled. */
  ghost predicate EndpointSound(db: Db, e: Endpoint) {
    && EndpointKey(e.key) && e.nameOk
    && (if e.register then e.key !in db.agents && |db.agents| < 100 else e.key in db.agents && db.agents[e.key].enabled)
  }

  ghost predicate GrantReady(db: Db, device: string, now: int) {
    && device in db.grants && db.grants[device].status == Approved
    && now < db.grants[device].expires && db.grants[device].generation == db.generation
  }

  ghost predicate Mintable(db: Db, lim: Limits, owner: Owner, nameOk: bool, ttl: int, endpoint: Option<Endpoint>,
                           device: Option<string>, id: string, wall: int) {
    var now := Now(db, wall);
    && Owns(db, owner) && nameOk && 1 <= ttl <= 7_776_000 && Time(wall) && Time(now + ttl)
    && |set k | k in db.tokens && InForce(db, k, now)| < lim.liveTokens && |db.tokens| < lim.tokenRecords
    && (device.Some? ==> GrantReady(db, device.value, now))
    && id !in db.tokens && (endpoint.Some? ==> EndpointSound(db, endpoint.value))
  }

  lemma EndpointExactly(db: Db, e: Endpoint)
    ensures EndpointError(db, e).None? <==> EndpointSound(db, e)
    ensures EndpointError(db, e) == Some(Capacity) ==> |db.agents| >= 100
  {
    NamesAre(e.key);
    hide ExternalKey, EndpointKey;
  }

  lemma LiveAre(db: Db, now: int)
    ensures LiveTokens(db, now) == set k | k in db.tokens && InForce(db, k, now)
  {
  }

  /** What a mint leaves: one token of this generation, its endpoint and its claim, and nothing else. */
  ghost predicate Minted(db: Db, db': Db, owner: Owner, ttl: int, endpoint: Option<Endpoint>, device: Option<string>,
                         id: string, secret: string, now: int) {
    && db'.tokens == db.tokens[id := Token(Verifier(db.digest, db.generation, id, secret), db.generation, now, now + ttl,
                                           owner.subject, None)]
    && db'.bindings == (match endpoint case Some(e) => db.bindings[id := e.key] case None => db.bindings)
    && db'.agents == (match endpoint
                      case Some(e) => if e.register then db.agents[e.key := Agent(true, now)] else db.agents
                      case None => db.agents)
    && db'.grants == (match device
                      case Some(d) =>
                        if d in db.grants then db.grants[d := db.grants[d].(status := Claimed, token := Some(id))] else db.grants
                      case None => db.grants)
    && db' == db.(tokens := db'.tokens, bindings := db'.bindings, agents := db'.agents, grants := db'.grants, highWater := now)
  }

  lemma MintableExactly(db: Db, lim: Limits, owner: Owner, nameOk: bool, ttl: int, endpoint: Option<Endpoint>,
                        device: Option<string>, id: string, wall: int)
    ensures MintError(db, lim, owner, nameOk, ttl, endpoint, device, id, wall).None? <==>
            Mintable(db, lim, owner, nameOk, ttl, endpoint, device, id, wall)
    ensures !Owns(db, owner) ==> MintError(db, lim, owner, nameOk, ttl, endpoint, device, id, wall) == Some(Denied)
  {
    OwnersAre(db, owner);
    LiveAre(db, Now(db, wall));
    if endpoint.Some? { EndpointExactly(db, endpoint.value); }
    hide OwnerOk, Owns, EndpointError, EndpointSound, LiveTokens, InForce;
  }

  lemma MintedIs(db: Db, lim: Limits, owner: Owner, nameOk: bool, ttl: int, endpoint: Option<Endpoint>,
                 device: Option<string>, id: string, secret: string, wall: int)
    ensures var (db', r) := Mint(db, lim, owner, nameOk, ttl, endpoint, device, id, secret, wall);
            var e := MintError(db, lim, owner, nameOk, ttl, endpoint, device, id, wall);
            if e.None? then r == Ok("ext1_" + id + "." + secret) &&
                            Minted(db, db', owner, ttl, endpoint, device, id, secret, Now(db, wall))
            else (db', r) == (db, Err(e.value))
  {
    hide MintError;
  }

  /** A token is minted exactly for an owner, with room, for at most 90 days, a free id, a sound endpoint and a ready grant. */
  lemma MintExactly(db: Db, lim: Limits, owner: Owner, nameOk: bool, ttl: int, endpoint: Option<Endpoint>,
                    device: Option<string>, id: string, secret: string, wall: int)
    ensures var (db', r) := Mint(db, lim, owner, nameOk, ttl, endpoint, device, id, secret, wall);
            && (r.Ok? <==> Mintable(db, lim, owner, nameOk, ttl, endpoint, device, id, wall))
            && (r.Ok? ==> r.value == "ext1_" + id + "." + secret &&
                          Minted(db, db', owner, ttl, endpoint, device, id, secret, Now(db, wall)))
            && (r.Err? ==> db' == db)
            && (!Owns(db, owner) ==> r == Err(Denied))
  {
    hide Mint, MintError, Mintable, Minted, Owns;
    MintableExactly(db, lim, owner, nameOk, ttl, endpoint, device, id, wall);
    MintedIs(db, lim, owner, nameOk, ttl, endpoint, device, id, secret, wall);
  }

  /** So what a mint hands out is let in, by every operation its scope allows, until it expires or is revoked. */
  lemma MintedGetsIn(db: Db, lim: Limits, owner: Owner, nameOk: bool, ttl: int, endpoint: Option<Endpoint>,
                     device: Option<string>, id: string, secret: string, wall: int,
                     op: Operation, wall0: int, wall1: int, request: RequestId)
    requires LowerHex(id, 32) && LowerHex(secret, 64)
    requires Mint(db, lim, owner, nameOk, ttl, endpoint, device, id, secret, wall).1.Ok? && id !in db.bindings
    requires db.reviewed && Time(wall0) && Time(wall1)
    requires wall0 < Now(db, wall) + ttl && wall1 < Now(db, wall) + ttl
    requires if endpoint.Some? then op != Registry else op == Registry || op == Cli
    requires var now := Now(Mint(db, lim, owner, nameOk, ttl, endpoint, device, id, secret, wall).0, wall1);
             Room(db.audit, id, now, lim) && request !in Remaining(db.audit, id, now, lim)
    ensures var (db', r) := Mint(db, lim, owner, nameOk, ttl, endpoint, device, id, secret, wall);
            Admit(db', lim, r.value, op, wall0, wall1, request).1.Ok?
  {
    MintExactly(db, lim, owner, nameOk, ttl, endpoint, device, id, secret, wall);
    hide Mint, Admit, Room, Remaining, LowerHex;
    var (db', r) := Mint(db, lim, owner, nameOk, ttl, endpoint, device, id, secret, wall);
    AdmittedExactly(db', lim, r.value, op, wall0, wall1, request);
    assert Genuine(db', r.value, id, secret);
    assert Admissible(db', lim, id, op, wall0, wall1, request);
  }

  // ---------------------------------------------------------------- taking away

  ghost function WithRevoked(tokens: map<string, Token>, id: string, now: int): map<string, Token> {
    if id in tokens && tokens[id].revokedAt == None then tokens[id := tokens[id].(revokedAt := Some(now))] else tokens
  }

  /** An owner revokes any token; one that was revoked before keeps the time of that. */
  lemma RevokeExactly(db: Db, owner: Owner, id: string, wall: int)
    ensures var (db', r) := Revoke(db, owner, id, wall);
            && (r.Ok? <==> Owns(db, owner) && LowerHex(id, 32) && Time(wall)) && (!Owns(db, owner) ==> r == Err(Denied))
            && db' == if r.Ok? then db.(tokens := WithRevoked(db.tokens, id, Now(db, wall)), highWater := Now(db, wall)) else db
  {
    OwnersAre(db, owner);
    HexIs(id, 32);
    hide OwnerOk, Owns, Hex, LowerHex;
  }

  ghost predicate MayRevokeCreated(db: Db, permit: Permit, id: string) {
    && permit.binding == db.digest && permit.generation == db.generation && permit.operation == Registry
    && permit.token !in db.bindings
    && id in db.tokens && id in db.bindings && db.tokens[id].creator == permit.token && db.tokens[id].generation == db.generation
  }

  /** A registry permit revokes exactly the endpoint tokens that its own token created in this generation. */
  lemma RevokeCreatedExactly(db: Db, permit: Permit, id: string, wall: int)
    ensures var (db', r) := RevokeCreated(db, permit, id, wall);
            && (r.Ok? <==> MayRevokeCreated(db, permit, id) && LowerHex(id, 32) && Time(wall))
            && db' == if r.Ok? then db.(tokens := WithRevoked(db.tokens, id, Now(db, wall)), highWater := Now(db, wall)) else db
  {
    HexIs(id, 32);
    hide Hex, LowerHex;
  }

  /** An owner turns the API on or off. */
  lemma ReviewExactly(db: Db, owner: Owner, enabled: bool, wall: int)
    ensures var (db', r) := Review(db, owner, enabled, wall);
            && (r.Ok? <==> Owns(db, owner) && Time(wall))
            && db' == if r.Ok? then db.(reviewed := enabled, highWater := Now(db, wall)) else db
  {
    OwnersAre(db, owner);
    hide OwnerOk, Owns;
  }

  /** An owner starts a new generation: the API is off and no token is in force. */
  lemma RotateExactly(db: Db, owner: Owner, generation: string, wall: int)
    ensures var (db', r) := Rotate(db, owner, generation, wall);
            && (r.Ok? <==> Owns(db, owner) && Time(wall))
            && (r.Err? ==> db' == db)
            && (r.Ok? ==>
                  && db' == db.(generation := generation, reviewed := false, tokens := db'.tokens, highWater := Now(db, wall))
                  && db'.tokens.Keys == db.tokens.Keys
                  && forall k :: k in db.tokens ==> db'.tokens[k] == WithRevoked(db.tokens, k, Now(db, wall))[k])
  {
    OwnersAre(db, owner);
    hide OwnerOk, Owns;
  }

  // ---------------------------------------------------------------- rows

  ghost predicate RowIs(db: Db, p: Permit, outcome: Outcome) {
    && p.binding == db.digest && p.request in db.audit && db.audit[p.request].outcome == outcome
    && db.audit[p.request].token == p.token && db.audit[p.request].generation == p.generation
  }

  ghost predicate Usable(db: Db, p: Permit, now: int) {
    && db.reviewed && p.generation == db.generation && InForce(db, p.token, now)
    && (p.token in db.bindings ==> db.bindings[p.token] in db.agents && db.agents[db.bindings[p.token]].enabled)
  }

  /**
   * A permit is dispatched exactly if its row is still reserved, its token in force, its endpoint enabled and the API on.
   * A refusal releases the reservation, unless the process dies first.
   */
  lemma DispatchExactly(db: Db, p: Permit, wall: int, wall2: int, crash: bool)
    ensures var (db', r) := Dispatch(db, p, wall, wall2, crash);
            && (r.Ok? <==> RowIs(db, p, Reserved) && Time(wall) && Usable(db, p, Now(db, wall)))
            && (r.Ok? ==> db' == db.(audit := db.audit[p.request := db.audit[p.request].(outcome := Dispatched)],
                                     highWater := Now(db, wall)))
            && (r.Err? && (crash || p.binding != db.digest || !Time(wall2)) ==> db' == db)
            && (r.Err? && !crash && p.binding == db.digest && Time(wall2) ==> Released(db, db', p, Now(db, wall2)))
            && (r == Err(Disabled) ==> p.generation != db.generation || !db.reviewed)
  {
    ReleaseExactly(db, p, wall2);
    hide Release, Released;
  }

  ghost predicate Released(db: Db, db': Db, p: Permit, now: int) {
    if RowIs(db, p, Reserved)
    then db' == db.(audit := db.audit[p.request := db.audit[p.request].(outcome := Unavailable, ended := Some(now))],
                    highWater := now)
    else db' == db.(highWater := now)
  }

  /** A release closes a reservation that is still one, and leaves every other row. */
  lemma ReleaseExactly(db: Db, p: Permit, wall: int)
    ensures var (db', r) := Release(db, p, wall);
            && (r.Ok? <==> p.binding == db.digest && Time(wall))
            && (r.Ok? ==> Released(db, db', p, Now(db, wall))) && (r.Err? ==> db' == db)
  {
  }

  /** A result is recorded exactly for a dispatched row, whatever became of the token. */
  lemma FinishExactly(db: Db, p: Permit, f: Final, wall: int)
    ensures var (db', r) := Finish(db, p, f, wall);
            && (r.Ok? <==> RowIs(db, p, Dispatched) && Time(wall))
            && (r.Ok? ==> ClosedAs(db, db', p.request, f) && db' == db.(audit := db'.audit, highWater := Now(db, wall)))
            && (r.Err? ==> db' == db)
  {
  }

  ghost predicate LongClosed(row: Row, now: int) {
    && (row.outcome == Completed || row.outcome == PolicyDenied || row.outcome == Unavailable)
    && row.ended.Some? && row.ended.value < now - 2_592_000
  }

  /** Maintenance drops the rows that were closed over 30 days ago, and says how many. */
  lemma MaintenanceExactly(db: Db, owner: Owner, wall: int)
    ensures var (db', r) := Maintenance(db, owner, wall);
            && (r.Ok? <==> Owns(db, owner) && Time(wall)) && (r.Err? ==> db' == db)
            && (r.Ok? ==>
                  && db' == db.(audit := map x | x in db.audit && !LongClosed(db.audit[x], Now(db, wall)) :: db.audit[x],
                                highWater := Now(db, wall))
                  && r.value == |set x | x in db.audit && LongClosed(db.audit[x], Now(db, wall))|)
  {
    OwnersAre(db, owner);
    hide OwnerOk, Owns;
    assert Expired(db.audit, Now(db, wall)) == set x | x in db.audit && LongClosed(db.audit[x], Now(db, wall));
  }

  ghost predicate CapsSound(lim: Limits) {
    && 1 <= lim.liveTokens <= 100 && 1 <= lim.tokenRecords <= 1000 && 1 <= lim.auditRows <= 100_000
    && 1 <= lim.auditPerToken <= 1000 && 1 <= lim.concurrent <= 8 && 1 <= lim.concurrentPerToken <= 2
  }

  /** A restart on the same identity, with sane limits, turns every row in flight into an unknown one, and nothing else. */
  lemma OpenExactly(db: Db, identity: Binding, lim: Limits)
    ensures var (db', r) := Open(db, identity, lim);
            && (r.Ok? <==> CapsSound(lim) && identity == db.identity &&
                           Name(identity.workspace) && Name(identity.app) && Name(identity.agent))
            && (r == Err(PrivateStorage) ==> identity != db.identity)
            && (r.Err? ==> db' == db)
            && (r.Ok? ==> db' == db.(audit := db'.audit) && db'.audit.Keys == db.audit.Keys && forall x :: x in db.audit ==>
                  db'.audit[x] == if db.audit[x].outcome in {Reserved, Dispatched}
                                  then db.audit[x].(outcome := Unknown, ended := None) else db.audit[x])
  {
    NamesAre(identity.workspace);
    NamesAre(identity.app);
    NamesAre(identity.agent);
    hide Identifier, Name;
  }

  // ---------------------------------------------------------------- device grants

  /** What is left of the grants once those expired for a day are dropped. */
  ghost function Current(grants: map<string, Grant>, now: int): map<string, Grant> {
    map d | d in grants && grants[d].expires > now - 86_400 :: grants[d]
  }

  // Waiting for an owner, or approved and not collected.
  ghost predicate Waiting(g: Grant, now: int) {
    now < g.expires && (g.status == Pending || g.status == Approved)
  }

  ghost predicate Requestable(db: Db, key: string, nameOk: bool, ttl: int, device: string, user: string, wall: int) {
    var kept := Current(db.grants, Now(db, wall));
    && EndpointKey(key) && nameOk && 60 <= ttl <= 1800 && Time(wall)
    && |set d | d in kept && Waiting(kept[d], Now(db, wall))| < 100 && |kept| < 1000
    && device !in kept && forall d :: d in kept ==> kept[d].user != user
  }

  lemma CurrentAre(db: Db, now: int)
    ensures db.grants - OldGrants(db, now) == Current(db.grants, now)
    ensures OpenGrants(Current(db.grants, now), now) ==
            set d | d in Current(db.grants, now) && Waiting(Current(db.grants, now)[d], now)
  {
  }

  lemma RequestableExactly(db: Db, key: string, nameOk: bool, ttl: int, device: string, user: string, wall: int)
    ensures RequestError(db, key, nameOk, ttl, device, user, wall).None? <==> Requestable(db, key, nameOk, ttl, device, user, wall)
  {
    NamesAre(key);
    CurrentAre(db, Now(db, wall));
    hide ExternalKey, EndpointKey, OldGrants, OpenGrants, Waiting, Current;
  }

  /** Anyone may ask, within the caps; the new grant waits for an owner, in this generation and for as long as was asked. */
  lemma RequestExactly(db: Db, key: string, nameOk: bool, ttl: int, device: string, user: string, wall: int)
    ensures var (db', r) := DeviceRequest(db, key, nameOk, ttl, device, user, wall);
            var now := Now(db, wall);
            && (r.Ok? <==> Requestable(db, key, nameOk, ttl, device, user, wall)) && (r.Err? ==> db' == db)
            && (r.Ok? ==>
                  && device in db'.grants
                  && db' == db.(grants := Current(db.grants, now)[device := db'.grants[device]], highWater := now)
                  && var g := db'.grants[device];
                     && g.user == user && g.key == key && g.nameOk == nameOk && g.created == now && g.pollAfter == now
                     && g.generation == db.generation && g.status == Pending && g.days == None && g.approver == None && g.token == None
                     && (Time(now + ttl) ==> g.expires == now + ttl))
  {
    RequestableExactly(db, key, nameOk, ttl, device, user, wall);
    CurrentAre(db, Now(db, wall));
    hide RequestError, Requestable, OldGrants, Current;
  }

  ghost predicate OpenFor(db: Db, d: string, user: string, now: int) {
    d in db.grants && db.grants[d].user == user && now < db.grants[d].expires && db.grants[d].generation == db.generation
  }

  // The attempts of this minute, this one included.
  ghost function Attempts(db: Db, now: int): int {
    match db.budget case Some(b) => if b.minute == now / 60 then b.attempts + 1 else 1 case None => 1
  }

  /** A lookup by an owner is counted first, then answered for the code of an open grant if it is among the first 30. */
  lemma LookupExactly(db: Db, owner: Owner, user: Option<string>, wall: int)
    ensures var (db', r) := Lookup(db, owner, user, wall);
            var now := Now(db, wall);
            var counted := Owns(db, owner) && Time(wall);
            && db' == (if counted then db.(budget := Some(Budget(now / 60, Attempts(db, now))), highWater := now) else db)
            && (r.Ok? <==> counted && Attempts(db, now) <= 30 && user.Some? && exists d :: OpenFor(db, d, user.value, now))
            && (r.Ok? ==> OpenFor(db, r.value, user.value, now))
            && (counted && Attempts(db, now) > 30 ==> r == Err(Capacity))
  {
    OwnersAre(db, owner);
    hide OwnerOk, Owns;
    var now := Now(db, wall);
    var db1 := Checkpoint(db.(budget := Some(SpendAttempt(db.budget, now / 60))), now);
    if user.Some? {
      if d :| OpenFor(db, d, user.value, now) { assert d in db1.grants && OpenTo(db1.grants[d], user.value, now, db1.generation); }
      if UserHasGrant(db1, user.value, now) { assert OpenFor(db, UserGrant(db1, user.value, now), user.value, now); }
    }
  }

  /**
   * A decision is made exactly by an owner, confirmed and for 30 or 90 days if it approves, on a grant that the lookup
   * finds, that is still pending and not expired at the second reading of the clock.
   */
  lemma DecideExactly(db: Db, owner: Owner, user: Option<string>, approve: bool, days: int, confirmed: bool, wall: int, wall2: int)
    ensures var (db', r) := Decide(db, owner, user, approve, days, confirmed, wall, wall2);
            var (db1, found) := Lookup(db, owner, user, wall);
            var sound := approve ==> confirmed && (days == 30 || days == 90);
            && (!sound ==> r == Err(Invalid) && db' == db)
            && (r.Ok? <==> && sound && found.Ok? && db1.grants[found.value].status == Pending && Time(wall2)
                           && Now(db1, wall2) < db1.grants[found.value].expires)
            && (sound && r.Err? ==> db' == db1)
            && (r.Ok? ==> db' == db1.(highWater := Now(db1, wall2), grants := db1.grants[found.value :=
                            db1.grants[found.value].(status := if approve then Approved else Rejected, days := Some(days),
                                                     approver := Some(owner.subject))]))
  {
    LookupExactly(db, owner, user, wall);
    hide Lookup, Owns;
  }

  // Expired, or of an earlier generation.
  ghost predicate Over(db: Db, g: Grant, now: int) {
    now >= g.expires || g.generation != db.generation
  }

  // The poll comes in time, and not too soon.
  ghost predicate Due(db: Db, g: Grant, now: int) {
    !Over(db, g, now) && (g.status == Pending || g.status == Approved) && now >= g.pollAfter
  }

  /** What a poll is told before a mint is tried: expiry, then claim, rejection and pace; None is to go on. */
  lemma PaceExactly(db: Db, device: string, wall: int)
    requires Time(wall) && device in db.grants
    ensures var answer := PollPace(db, device, wall).1;
            var g, now := db.grants[device], Now(db, wall);
            && (answer == Some(Ok(Expired410)) <==> Over(db, g, now))
            && (answer == Some(Ok(Claimed409)) <==> !Over(db, g, now) && g.status == Claimed)
            && (answer == Some(Ok(Denied403)) <==> !Over(db, g, now) && g.status == Rejected)
            && (answer == Some(Ok(SlowDown429)) <==>
                  !Over(db, g, now) && (g.status == Pending || g.status == Approved) && now < g.pollAfter)
            && (answer == Some(Ok(Pending200)) <==> Due(db, g, now) && g.status == Pending)
            && (answer.None? <==> Due(db, g, now) && g.status == Approved && g.approver.Some? && g.days.Some?)
  {
    hide OnlyGrants;
  }

  /** A poll in time moves the next one five seconds on, and changes nothing else. */
  lemma PaceMeans(db: Db, device: string, wall: int)
    ensures var db' := PollPace(db, device, wall).0;
            var now := Now(db, wall);
            if !(Time(wall) && device in db.grants) then db' == db
            else if Due(db, db.grants[device], now) then
              && device in db'.grants
              && db' == db.(highWater := now,
                            grants := db.grants[device := db.grants[device].(pollAfter := db'.grants[device].pollAfter)])
              && (Time(now + 5) ==> db'.grants[device].pollAfter == now + 5)
            else db' == db.(highWater := now)
  {
    hide OnlyGrants;
  }

  /**
   * A poll that is told nothing else collects a token: for the days and by the authority of the owner who approved,
   * bound to the key that the device asked for, which is registered if it is new.
   */
  lemma CollectExactly(db: Db, lim: Limits, device: string, wall: int, wall2: int, id: string, secret: string)
    requires PollPace(db, device, wall).1.None?
    ensures var paced := PollPace(db, device, wall).0;
            var g := paced.grants[device];
            var owner, ttl := Owner(db.identity, g.approver.value), g.days.value * 86_400;
            var endpoint := Some(Endpoint(g.key, g.nameOk, g.key !in db.agents));
            var (db', r) := DevicePoll(db, lim, device, wall, wall2, id, secret, false);
            && (r.Ok? <==> Mintable(paced, lim, owner, g.nameOk, ttl, endpoint, Some(device), id, wall2))
            && (r.Ok? ==> r.value == Issued("ext1_" + id + "." + secret) &&
                          Minted(paced, db', owner, ttl, endpoint, Some(device), id, secret, Now(paced, wall2)))
            && (r.Err? ==> db' == paced)
            && DevicePoll(db, lim, device, wall, wall2, id, secret, true).0 == paced
  {
    hide PollPace, Mint, Mintable, Minted;
    var paced := PollPace(db, device, wall).0;
    var g := paced.grants[device];
    MintExactly(paced, lim, Owner(paced.identity, g.approver.value), g.nameOk, g.days.value * DAY,
                Some(Endpoint(g.key, g.nameOk, g.key !in paced.agents)), Some(device), id, secret, wall2);
    var (minted, r) := MintForGrant(paced, lim, g, device, wall2, id, secret);
    assert DevicePoll(db, lim, device, wall, wall2, id, secret, false) ==
           (minted, if r.Ok? then Ok(Issued(r.value)) else Err(r.error));
  }

  // ---------------------------------------------------------------- who did it

  /** The step is one that an owner of this store asked for. */
  ghost predicate ByOwner(db: Db, s: Step) {
    && (s.MintStep? || s.RevokeStep? || s.ReviewStep? || s.RotateStep? || s.DecideStep? || s.LookupStep? || s.MaintenanceStep?)
    && Owns(db, s.owner)
  }

  // What a step did to the tokens and switches.
  ghost predicate Authored(db: Db, db': Db, s: Step, k: string) {
    && (db'.reviewed != db.reviewed ==> ByOwner(db, s) && (s.ReviewStep? || s.RotateStep?))
    && (db'.generation != db.generation ==> ByOwner(db, s) && s.RotateStep?)
    && (k in db.tokens ==> k in db'.tokens)
    && (k in db.tokens && db'.tokens[k] != db.tokens[k] ==>
          || (ByOwner(db, s) && (s.RotateStep? || (s.RevokeStep? && s.id == k)))
          || (s.RevokeCreatedStep? && s.id == k && MayRevokeCreated(db, s.permit, k)))
    && (k !in db.tokens && k in db'.tokens ==> ((s.MintStep? && ByOwner(db, s)) || s.PollStep?) && s.id == k)
  }

  lemma PollAuthored(db: Db, lim: Limits, s: Step, k: string)
    requires s.PollStep?
    ensures Authored(db, DevicePoll(db, lim, s.device, s.wall, s.wall2, s.id, s.secret, s.crash).0, s, k)
  {
    hide Mint, PollPace, Mintable, ByOwner, MayRevokeCreated;
    var (paced, answer) := PollPace(db, s.device, s.wall);
    if answer.None? && !s.crash {
      var g := paced.grants[s.device];
      MintExactly(paced, lim, Owner(paced.identity, g.approver.value), g.nameOk, g.days.value * DAY,
                  Some(Endpoint(g.key, g.nameOk, g.key !in paced.agents)), Some(s.device), s.id, s.secret, s.wall2);
      MintedByOwner(paced, lim, Owner(paced.identity, g.approver.value), g.nameOk, g.days.value * DAY,
                    Some(Endpoint(g.key, g.nameOk, g.key !in paced.agents)), Some(s.device), s.id, s.wall2);
      var (minted, r) := MintForGrant(paced, lim, g, s.device, s.wall2, s.id, s.secret);
      assert minted.reviewed == paced.reviewed && minted.generation == paced.generation;
      assert minted.tokens == paced.tokens ||
             (s.id !in paced.tokens && s.id in minted.tokens && minted.tokens == paced.tokens[s.id := minted.tokens[s.id]]);
    }
  }

  lemma OwnerAuthored(db: Db, lim: Limits, s: Step, k: string)
    requires s.RevokeStep? || s.RevokeCreatedStep? || s.ReviewStep? || s.RotateStep?
    ensures Authored(db, Effect(db, lim, s).0, s, k)
  {
    hide Revoke, RevokeCreated, Review, Rotate, Owns, MayRevokeCreated, LowerHex;
    match s
    case RevokeStep(owner, id, wall) => RevokeExactly(db, owner, id, wall);
    case RevokeCreatedStep(permit, id, wall) => RevokeCreatedExactly(db, permit, id, wall);
    case ReviewStep(owner, enabled, wall) => ReviewExactly(db, owner, enabled, wall);
    case RotateStep(owner, generation, wall) => RotateExactly(db, owner, generation, wall);
  }

  lemma MintAuthored(db: Db, lim: Limits, s: Step, k: string)
    requires s.MintStep?
    ensures Authored(db, Mint(db, lim, s.owner, s.nameOk, s.ttl, s.endpoint, None, s.id, s.secret, s.wall).0, s, k)
  {
    hide Mint, Owns, Mintable;
    MintExactly(db, lim, s.owner, s.nameOk, s.ttl, s.endpoint, None, s.id, s.secret, s.wall);
    MintedByOwner(db, lim, s.owner, s.nameOk, s.ttl, s.endpoint, None, s.id, s.wall);
  }

  lemma MintedByOwner(db: Db, lim: Limits, owner: Owner, nameOk: bool, ttl: int, endpoint: Option<Endpoint>,
                      device: Option<string>, id: string, wall: int)
    ensures Mintable(db, lim, owner, nameOk, ttl, endpoint, device, id, wall) ==> Owns(db, owner) && id !in db.tokens
  {
  }

  /**
   * In one step, of any kind: only an owner switches the API, only an owner starts a generation, a token is revoked only
   * by an owner or by the registry token that created it, and tokens come only from an owner's mint or a granted poll.
   */
  lemma ChangesHaveAuthors(db: Db, lim: Limits, s: Step, k: string)
    requires db.highWater <= I64_MAX
    ensures Authored(db, Effect(db, lim, s).0, s, k)
  {
    hide Admit, Lookup, Decide, DeviceRequest, Mint, DevicePoll, Release, Dispatch, Finish, Maintenance, Open, Revoke,
         RevokeCreated, Review, Rotate, ByOwner, MayRevokeCreated;
    if s.PollStep? {
      PollAuthored(db, lim, s, k);
    } else if s.MintStep? {
      MintAuthored(db, lim, s, k);
    } else if s.RevokeStep? || s.RevokeCreatedStep? || s.ReviewStep? || s.RotateStep? {
      OwnerAuthored(db, lim, s, k);
    } else if s.AdmitStep? {
      AdmitOnlyAudit(db, lim, s);
    }
  }
}
