/** Device grants: each mints at most one token, and is claimed exactly by the transaction that mints it. */
module DeviceGrants {
  import opened Prelude
  import opened CredentialStore
  import opened CredentialRuns

  ghost predicate OfDevice(e: Event, d: string) {
    (e.Requested? || e.Minted?) && e.device == d
  }

  ghost function LatestOf(log: seq<Event>, d: string): Option<Event> {
    if log == [] then None
    else if OfDevice(log[|log| - 1], d) then Some(log[|log| - 1])
    else LatestOf(log[..|log| - 1], d)
  }

  /** A mint directly follows, among its device's events, the request that created the grant. */
  ghost predicate MintedOnce(log: seq<Event>) {
    forall i :: 0 <= i < |log| && log[i].Minted? ==> LatestOf(log[..i], log[i].device) == Some(Requested(log[i].device))
  }

  // A grant names a token exactly when claimed; that token exists and is bound to the grant's key.
  ghost predicate GrantOk(tokens: set<string>, bindings: map<string, string>, g: Grant) {
    && (g.status.Claimed? <==> g.token.Some?)
    && (g.token.Some? ==>
          g.token.value in tokens && g.token.value in bindings && bindings[g.token.value] == g.key)
    && (g.status.Approved? ==> g.approver.Some? && g.days.Some?)
  }

  ghost predicate GrantsOk(db: Db) {
    && db.bindings.Keys <= db.tokens.Keys
    && (forall d :: d in db.grants ==> GrantOk(db.tokens.Keys, db.bindings, db.grants[d]))
    && (forall d, e :: d in db.grants && e in db.grants && d != e && db.grants[d].token.Some? ==>
          db.grants[d].token != db.grants[e].token)
  }

  ghost predicate Recorded(log: seq<Event>, d: string, g: Grant) {
    LatestOf(log, d) == Some(if g.token.Some? then Minted(d, g.token.value) else Requested(d))
  }

  ghost predicate Inv(w: World) {
    && GrantsOk(w.db) && MintedOnce(w.log)
    && forall d :: d in w.db.grants ==> Recorded(w.log, d, w.db.grants[d])
  }

  // ---------------------------------------------------------------- the tables

  // The grant table after a step, as far as claims are concerned.
  ghost predicate GrantsMove(a: Db, b: Db, e: Option<Event>) {
    && (forall d :: d in b.grants ==> GrantMoves(a, b, d, e))
    && (e.Some? && e.value.Requested? ==> e.value.device in b.grants)
    && (e.Some? && e.value.Minted? ==>
          e.value.device in a.grants && a.grants[e.value.device].token.None? && e.value.device in b.grants)
  }

  ghost predicate GrantMoves(a: Db, b: Db, d: string, e: Option<Event>)
    requires d in b.grants
  {
    if e.Some? && OfDevice(e.value, d) then
      if e.value.Requested? then b.grants[d].token.None?
      else b.grants[d].token == Some(e.value.id)
    else d in a.grants && b.grants[d].token == a.grants[d].token
  }

  lemma SameGrantsMove(a: Db, b: Db)
    requires b.grants == a.grants
    ensures GrantsMove(a, b, None)
  {
  }

  lemma SameGrantsOk(a: Db, b: Db)
    requires GrantsOk(a) && b.grants == a.grants && b.bindings == a.bindings && a.tokens.Keys <= b.tokens.Keys
    ensures GrantsOk(b)
  {
  }

  lemma UpdateGrantOk(a: Db, b: Db, d: string, g: Grant)
    requires GrantsOk(a) && d in a.grants && b.grants == a.grants[d := g]
    requires b.bindings == a.bindings && b.tokens == a.tokens
    requires g.token == a.grants[d].token && g.key == a.grants[d].key
    requires g.status.Claimed? <==> a.grants[d].status.Claimed?
    requires g.status.Approved? ==> g.approver.Some? && g.days.Some?
    ensures GrantsOk(b) && GrantsMove(a, b, None)
  {
  }

  lemma NewGrantMoves(a: Db, b: Db, gone: set<string>, device: string, g: Grant)
    requires GrantsOk(a) && b.bindings == a.bindings && b.tokens == a.tokens
    requires b.grants == (a.grants - gone)[device := g]
    requires g.status.Pending? && g.token.None?
    ensures GrantsOk(b) && GrantsMove(a, b, Some(Requested(device)))
  {
  }

  lemma RequestMoves(db: Db, key: string, nameOk: bool, ttl: int, device: string, user: string, wall: int)
    requires GrantsOk(db)
    ensures var (db', r) := DeviceRequest(db, key, nameOk, ttl, device, user, wall);
            GrantsOk(db') && GrantsMove(db, db', if r.Ok? then Some(Requested(device)) else None)
  {
    hide GrantsOk, GrantsMove, OldGrants, DeviceRequest;
    var (db', r) := DeviceRequest(db, key, nameOk, ttl, device, user, wall);
    if r.Ok? {
      NewGrantMoves(db, db', OldGrants(db, Now(db, wall)), device, db'.grants[device]);
    } else {
      SameGrantsMove(db, db');
    }
  }

  lemma DecideMoves(db: Db, owner: Owner, code: Option<string>, approve: bool, days: int, confirmed: bool,
                    wall: int, wall2: int)
    requires GrantsOk(db)
    ensures var db' := Decide(db, owner, code, approve, days, confirmed, wall, wall2).0;
            GrantsOk(db') && GrantsMove(db, db', None)
  {
    var (db', r) := Decide(db, owner, code, approve, days, confirmed, wall, wall2);
    if r.Ok? {
      var d := Lookup(db, owner, code, wall).1.value;
      hide Lookup;
      UpdateGrantOk(db, db', d, db'.grants[d]);
    } else {
      SameGrantsOk(db, db');
      SameGrantsMove(db, db');
    }
  }

  lemma PaceMoves(db: Db, device: string, wall: int)
    requires GrantsOk(db)
    ensures var db' := PollPace(db, device, wall).0; GrantsOk(db') && GrantsMove(db, db', None)
  {
    hide GrantsMove;
    var db' := PollPace(db, device, wall).0;
    if db'.grants == db.grants {
      SameGrantsOk(db, db');
      SameGrantsMove(db, db');
    } else {
      UpdateGrantOk(db, db', device, db'.grants[device]);
    }
  }

  // The grant, token and binding that one successful claim writes.
  lemma ClaimMoves(a: Db, b: Db, device: string, id: string)
    requires GrantsOk(a) && device in a.grants && a.grants[device].status.Approved? && id !in a.tokens
    requires b.tokens.Keys == a.tokens.Keys + {id}
    requires b.bindings == a.bindings[id := a.grants[device].key]
    requires b.grants == a.grants[device := a.grants[device].(status := Claimed, token := Some(id))]
    ensures GrantsOk(b) && GrantsMove(a, b, Some(Minted(device, id)))
  {
  }

  lemma NewTokenOk(a: Db, b: Db, id: string)
    requires GrantsOk(a) && b.grants == a.grants && id !in a.tokens
    requires b.tokens.Keys == a.tokens.Keys + {id}
    requires b.bindings == a.bindings || (id in b.bindings && b.bindings == a.bindings[id := b.bindings[id]])
    ensures GrantsOk(b)
  {
  }

  lemma MintMoves(db: Db, lim: Limits, owner: Owner, nameOk: bool, ttl: int, endpoint: Option<Endpoint>,
                  id: string, secret: string, wall: int)
    requires GrantsOk(db)
    ensures var db' := Mint(db, lim, owner, nameOk, ttl, endpoint, None, id, secret, wall).0;
            GrantsOk(db') && GrantsMove(db, db', None)
  {
    hide GrantsOk, GrantsMove, MintError, LiveTokens, Mint;
    var (db', r) := Mint(db, lim, owner, nameOk, ttl, endpoint, None, id, secret, wall);
    MintFails(db, lim, owner, nameOk, ttl, endpoint, None, id, secret, wall);
    if r.Ok? {
      MintOk(db, lim, owner, nameOk, ttl, endpoint, None, id, secret, wall);
      NewTokenOk(db, db', id);
    }
    SameGrantsMove(db, db');
  }

  lemma PollMoves(db: Db, lim: Limits, device: string, wall: int, wall2: int, id: string, secret: string, crash: bool)
    requires GrantsOk(db)
    ensures var (db', r) := DevicePoll(db, lim, device, wall, wall2, id, secret, crash);
            && GrantsOk(db')
            && GrantsMove(db, db', if r.Ok? && r.value.Issued? then Some(Minted(device, id)) else None)
  {
    PaceMoves(db, device, wall);
    var (paced, answer) := PollPace(db, device, wall);
    PaceNeverIssues(db, device, wall);
    hide PollPace;
    if answer.None? && !crash {
      var (minted, r) := MintForGrant(paced, lim, paced.grants[device], device, wall2, id, secret);
      if r.Ok? {
        ClaimOk(paced, lim, device, wall2, id, secret);
        hide MintForGrant;
        ClaimMoves(paced, minted, device, id);
        MovesTwice(db, paced, minted, device, id);
      }
    }
  }

  lemma PaceNeverIssues(db: Db, device: string, wall: int)
    ensures var answer := PollPace(db, device, wall).1;
            answer.Some? && answer.value.Ok? ==> !answer.value.value.Issued?
  {
  }

  lemma MovesTwice(a: Db, b: Db, c: Db, device: string, id: string)
    requires GrantsMove(a, b, None) && GrantsMove(b, c, Some(Minted(device, id)))
    ensures GrantsMove(a, c, Some(Minted(device, id)))
  {
  }

  /** What a claim that succeeds has found and written. */
  lemma ClaimOk(db: Db, lim: Limits, device: string, wall: int, id: string, secret: string)
    requires device in db.grants && db.grants[device].approver.Some? && db.grants[device].days.Some?
    requires MintForGrant(db, lim, db.grants[device], device, wall, id, secret).1.Ok?
    ensures var db' := MintForGrant(db, lim, db.grants[device], device, wall, id, secret).0;
            && Mintable(db.grants[device], Now(db, wall), db.generation)
            && id !in db.tokens && db'.tokens.Keys == db.tokens.Keys + {id}
            && db'.bindings == db.bindings[id := db.grants[device].key]
            && db'.grants == db.grants[device := db.grants[device].(status := Claimed, token := Some(id))]
  {
    hide LiveTokens, EndpointError, OwnerOk;
  }

  // ---------------------------------------------------------------- runs

  lemma QuietStep(db: Db, lim: Limits, s: Step)
    requires db.highWater <= I64_MAX
    requires !s.MintStep? && !s.RequestStep? && !s.LookupStep? && !s.DecideStep? && !s.PollStep?
    ensures var db' := Effect(db, lim, s).0;
            db'.grants == db.grants && db'.bindings == db.bindings && db'.tokens.Keys == db.tokens.Keys
  {
    hide Admit, Release, Dispatch, Finish, Maintenance, Open, Revoke, RevokeCreated, Review, Rotate;
    if s.AdmitStep? { AdmitOnlyAudit(db, lim, s); }
  }

  ghost function GrantEvent(e: Option<Event>): Option<Event> {
    if e.Some? && (e.value.Requested? || e.value.Minted?) then e else None
  }

  lemma StepMoves(db: Db, lim: Limits, s: Step)
    requires GrantsOk(db) && db.highWater <= I64_MAX
    ensures GrantsOk(Effect(db, lim, s).0)
    ensures GrantsMove(db, Effect(db, lim, s).0, GrantEvent(Effect(db, lim, s).1))
  {
    hide GrantsOk, GrantsMove, DeviceRequest, Decide, DevicePoll, Mint, Admit, Dispatch, Finish, Lookup;
    match s
    case RequestStep(key, nameOk, ttl, device, user, wall) =>
      RequestMoves(db, key, nameOk, ttl, device, user, wall);
    case LookupStep(owner, code, wall) =>
      SameGrantsOk(db, Effect(db, lim, s).0);
      SameGrantsMove(db, Effect(db, lim, s).0);
    case DecideStep(owner, code, approve, days, confirmed, wall, wall2) =>
      DecideMoves(db, owner, code, approve, days, confirmed, wall, wall2);
    case PollStep(device, wall, wall2, id, secret, crash) =>
      PollMoves(db, lim, device, wall, wall2, id, secret, crash);
    case MintStep(owner, nameOk, ttl, endpoint, id, secret, wall) =>
      MintMoves(db, lim, owner, nameOk, ttl, endpoint, id, secret, wall);
    case _ =>
      QuietStep(db, lim, s);
      SameGrantsOk(db, Effect(db, lim, s).0);
      SameGrantsMove(db, Effect(db, lim, s).0);
  }

  lemma LatestOfAppend(log: seq<Event>, e: Event, d: string)
    ensures LatestOf(log + [e], d) == if OfDevice(e, d) then Some(e) else LatestOf(log, d)
  {
  }

  lemma AppendMintedOnce(log: seq<Event>, e: Event)
    requires MintedOnce(log)
    requires e.Minted? ==> LatestOf(log, e.device) == Some(Requested(e.device))
    ensures MintedOnce(log + [e])
  {
    var grown := log + [e];
    forall i | 0 <= i < |grown| && grown[i].Minted?
      ensures LatestOf(grown[..i], grown[i].device) == Some(Requested(grown[i].device))
    {
      assert grown[..i] == log[..i];
      assert i == |log| ==> log[..i] == log;
    }
  }

  lemma RecordMoves(log: seq<Event>, a: Db, b: Db, e: Option<Event>)
    requires MintedOnce(log) && GrantsOk(a)
    requires forall d :: d in a.grants ==> Recorded(log, d, a.grants[d])
    requires GrantsMove(a, b, GrantEvent(e))
    ensures MintedOnce(Record(log, e))
    ensures forall d :: d in b.grants ==> Recorded(Record(log, e), d, b.grants[d])
  {
    if e.Some? { AppendMintedOnce(log, e.value); }
    forall d | d in b.grants
      ensures Recorded(Record(log, e), d, b.grants[d])
    {
      assert GrantMoves(a, b, d, GrantEvent(e));
      if e.Some? { LatestOfAppend(log, e.value, d); }
    }
  }

  lemma ApplyMoves(w: World, s: Step)
    requires Inv(w) && DbInv(w.db)
    ensures Inv(Apply(w, s)) && DbInv(Apply(w, s).db)
  {
    StepEvolves(w.db, w.lim, s);
    StepMoves(w.db, w.lim, s);
    hide Effect, GrantsOk, GrantsMove, MintedOnce;
    RecordMoves(w.log, w.db, Effect(w.db, w.lim, s).0, Effect(w.db, w.lim, s).1);
  }

  /**
   * Over any run from a fresh store, with restarts, failed mints, crashes and interleaved polls, a
   * grant mints at most one token; a grant is claimed exactly when it names a token, and that token
   * exists, is bound to the grant's key and belongs to no other grant.
   */
  lemma {:induction false} MintsAtMostOnce(w: World, steps: seq<Step>)
    requires Fresh(w)
    ensures Inv(Run(w, steps)) && DbInv(Run(w, steps).db)
  {
    if steps != [] {
      var before, last := steps[..|steps| - 1], steps[|steps| - 1];
      MintsAtMostOnce(w, before);
      hide Inv, DbInv, Apply;
      ApplyMoves(Run(w, before), last);
    }
  }

  /**
   * A grant becomes claimed in a step exactly when that step mints for it: the new token is in the
   * token table and bound to the grant's key after the step and was in neither before.
   */
  lemma ClaimedByMinting(db: Db, lim: Limits, s: Step, d: string)
    requires GrantsOk(db) && db.highWater <= I64_MAX
    requires d in db.grants && !db.grants[d].status.Claimed?
    ensures var (db', e) := Effect(db, lim, s);
            d in db'.grants && db'.grants[d].status.Claimed? <==> e.Some? && e.value.Minted? && e.value.device == d
    ensures var (db', e) := Effect(db, lim, s);
            e.Some? && e.value.Minted? && e.value.device == d ==>
              && e.value.id !in db.tokens && e.value.id !in db.bindings
              && e.value.id in db'.tokens && e.value.id in db'.bindings && db'.bindings[e.value.id] == db.grants[d].key
              && db'.grants[d].token == Some(e.value.id)
  {
    hide GrantsOk, GrantsMove, DeviceRequest, Decide, DevicePoll, Mint, Admit, Dispatch, Finish, Lookup, Rotate;
    hide Revoke, RevokeCreated, Open, Release, Maintenance, Review;
    StepMoves(db, lim, s);
    if s.PollStep? {
      ClaimedByPoll(db, lim, s.device, s.wall, s.wall2, s.id, s.secret, s.crash);
    }
    var (db', e) := Effect(db, lim, s);
    ClaimFollowsEvent(db, db', e, d);
  }

  lemma ClaimFollowsEvent(a: Db, b: Db, e: Option<Event>, d: string)
    requires GrantsOk(a) && GrantsOk(b) && GrantsMove(a, b, GrantEvent(e))
    requires d in a.grants && !a.grants[d].status.Claimed?
    ensures d in b.grants && b.grants[d].status.Claimed? <==> e.Some? && e.value.Minted? && e.value.device == d
    ensures e.Some? && e.value.Minted? && e.value.device == d ==> b.grants[d].token == Some(e.value.id)
  {
  }

  lemma ClaimedByPoll(db: Db, lim: Limits, device: string, wall: int, wall2: int, id: string, secret: string, crash: bool)
    requires GrantsOk(db)
    ensures var (db', r) := DevicePoll(db, lim, device, wall, wall2, id, secret, crash);
            r.Ok? && r.value.Issued? ==>
              && device in db.grants && id !in db.tokens && id !in db.bindings
              && id in db'.tokens && id in db'.bindings && db'.bindings[id] == db.grants[device].key
  {
    PaceNeverIssues(db, device, wall);
    var (paced, answer) := PollPace(db, device, wall);
    if answer.None? && !crash && MintForGrant(paced, lim, paced.grants[device], device, wall2, id, secret).1.Ok? {
      ClaimOk(paced, lim, device, wall2, id, secret);
      hide MintForGrant;
    }
  }

  /** A poll whose mint fails (or that dies before it) leaves the grant as it was, but for the poll pacing. */
  lemma FailedMintKeepsGrant(db: Db, lim: Limits, device: string, wall: int, wall2: int, id: string, secret: string,
                             crash: bool)
    requires device in db.grants
    requires DevicePoll(db, lim, device, wall, wall2, id, secret, crash).1.Err?
    ensures var db' := DevicePoll(db, lim, device, wall, wall2, id, secret, crash).0;
            && device in db'.grants
            && db'.grants[device] == db.grants[device].(pollAfter := db'.grants[device].pollAfter)
            && db'.tokens == db.tokens && db'.bindings == db.bindings && db'.agents == db.agents
  {
    hide MintError;
  }
}
