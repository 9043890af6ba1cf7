/** Where a use of the store comes from: a credential from a mint, and a device's token from an owner's approval. */
module CredentialOrigins {
  import opened Prelude
  import opened CredentialFormat
  import opened CredentialStore
  import opened CredentialRuns
  import opened DeviceGrants

  // ---------------------------------------------------------------- credentials come from mints

  /** The step handed out the credential text of `id` and `secret`. */
  ghost predicate HandsOut(db: Db, lim: Limits, s: Step, id: string, secret: string) {
    || (s.MintStep? && s.id == id && s.secret == secret &&
        Mint(db, lim, s.owner, s.nameOk, s.ttl, s.endpoint, None, id, secret, s.wall).1 == Ok(Format(id, secret)))
    || (s.PollStep? && s.id == id && s.secret == secret &&
        DevicePoll(db, lim, s.device, s.wall, s.wall2, id, secret, s.crash).1 == Ok(Issued(Format(id, secret))))
  }

  ghost predicate HandedOutAt(w: World, steps: seq<Step>, i: int, id: string, secret: string) {
    0 <= i < |steps| && HandsOut(Run(w, steps[..i]).db, Run(w, steps[..i]).lim, steps[i], id, secret)
  }

  // A token's verifier is that of its own id, in this store.
  ghost predicate OwnVerifier(db: Db, id: string)
    requires id in db.tokens
  {
    db.tokens[id].verifier == Verifier(db.digest, db.tokens[id].generation, id, db.tokens[id].verifier.secret)
  }

  lemma MintedToken(db: Db, lim: Limits, owner: Owner, nameOk: bool, ttl: int, endpoint: Option<Endpoint>,
                    device: Option<string>, id: string, secret: string, wall: int, k: string)
    ensures var (db', r) := Mint(db, lim, owner, nameOk, ttl, endpoint, device, id, secret, wall);
            k in db'.tokens && k !in db.tokens ==>
              && k == id && r == Ok(Format(id, secret)) && db'.digest == db.digest
              && OwnVerifier(db', k) && db'.tokens[k].verifier.secret == secret
  {
    hide MintError, Format;
  }

  lemma NewToken(db: Db, lim: Limits, s: Step, k: string)
    requires DbInv(db) && k in Effect(db, lim, s).0.tokens && k !in db.tokens
    ensures var db' := Effect(db, lim, s).0;
            OwnVerifier(db', k) && HandsOut(db, lim, s, k, db'.tokens[k].verifier.secret)
  {
    hide Admit, Lookup, Decide, DeviceRequest, Mint, PollPace, Release, Dispatch, Finish, Maintenance, Open, Format;
    hide Revoke, RevokeCreated, Review, Rotate;
    if s.MintStep? {
      MintedToken(db, lim, s.owner, s.nameOk, s.ttl, s.endpoint, None, s.id, s.secret, s.wall, k);
    } else if s.PollStep? {
      var (paced, answer) := PollPace(db, s.device, s.wall);
      if answer.None? && !s.crash {
        var g := paced.grants[s.device];
        MintedToken(paced, lim, Owner(paced.identity, g.approver.value), g.nameOk, g.days.value * DAY,
                    Some(Endpoint(g.key, g.nameOk, g.key !in paced.agents)), Some(s.device), s.id, s.secret, s.wall2, k);
      }
    } else if s.AdmitStep? {
      AdmitOnlyAudit(db, lim, s);
    }
  }

  ghost predicate HasOrigin(w: World, steps: seq<Step>, k: string) {
    var db := Run(w, steps).db;
    k in db.tokens && OwnVerifier(db, k) && exists i :: HandedOutAt(w, steps, i, k, db.tokens[k].verifier.secret)
  }

  lemma {:induction false} TokensHaveOrigins(w: World, steps: seq<Step>, k: string)
    requires Fresh(w) && k in Run(w, steps).db.tokens
    ensures HasOrigin(w, steps, k)
  {
    hide Effect, HandsOut;
    if steps != [] {
      var before, last := steps[..|steps| - 1], steps[|steps| - 1];
      var v := Run(w, before);
      RunKeepsDb(w, before);
      StepEvolves(v.db, v.lim, last);
      if k in v.db.tokens {
        TokensHaveOrigins(w, before, k);
        var i :| HandedOutAt(w, before, i, k, v.db.tokens[k].verifier.secret);
        assert before[..i] == steps[..i];
        assert HandedOutAt(w, steps, i, k, v.db.tokens[k].verifier.secret);
      } else {
        NewToken(v.db, v.lim, last, k);
        assert HandedOutAt(w, steps, |steps| - 1, k, Run(w, steps).db.tokens[k].verifier.secret);
      }
    }
  }

  lemma AdmittedCredential(db: Db, lim: Limits, s: Step)
    requires s.AdmitStep? && Effect(db, lim, s).1.Some?
    ensures var e := Effect(db, lim, s).1.value;
            && e.Admitted? && e.token in db.tokens
            && s.credential == Format(e.token, db.tokens[e.token].verifier.secret)
  {
    hide Parse, Format, Reserve;
    AdmitOk(db, lim, s.credential, s.op, s.wall0, s.wall, s.request);
    var (id, secret) := Parse(s.credential).value;
    ParseInvertsFormat(s.credential, id, secret);
    ReservedFor(db, lim, id, s.op, Now(db, s.wall), s.request);
  }

  lemma ReservedFor(db: Db, lim: Limits, id: string, op: Operation, now: int, request: RequestId)
    ensures var r := Reserve(db, lim, id, op, now, request).1; r.Ok? ==> r.value.token == id
  {
  }

  /** Over any run, an admitted credential is the very text that an earlier mint handed out for that token. */
  lemma AdmittedWasMinted(w: World, steps: seq<Step>, s: Step)
    requires Fresh(w) && s.AdmitStep?
    ensures var v := Run(w, steps);
            var e := Effect(v.db, v.lim, s).1;
            e.Some? ==> e.value.Admitted? && exists i, secret ::
              HandedOutAt(w, steps, i, e.value.token, secret) && s.credential == Format(e.value.token, secret)
  {
    hide HandsOut, Format;
    var v := Run(w, steps);
    var e := Effect(v.db, v.lim, s).1;
    if e.Some? {
      AdmittedCredential(v.db, v.lim, s);
      hide Effect;
      TokensHaveOrigins(w, steps, e.value.token);
      var secret := v.db.tokens[e.value.token].verifier.secret;
      var i :| HandedOutAt(w, steps, i, e.value.token, secret);
    }
  }

  // ---------------------------------------------------------------- tokens of devices come from approvals

  ghost predicate Settled(db: Db, d: string) {
    d in db.grants && (db.grants[d].status.Approved? || db.grants[d].status.Claimed?)
  }

  // The same request and the same decision.
  ghost predicate SameGrant(a: Grant, b: Grant) {
    && b.user == a.user && b.key == a.key && b.created == a.created && b.generation == a.generation
    && b.approver == a.approver && b.days == a.days
  }

  /** An owner of the store, having confirmed, approves the pending grant for the days the owner named. */
  ghost predicate Approves(db: Db, db': Db, s: Step, d: string) {
    && s.DecideStep? && s.approve && s.confirmed && OwnerOk(db, s.owner)
    && d in db.grants && db.grants[d].status.Pending?
    && d in db'.grants && db'.grants[d].status.Approved?
    && db'.grants[d].approver == Some(s.owner.subject) && db'.grants[d].days == Some(s.days)
    && db'.grants[d].key == db.grants[d].key && db'.grants[d].generation == db.grants[d].generation
  }

  lemma PaceSettles(db: Db, device: string, wall: int, d: string)
    ensures var db' := PollPace(db, device, wall).0;
            d in db'.grants ==> d in db.grants && db'.grants[d] == db.grants[d].(pollAfter := db'.grants[d].pollAfter)
  {
  }

  lemma ClaimSettles(db: Db, lim: Limits, s: Step, d: string)
    requires s.PollStep? && GrantsOk(db)
    ensures var db' := Effect(db, lim, s).0;
            Settled(db', d) ==> Settled(db, d) && SameGrant(db.grants[d], db'.grants[d])
  {
    hide PollPace, Mint, Admit, Decide, Lookup, DeviceRequest, GrantsOk;
    PaceSettles(db, s.device, s.wall, d);
    var (paced, answer) := PollPace(db, s.device, s.wall);
    if answer.None? && !s.crash {
      var g := paced.grants[s.device];
      var (minted, r) := MintForGrant(paced, lim, g, s.device, s.wall2, s.id, s.secret);
      if r.Ok? {
        ClaimOk(paced, lim, s.device, s.wall2, s.id, s.secret);
      } else {
        MintRefused(paced, lim, g, s.device, s.wall2, s.id, s.secret);
      }
    }
  }

  lemma MintRefused(db: Db, lim: Limits, g: Grant, device: string, wall: int, id: string, secret: string)
    requires g.approver.Some? && g.days.Some?
    ensures var (db', r) := MintForGrant(db, lim, g, device, wall, id, secret); r.Err? ==> db' == db
  {
    hide MintError;
  }

  lemma DecisionSettles(db: Db, lim: Limits, s: Step, d: string)
    requires s.DecideStep?
    ensures var db' := Effect(db, lim, s).0;
            Settled(db', d) ==>
              (Settled(db, d) && db'.grants[d] == db.grants[d]) || Approves(db, db', s, d)
  {
    hide Effect, Lookup, OwnerOk;
    DecideIs(db, lim, s);
    var (db1, found) := Lookup(db, s.owner, s.code, s.wall);
    if found.Ok? { LookupIsOwner(db, s.owner, s.code, s.wall); }
  }

  lemma DecideIs(db: Db, lim: Limits, s: Step)
    requires s.DecideStep?
    ensures Effect(db, lim, s).0 == Decide(db, s.owner, s.code, s.approve, s.days, s.confirmed, s.wall, s.wall2).0
  {
    hide Decide, AttemptPasses;
  }

  lemma LookupIsOwner(db: Db, owner: Owner, code: Option<string>, wall: int)
    ensures Lookup(db, owner, code, wall).1.Ok? ==> OwnerOk(db, owner)
  {
    hide OwnerOk, UserGrant, UserHasGrant;
  }

  /** A step leaves a grant approved or claimed only if it was, by the same decision, or if the step is that decision. */
  lemma StepSettles(db: Db, lim: Limits, s: Step, d: string)
    requires DbInv(db) && GrantsOk(db)
    ensures var db' := Effect(db, lim, s).0;
            Settled(db', d) ==>
              (Settled(db, d) && SameGrant(db.grants[d], db'.grants[d])) || Approves(db, db', s, d)
  {
    hide Admit, Lookup, Decide, DeviceRequest, PollPace, Release, Dispatch, Finish, Maintenance, Open, GrantsOk, DevicePoll;
    hide Revoke, RevokeCreated, Review, Rotate, MintError, Approves;
    if s.PollStep? {
      ClaimSettles(db, lim, s, d);
    } else if s.DecideStep? {
      DecisionSettles(db, lim, s, d);
    } else if s.MintStep? {
      assert Effect(db, lim, s).0.grants == db.grants;
    } else if !s.RequestStep? && !s.LookupStep? {
      QuietStep(db, lim, s);
    }
  }

  // The grant is there, decided, and is the one that became `g`.
  ghost predicate Still(db: Db, d: string, g: Option<Grant>) {
    Settled(db, d) && g.Some? && SameGrant(g.value, db.grants[d])
  }

  ghost function GrantOf(db: Db, d: string): Option<Grant> {
    if d in db.grants then Some(db.grants[d]) else None
  }

  /** Step `i` approved the grant, and from then on it has been the same grant. */
  ghost predicate ApprovedAt(w: World, steps: seq<Step>, i: int, d: string) {
    && 0 <= i < |steps|
    && Approves(Run(w, steps[..i]).db, Run(w, steps[..i + 1]).db, steps[i], d)
    && forall j :: i < j <= |steps| ==> Still(Run(w, steps[..j]).db, d, GrantOf(Run(w, steps[..i + 1]).db, d))
  }

  lemma ApprovedLater(w: World, steps: seq<Step>, s: Step, i: int, d: string)
    requires ApprovedAt(w, steps, i, d)
    requires Still(Run(w, steps + [s]).db, d, GrantOf(Run(w, steps).db, d))
    ensures ApprovedAt(w, steps + [s], i, d)
  {
    var all := steps + [s];
    var g := GrantOf(Run(w, steps[..i + 1]).db, d);
    assert Still(Run(w, steps[..|steps|]).db, d, g);
    assert steps[..|steps|] == steps;
    StillLater(Run(w, steps).db, Run(w, all).db, d, g);
    hide Run, Approves, Still, GrantOf;
    assert all[..i] == steps[..i] && all[..i + 1] == steps[..i + 1];
    forall j | i < j <= |all| ensures Still(Run(w, all[..j]).db, d, g) {
      if j <= |steps| {
        assert all[..j] == steps[..j];
        assert Still(Run(w, steps[..j]).db, d, g);
      } else {
        assert all[..j] == all;
      }
    }
  }

  lemma StillLater(a: Db, b: Db, d: string, g: Option<Grant>)
    requires Still(a, d, g) && Still(b, d, GrantOf(a, d))
    ensures Still(b, d, g)
  {
  }

  lemma ApprovedNow(w: World, steps: seq<Step>, s: Step, d: string)
    requires Approves(Run(w, steps).db, Run(w, steps + [s]).db, s, d)
    ensures ApprovedAt(w, steps + [s], |steps|, d)
  {
    var all := steps + [s];
    assert Still(Run(w, all).db, d, GrantOf(Run(w, all).db, d));
    hide Run, Approves, Still, GrantOf;
    assert all[..|steps|] == steps && all[..|steps| + 1] == all;
  }

  lemma NotYet(w: World, d: string)
    requires Fresh(w)
    ensures !Settled(Run(w, []).db, d)
  {
  }

  lemma {:induction false} SettledByApproval(w: World, steps: seq<Step>, d: string) returns (i: int)
    requires Fresh(w) && Settled(Run(w, steps).db, d)
    ensures ApprovedAt(w, steps, i, d)
  {
    hide Run, Approves, ApprovedAt, Still, GrantOf, Settled, Fresh;
    NotYet(w, d);
    if steps != [] {
      var before, last := steps[..|steps| - 1], steps[|steps| - 1];
      assert steps == before + [last];
      SettledRun(w, before, last, d);
      if Settled(Run(w, before).db, d) && Still(Run(w, steps).db, d, GrantOf(Run(w, before).db, d)) {
        i := SettledByApproval(w, before, d);
        ApprovedLater(w, before, last, i, d);
      } else {
        i := |before|;
        ApprovedNow(w, before, last, d);
      }
    }
  }

  lemma SettledRun(w: World, steps: seq<Step>, s: Step, d: string)
    requires Fresh(w) && Settled(Run(w, steps + [s]).db, d)
    ensures var a, b := Run(w, steps).db, Run(w, steps + [s]).db;
            (Settled(a, d) && Still(b, d, GrantOf(a, d))) || Approves(a, b, s, d)
  {
    assert (steps + [s])[..|steps|] == steps;
    var v := Run(w, steps);
    MintsAtMostOnce(w, steps);
    StepSettles(v.db, v.lim, s, d);
    hide Effect, Approves, DbInv, GrantsOk;
  }

  /**
   * Over any run, a poll mints only after an owner of the store confirmed and approved that very grant,
   * in the generation in which the token is minted.
   */
  lemma MintedAfterApproval(w: World, steps: seq<Step>, s: Step, d: string, id: string) returns (i: int)
    requires Fresh(w) && Effect(Run(w, steps).db, Run(w, steps).lim, s).1 == Some(Minted(d, id))
    ensures ApprovedAt(w, steps, i, d)
    ensures Run(w, steps[..i + 1]).db.grants[d].generation == Run(w, steps).db.generation
  {
    var v := Run(w, steps);
    MintedIsApproved(v.db, v.lim, s, d, id);
    i := SettledByApproval(w, steps, d);
    assert Still(Run(w, steps[..|steps|]).db, d, GrantOf(Run(w, steps[..i + 1]).db, d));
    hide Run, Effect, Approves;
    assert steps[..|steps|] == steps;
  }

  lemma MintedIsApproved(db: Db, lim: Limits, s: Step, d: string, id: string)
    requires Effect(db, lim, s).1 == Some(Minted(d, id))
    ensures Settled(db, d) && db.grants[d].generation == db.generation
  {
    hide Admit, Lookup, Decide, DeviceRequest, Release, Dispatch, Finish, Maintenance, Open, Mint;
    assert s.PollStep?;
    PaceNeverIssues(db, s.device, s.wall);
    PaceSettles(db, s.device, s.wall, s.device);
    hide PollPace;
    var (paced, answer) := PollPace(db, s.device, s.wall);
    ClaimOk(paced, lim, s.device, s.wall2, s.id, s.secret);
  }
}
