/** Revocation, rotation and expiry of credentials are final, whatever happens later. */
module Containment {
  import opened Prelude
  import opened CredentialStore
  import opened CredentialRuns

  /** Revoked, or expired by the store's own clock mark. A rotated-out token is revoked. */
  ghost predicate Dead(db: Db, token: string) {
    token in db.tokens && (db.tokens[token].revokedAt.Some? || db.tokens[token].expires <= db.highWater)
  }

  ghost predicate Uses(e: Event, token: string) {
    (e.Admitted? || e.Sent?) && e.token == token
  }

  lemma RevokeKills(db: Db, owner: Owner, id: string, wall: int)
    requires Revoke(db, owner, id, wall).1.Ok? && id in db.tokens
    ensures Dead(Revoke(db, owner, id, wall).0, id)
  {
  }

  lemma RevokeCreatedKills(db: Db, permit: Permit, id: string, wall: int)
    requires RevokeCreated(db, permit, id, wall).1.Ok?
    ensures Dead(RevokeCreated(db, permit, id, wall).0, id)
  {
  }

  lemma RotateKillsAll(db: Db, owner: Owner, generation: string, wall: int, id: string)
    requires Rotate(db, owner, generation, wall).1.Ok? && id in db.tokens
    ensures Dead(Rotate(db, owner, generation, wall).0, id)
  {
  }

  lemma DeadIsNotLive(db: Db, token: string, generation: string, now: int)
    requires Dead(db, token) && now >= db.highWater
    ensures !Live(db.tokens[token], generation, now)
  {
  }

  lemma DeadRefused(db: Db, lim: Limits, s: Step, token: string)
    requires Dead(db, token)
    ensures Effect(db, lim, s).1.Some? ==> !Uses(Effect(db, lim, s).1.value, token)
  {
    if s.AdmitStep? && Effect(db, lim, s).1.Some? {
      AdmitOk(db, lim, s.credential, s.op, s.wall0, s.wall, s.request);
    }
    if s.DispatchStep? {
      DeadIsNotLive(db, token, s.permit.generation, Now(db, s.wall));
    }
  }

  lemma DeadStays(db: Db, lim: Limits, s: Step, token: string)
    requires DbInv(db) && Dead(db, token)
    ensures Dead(Effect(db, lim, s).0, token)
  {
    StepEvolves(db, lim, s);
  }

  /**
   * Once a token is dead, no later step of any run admits or dispatches it: not with a permit
   * reserved earlier, not after a restart, and not with a clock that was set back.
   */
  lemma {:induction false} NoUseAfterDeath(w: World, steps: seq<Step>, token: string)
    requires DbInv(w.db) && Dead(w.db, token)
    ensures Dead(Run(w, steps).db, token)
    ensures w.log <= Run(w, steps).log
    ensures forall i :: |w.log| <= i < |Run(w, steps).log| ==> !Uses(Run(w, steps).log[i], token)
  {
    if steps != [] {
      var before, last := steps[..|steps| - 1], steps[|steps| - 1];
      NoUseAfterDeath(w, before, token);
      RunKeepsDb(w, before);
      DeadStays(Run(w, before).db, Run(w, before).lim, last, token);
      DeadRefused(Run(w, before).db, Run(w, before).lim, last, token);
    }
  }

  // ---------------------------------------------------------------- the review switch

  lemma DisabledStep(db: Db, lim: Limits, s: Step)
    requires !db.reviewed && db.highWater <= I64_MAX && !s.ReviewStep?
    ensures !Effect(db, lim, s).0.reviewed
    ensures var e := Effect(db, lim, s).1; e.Some? ==> !e.value.Admitted? && !e.value.Sent?
  {
    hide Lookup, Decide, DeviceRequest, PollPace, MintError, Release, Finish, Maintenance, Open, AttemptPasses;
    hide Revoke, RevokeCreated;
    if !s.RotateStep? { OtherStepsKeepReview(db, lim, s); }
  }

  // Only the owner's switch, and a rotation, change it.
  lemma OtherStepsKeepReview(db: Db, lim: Limits, s: Step)
    requires db.highWater <= I64_MAX && !s.ReviewStep? && !s.RotateStep?
    ensures Effect(db, lim, s).0.reviewed == db.reviewed
  {
    hide Lookup, Decide, DeviceRequest, PollPace, MintError, Release, Finish, Maintenance, Open, AttemptPasses, Admit, Dispatch;
    if s.AdmitStep? { AdmitOnlyAudit(db, lim, s); }
  }

  /** While the API is off, and until an owner turns it on again, nothing at all is admitted or dispatched. */
  lemma {:induction false} NothingWhileDisabled(w: World, steps: seq<Step>)
    requires DbInv(w.db) && !w.db.reviewed && forall i :: 0 <= i < |steps| ==> !steps[i].ReviewStep?
    ensures !Run(w, steps).db.reviewed && w.log <= Run(w, steps).log
    ensures forall i :: |w.log| <= i < |Run(w, steps).log| ==> !Run(w, steps).log[i].Admitted? && !Run(w, steps).log[i].Sent?
  {
    if steps != [] {
      var before, last := steps[..|steps| - 1], steps[|steps| - 1];
      NothingWhileDisabled(w, before);
      RunKeepsDb(w, before);
      DisabledStep(Run(w, before).db, Run(w, before).lim, last);
      hide Effect;
    }
  }
}
