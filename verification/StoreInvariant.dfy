/** Everything the credential store promises about its history, as one invariant of every step. */
module StoreInvariant {
  import opened Prelude
  import opened CredentialStore
  import opened CredentialRuns
  import RateLimit
  import AuditEvidence
  import DeviceGrants
  import StoreCaps
  import LookupBudget

  /**
   * The rate limit, one dispatch and one finish per admission, one token per grant, all caps, and the
   * lookup budget, of the history so far and of the tables that it has left behind.
   */
  ghost predicate Inv(w: World) {
    && DbInv(w.db)
    && RateLimit.Inv(w)
    && AuditEvidence.Once(w)
    && DeviceGrants.Inv(w)
    && StoreCaps.WithinCaps(w.db, DEFAULT_LIMITS) && w.lim.Valid()
    && LookupBudget.Spent(w.log, w.db.budget, w.db.highWater)
  }

  lemma FreshInv(w: World)
    requires Fresh(w)
    ensures Inv(w)
  {
    StoreCaps.FreshWithin(w, DEFAULT_LIMITS);
    assert forall minute :: LookupBudget.Tries(w.log, minute) == {};
  }

  /** Every transaction, restart and crash keeps it. */
  lemma ApplyKeeps(w: World, s: Step)
    requires Inv(w)
    ensures Inv(Apply(w, s))
  {
    hide Apply, DbInv, RateLimit.Inv, AuditEvidence.Once, DeviceGrants.Inv, StoreCaps.WithinCaps, LookupBudget.Spent;
    RateLimit.ApplyKeeps(w, s);
    AuditEvidence.ApplyOnce(w, s);
    DeviceGrants.ApplyMoves(w, s);
    StoreCaps.ApplyWithin(w, s);
    LookupBudget.StepSpends(w, s);
  }
}
