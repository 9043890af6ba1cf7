# Verification of Treer's state machines and wire formats

This project models the parts of Treer whose correctness ranges over whole runs, all inputs or all ways of cutting a
byte stream, and proves what they promise. `dafny verify dfyconfig.toml` checks all of it.

- **External-agent credential store** (`CredentialStore`, `CredentialRuns`, `AdmissionRules`, `StoreAuthority`,
  `Containment`, `RateLimit`, `AuditEvidence`, `StoreCaps`, `DeviceGrants`, `LookupBudget`, `CredentialOrigins`,
  `StoreInvariant`, `CredentialFormat`, `CredentialStoreImpl`). Each transaction is a function on the tables; a run
  is any sequence of transactions, restarts with any valid limits and any wall-clock readings. Random ids are inputs,
  and a repeated one is refused by the primary key. The class `Store` updates the tables in place and carries its
  history: every public method is one step of a run and keeps everything that `StoreInvariant` promises.
- **Issue tracker** (`IssueGraph`, `IssueLinks`, `IssueTracker`, `IssueRuns`, `LinkBatch`, `IssueMeaning`,
  `SearchIndex`, `IndexAgreement`, `IndexMeaning`, `IssueStore`, `LabelFilter`, `LinkRate`, `UnicodeText`). Two
  graphs kept acyclic by worklist walks, a search index written incrementally that must equal what replaying the
  activity derives, and a sliding limit on added links.
- **Git gateway** (`PktLine`, `PushHead`, `PushCommands`, `PushSyntax`, `LateHead`, `PushRelay`, `ReportStatus`,
  `HttpBody`, `RsaSigning`, `NumberTheory`, `ByteText`, `BigEndian`). Git's pkt-line format and report-status,
  chunked transfer coding, a push from its request to what the server reads, and RSA signatures by the Chinese
  remainder theorem, down to Fermat's little theorem.
- **Snapshot store** (`SoulStore`, `SoulRuns`, `SoulAccess`, `SoulStoreImpl`). Content-addressed blobs, reference
  rows, the sweep after commit or rollback, tombstones, versions, and quotas chosen at each start, with the process
  dying at any point of a save, a delete or the sweep at its start.
- **Policy** (`PolicyDecision`, `PolicyHistory`, `PolicyValidity`, `PolicyStore`). Sort-then-first-match against a
  declarative meaning, and a compare-and-set revision log that reloads to itself.

Each operation is also characterised without its own definition: who is let in, what is accepted and what it leaves,
as if-and-only-ifs on the tables before the call (`AdmissionRules`, `StoreAuthority`, `LinkBatch`, `IssueMeaning`,
`IndexMeaning`, `SoulAccess`, `PolicyValidity`, `PushSyntax`).

Where the code and what is said about it differ, the code is modelled:

- The audit is meant to keep every request in flight. An admission, however, relabels reservations older than 30
  seconds as unavailable and may prune them in the same transaction. `AuditEvidence.ReservationLost` is a run in
  which that happens, and `AuditEvidence.InFlightDeletedExactly` says exactly when.
- A body is read in pieces of at most 64 KiB. A push whose command list first ends at byte k, where MAX_HEAD + 1 < k
  <= MAX_HEAD + 64 KiB, is accepted or refused depending on how it was cut; no other push is.
  `PushHead.CutsAgreeExactly` says so for every piece size, and `LateHead.LateHeadExists` is such a push.
- The link limit forgets hits for good once a reading is a minute past them, so a clock set back lets a principal add
  more than 30 links in one minute of readings. `LinkRate.LimitHoldsExactly` gives the exact condition on the clock.
- An empty query label would match issues without labels, because their stored key is two bars. It is the only
  exception in `LabelFilter.FilterFindsLabel`; the search call itself refuses empty labels.
- A new issue may be given a parent that is already full, since the check returns before counting children. Nothing
  here claims a bound on children.

## Model

| member | source | states |
|---|---|---|
| RateLimit.RateLimitHolds | apps/external-agent/src/store.rs:566-595 | after any run from a fresh store, with restarts, clocks that jump back and pruning of the very rows the limit is counted from, every 60-second window of store time holds at most 60 admissions of one token |
| RateLimit.EntriesAreRows | apps/external-agent/src/store.rs:578-585 | the admissions of a token inside the window inject into the audit rows that the limit query counts |
| Containment.RevokeKills | apps/external-agent/src/store.rs:394-413 | a successful revocation leaves the token dead |
| Containment.RevokeCreatedKills | apps/external-agent/src/store.rs:873-904 | a registry token that revokes an endpoint leaves that endpoint's token dead |
| Containment.RotateKillsAll | apps/external-agent/src/store.rs:440-458 | after a rotation every token that existed is dead |
| Containment.DeadRefused | apps/external-agent/src/store.rs:498-508 | no step admits or dispatches a dead token |
| Containment.DeadStays | apps/external-agent/src/store.rs:734-746 | no step brings a dead token back: not a restart, and not a clock set back below its expiry |
| Containment.NoUseAfterDeath | apps/external-agent/src/store.rs:633-657 | once a token is revoked, rotated out or expired at the high-water mark, no later step of any run admits or dispatches it, permits reserved earlier included |
| Containment.NothingWhileDisabled | apps/external-agent/src/store.rs:416-458 | while the API is off, and until an owner turns it on again, no step of any run admits or dispatches anything |
| AuditEvidence.AtMostOnce | apps/external-agent/src/store.rs:609-674 | over any run every dispatch follows an admission of the same request as its latest event, and every finish a dispatch: one admission is dispatched once and finished once at most |
| AuditEvidence.UnknownIsForever | apps/external-agent/src/store.rs:249-252 | a row whose outcome is unknown stays exactly as it is through any steps |
| AuditEvidence.DispatchedCanFinish | apps/external-agent/src/store.rs:660-674 | a dispatched request keeps its row through any steps but its own finish or a restart, and its result can still be recorded whatever became of its token |
| AuditEvidence.OutcomesHaveCauses | apps/external-agent/src/store.rs:609-674 | in one step a result becomes unknown without an end only at a restart, a request dispatched only by its own dispatch, a dispatched one final only by its own finish and with the outcome reported; a row goes only by an admission or maintenance |
| AuditEvidence.DeletedExactly | apps/external-agent/src/store.rs:565-569 | which rows an admission deletes, as an if-and-only-if on the table before the call: the oldest deletable rows (60 seconds old, closed or still reserved) by which the token is over its cap, and then the oldest deletable rows by which the rest is over the total cap; so no dispatched or unknown row is ever deleted |
| AuditEvidence.InFlightDeletedExactly | apps/external-agent/src/store.rs:565-569 | when a successful admission deletes a row in flight: exactly if it is a reservation 60 seconds old or older that ranks among those |
| AuditEvidence.ReservationLost | apps/external-agent/src/store.rs:565-569 | a run from a new file (review, mint, admit at 0, admit at 60) in which a reservation is in flight before the last step and gone after it, for every digest, generation, id and secret that can be drawn: in-flight rows are not all safe |
| CredentialRuns.StepEvolves | apps/external-agent/src/store.rs:609-674 | every transaction moves each audit row only along its permitted edges and only if the step is the cause of that edge, keeps token identities, and never lowers the high-water mark |
| CredentialRuns.RunKeepsDb | apps/external-agent/src/store.rs:734-777 | the table invariant (rows start before they end, none after the high-water mark, rows and bindings name existing tokens, tokens of an older generation are revoked) holds throughout every run |
| StoreCaps.CapsHold | apps/external-agent/src/store.rs:463-596 | if no restart raises a limit above `max`, then after any run all caps hold together: audit rows and requests in flight in total and per token, token records, and live tokens at every clock value from the high-water mark on |
| StoreCaps.BuiltInCapsHold | apps/external-agent/src/store.rs:61-80 | the built-in maxima bound the store whatever valid limits each restart chooses |
| DeviceGrants.MintsAtMostOnce | apps/external-agent/src/store_device.rs:136-214 | over any run, with restarts, failed mints, crashes and interleaved polls, a grant mints at most one token; it is claimed exactly when it names a token, which exists, is bound to the grant's key and belongs to no other grant |
| DeviceGrants.ClaimedByMinting | apps/external-agent/src/store.rs:310-358 | a grant becomes claimed in a step exactly when that step inserts its token and binds it to the grant's key |
| DeviceGrants.FailedMintKeepsGrant | apps/external-agent/src/store_device.rs:186-214 | a poll whose mint fails, or that dies before it, leaves the grant approved and otherwise unchanged but for the poll pacing |
| CredentialOrigins.MintedAfterApproval | apps/external-agent/src/store_device.rs:107-214 | over any run a poll mints only after an owner of the store confirmed and approved that very grant, which has been the same grant since, in the generation in which the token is minted |
| CredentialOrigins.AdmittedWasMinted | apps/external-agent/src/store.rs:463-508 | over any run an admitted credential is the very text that an earlier mint handed out for that token |
| AdmissionRules.ScopesHold | apps/external-agent/src/store.rs:514-535 | over any run from a new store, every audit row and every permit ever handed out is within the scope of its token: no registry row or permit of a token bound to an endpoint, every inbox or acknowledgement for exactly the endpoint that the token is bound to, and no target otherwise |
| AdmissionRules.AdmittedInScope | apps/external-agent/src/store.rs:514-608 | the permit of an admission carries the operation asked for and the token, generation and target of its row |
| AdmissionRules.AdmittedExactly | apps/external-agent/src/store.rs:463-608 | when a credential is admitted, as an if-and-only-if on the tables before the call: the API is on, the text is a token of this store with its secret, in force at both readings of the clock, allowed the operation by its endpoint, and room is left in the table, for the token, in flight and in the last minute |
| AdmissionRules.RoomExactly | apps/external-agent/src/store.rs:565-592 | the five counts are those of the rows that remain, said on the table before it is tidied |
| AdmissionRules.StrangerDenied | apps/external-agent/src/store.rs:490-508 | any text that is not a token in force is denied |
| AdmissionRules.HolderRefused | apps/external-agent/src/store.rs:514-592 | a holder is refused by scope, then by the second reading of the clock, then for lack of room, each with its own error |
| StoreAuthority.ChangesHaveAuthors | apps/external-agent/src/store.rs:296-458 | in one step of any kind: only an owner of this store switches the API or starts a generation, a token changes only by an owner or by the registry token that created it, and tokens come only from an owner or a granted poll |
| StoreAuthority.MintExactly | apps/external-agent/src/store.rs:296-372 | a token is minted exactly for an owner with a valid name, for at most 90 days, under a free id, with room, a sound endpoint and a ready grant; then exactly that token, endpoint, binding and claim are added |
| StoreAuthority.MintedGetsIn | apps/external-agent/src/store.rs:272-608 | the text that a mint hands out is admitted to every operation of its scope while it lasts and there is room |
| StoreAuthority.RevokeExactly | apps/external-agent/src/store.rs:394-413 | an owner revokes any token, and an earlier revocation keeps its time |
| StoreAuthority.RevokeCreatedExactly | apps/external-agent/src/store.rs:873-904 | a registry permit revokes exactly the endpoint tokens that its own token created in this generation |
| StoreAuthority.ReviewExactly | apps/external-agent/src/store.rs:416-437 | an owner turns the API on or off and changes nothing else |
| StoreAuthority.RotateExactly | apps/external-agent/src/store.rs:440-458 | an owner starts a generation, with the API off and every token revoked |
| StoreAuthority.DispatchExactly | apps/external-agent/src/store.rs:609-657 | a permit is dispatched exactly if its row is reserved, its token in force, its endpoint enabled and the API on; a refusal releases the reservation |
| StoreAuthority.FinishExactly | apps/external-agent/src/store.rs:660-674 | a result is recorded exactly for a dispatched row, whatever became of the token |
| StoreAuthority.MaintenanceExactly | apps/external-agent/src/store.rs:696-706 | an owner drops the rows closed over 30 days ago, and learns how many |
| StoreAuthority.OpenExactly | apps/external-agent/src/store.rs:192-257 | a restart is accepted exactly with the same well-formed identity and limits within the built-in maxima, and turns exactly the rows in flight into unknown ones |
| StoreAuthority.RequestExactly | apps/external-agent/src/store_device.rs:27-60 | a device request is accepted exactly within its caps, and leaves a pending grant of this generation, with grants expired for a day dropped |
| StoreAuthority.LookupExactly | apps/external-agent/src/store_device.rs:61-87 | a lookup by an owner is counted, and answered exactly among the first 30 of its minute for the code of an open grant |
| StoreAuthority.DecideExactly | apps/external-agent/src/store_device.rs:107-135 | a decision is made exactly by an owner, confirmed and for 30 or 90 days if it approves, on a grant that is pending and unexpired at both readings of the clock |
| StoreAuthority.PaceExactly | apps/external-agent/src/store_device.rs:136-185 | what a poll is told, case by case, and when it goes on to collect |
| StoreAuthority.PaceMeans | apps/external-agent/src/store_device.rs:136-185 | a poll in time moves the next one on by five seconds and changes nothing else |
| StoreAuthority.CollectExactly | apps/external-agent/src/store_device.rs:186-214 | a poll collects exactly the token that the owner approved: their days, their authority, the key asked for |
| StoreInvariant.ApplyKeeps | apps/external-agent/src/store.rs:192-706 | every transaction, restart and crash keeps the rate limit, once-only dispatch and finish, one token per grant, all caps and the lookup budget together |
| LookupBudget.LookupsBounded | apps/external-agent/src/store_device.rs:61-87 | no minute of store time answers more than 30 owner lookups of short codes, however they interleave with everything else |
| CredentialFormat.ParseInvertsFormat | apps/external-agent/src/store.rs:778-790 | `parse` accepts exactly the texts that minting prints and reads back the same id and secret |
| CredentialFormat.FrameInjective | apps/external-agent/src/store.rs:800-807 | the length-prefixed bytes fed to the hash determine the list of parts |
| CredentialStoreImpl.OpenNew | apps/external-agent/src/store.rs:192-257 | opening a new file refuses exactly limits out of range and malformed identities; otherwise the store is valid and fresh |
| CredentialStoreImpl.Store.constructor | apps/external-agent/src/store.rs:192-257 | a new store file starts empty, unreviewed, with its own generation and no history, and satisfies the whole invariant |
| CredentialStoreImpl.Store.Reopen | apps/external-agent/src/store.rs:192-257 | a restart step of the run: every row is kept, none is in flight any more, rows that were not in flight are unchanged; a refused restart changes nothing; the invariant is kept |
| CredentialStoreImpl.Store.CreateScopedClaim | apps/external-agent/src/store.rs:296-372 | minting a token, registering and binding its endpoint and claiming its grant is one transaction, equal to its specification on values, or changes nothing |
| CredentialStoreImpl.Store.CreateToken | apps/external-agent/src/store.rs:272-372 | a step of the run: the text handed out parses back to the id and secret that were drawn, and the id was new; a refusal changes nothing |
| CredentialStoreImpl.Store.RevokeById | apps/external-agent/src/store.rs:394-413 | a revocation step of the run: after success the token is dead, so that by Containment it is never used again; a refusal changes nothing |
| CredentialStoreImpl.Store.RevokeCreatedExternal | apps/external-agent/src/store.rs:873-904 | a step of the run: success means that the endpoint token was created by the permit's own token and is dead now; a refusal changes nothing |
| CredentialStoreImpl.Store.PolicyReviewed | apps/external-agent/src/store.rs:416-437 | a step of the run: once switched off, every admission is refused as disabled, whatever the credential and the clock; a refusal changes nothing |
| CredentialStoreImpl.Store.RotateAfterRestore | apps/external-agent/src/store.rs:440-458 | a step of the run: after success every token there is is dead, none is forgotten, and the API is off; a refusal changes nothing |
| CredentialStoreImpl.Store.AdmitFrom | apps/external-agent/src/store.rs:463-608 | a step of the run, by inline checks and pruning loops: it succeeds exactly if the text is a genuine credential of this store and admissible on the tables before the call; success leaves a reserved row of a token that is not dead and a permit for the operation asked for, within the scope of the token; a refusal changes nothing |
| CredentialStoreImpl.Store.ReserveRow | apps/external-agent/src/store.rs:565-606 | the part of an admission that tidies, counts and inserts the row |
| CredentialStoreImpl.Store.ReleasePermit | apps/external-agent/src/store.rs:619-632 | a step of the run: after success the permit holds no slot, and no row is lost |
| CredentialStoreImpl.Store.DispatchPermit | apps/external-agent/src/store.rs:609-657 | a step of the run: success means that the row is dispatched and the token not dead; after a refusal the permit holds no slot, if it is this store's and the clock is sane |
| CredentialStoreImpl.Store.FinishPermit | apps/external-agent/src/store.rs:660-674 | a step of the run: it succeeds exactly for this store's dispatched row, records the reported outcome, case by case, and touches no other row |
| CredentialStoreImpl.Store.Maintain | apps/external-agent/src/store.rs:696-706 | a step of the run: exactly the closed rows that ended over 30 days ago go, and the answer counts them |
| CredentialStoreImpl.Store.RequestDevice | apps/external-agent/src/store_device.rs:27-60 | a step of the run that prunes, counts and inserts a pending grant and keeps short codes unique; a refusal changes nothing |
| CredentialStoreImpl.Store.OwnerLookup | apps/external-agent/src/store_device.rs:61-87 | a step of the run: the attempt is counted, and the count kept, before the code is looked at; a hit is the only grant with that code |
| CredentialStoreImpl.Store.DecideDevice | apps/external-agent/src/store_device.rs:107-135 | a step of the run: a successful decision was made on a grant that was pending and unexpired before the call, and a refused one changes no grant |
| CredentialStoreImpl.Store.PaceDevice | apps/external-agent/src/store_device.rs:136-185 | the first transaction of a poll: pacing, and every answer but the mint |
| CredentialStoreImpl.Store.PollDevice | apps/external-agent/src/store_device.rs:136-214 | a step of the run: when a credential is issued the grant names the new token, which exists |
| CredentialStoreImpl.SelectOldest | apps/external-agent/src/store.rs:568-569 | the first k candidate rows by start time and request id, found by a loop, are the only set the query can mean |
| RsaSigning.SizeBounds | apps/git-gateway/gw_credentials.py:75-77 | a key of `size` bytes lies between 256^(size-1) and 256^size |
| RsaSigning.EncodedBelowModulus | apps/git-gateway/gw_credentials.py:119-123 | the padded message is exactly `size` bytes long and, as a number, below the modulus (sections 8.2.1 and 9.2 of RFC 8017) |
| RsaSigning.RecombineResidues | apps/git-gateway/gw_credentials.py:126-128 | the recombined value is m1 modulo p and m2 modulo q and lies in [0, n) (section 5.2.1 of RFC 8017) |
| RsaSigning.RecoversMessage | apps/git-gateway/gw_credentials.py:126-129 | for a consistent two-prime key, s^e mod n is the padded message again, for every message below n, also one that a prime divides |
| RsaSigning.LoadedIsLarge | apps/git-gateway/gw_credentials.py:106-122 | a key that loads is large enough for the padding |
| RsaSigning.SigningSucceeds | apps/git-gateway/gw_credentials.py:117-131 | with a key that loads and is consistent, signing any 32-byte digest succeeds, and the RFC's verifier, which opens the signature and takes the block apart byte by byte, finds this digest in it |
| RsaSigning.SignatureIsSound | apps/git-gateway/gw_credentials.py:129-131 | whatever the exponents are, a signature that leaves the code verifies for its digest: a faulty one is never released |
| RsaSigning.EncodedCarries | apps/git-gateway/gw_credentials.py:114-123 | the padded message is 0, 1, bytes of 255, 0, the DigestInfo of SHA-256 and the digest |
| RsaSigning.OneDigest | apps/git-gateway/gw_credentials.py:117-131 | one signature verifies for one digest only |
| RsaSigning.SignaturesDiffer | apps/git-gateway/gw_credentials.py:117-131 | different digests get different signatures |
| RsaSigning.LoadsExactly | apps/git-gateway/gw_credentials.py:107-110 | a key loads exactly if it is the product of its primes and has 2048 bits at least |
| RsaSigning.TooSmallExactly | apps/git-gateway/gw_credentials.py:119-122 | signing refuses a key as too small exactly if its modulus has fewer than 62 bytes |
| NumberTheory.Fermat | apps/git-gateway/gw_credentials.py:126-129 | Fermat's little theorem, from Euclid's lemma: what the recombination rests on |
| NumberTheory.FermatPower | apps/git-gateway/gw_credentials.py:126-129 | an exponent that is 1 modulo p - 1 changes no residue modulo p, zero included |
| LinkRate.Limiter.RateLinks | apps/issues/store.py:308-318 | the whole new table of hits and whether the links may be added |
| LinkRate.LimitHolds | apps/issues/store.py:306-318 | while the clock does not go back, no principal is charged for more than 30 links in any minute, nor adds more, for any number of principals and through every purge of the table |
| LinkRate.LimitHoldsExactly | apps/issues/store.py:308-316 | for up to 1000 principals and any clock readings: the limit holds for whatever is requested at those readings if and only if the clock is never set back to within a minute of a hit after a reading a minute or more past it |
| LinkRate.PurgeIsUnseen | apps/issues/store.py:317-318 | the purge of the table changes no answer: the limiter refines one that never purges |
| LinkRate.TableIsTrimmed | apps/issues/store.py:316-318 | a granted call leaves at most 1000 principals, or only such as were charged within the last minute |
| LinkRate.PaidForNothing | apps/issues/store.py:360-372 | a request pays before its links are checked: a principal whose request was refused after paying has added nothing and is still refused |
| PktLine.ReadPktLines | apps/git-gateway/gw_rules.py:172-196 | the loop over the offset reads what the recursive definition of the format reads, with the same limit, length and end-of-data cases |
| PktLine.ReadStable | apps/git-gateway/gw_rules.py:172-196 | a verdict reached on a prefix of the stream is the verdict on the stream |
| PktLine.ReadFrames | apps/git-gateway/gw_rules.py:283-284 | reading printed packets gives their payloads back up to and including the flush, whatever follows |
| PktLine.ReadCut | apps/git-gateway/gw_rules.py:172-196 | every proper prefix of printed packets asks for more |
| ByteText.HexRoundTrip | apps/git-gateway/gw_rules.py:283-284 | reading back a printed hexadecimal number gives the number, padded or not |
| ByteText.LooseHex | apps/git-gateway/gw_rules.py:172-190 | the number reader also takes a sign, a prefix and blanks around the digits |
| ByteText.DigitsUnder | apps/git-gateway/gw_rules.py:172-190 | and single underscores between digits |
| PushHead.ParseReceivePackCommands | apps/git-gateway/gw_rules.py:217-242 | the loop over the packets computes the updates, the capabilities or the rule error of the recursive definition |
| PushHead.PushHead.Feed | apps/git-gateway/gw_rules.py:245-264 | a fed chunk is appended, and the answer is that of parsing everything fed so far |
| PushHead.ReadHead | apps/git-gateway/gateway.py:689-736 | an accepted push forwards exactly the original bytes, however it was cut; the verdict is the first one that feeding the chunks reaches |
| PushHead.CutsAgreeExactly | apps/git-gateway/gw_rules.py:245-264 | for every bound on the size of a piece: all cuts of a body into such pieces give the same updates, capabilities or rule error if and only if its command list does not first end more than one byte and at most one piece beyond MAX_HEAD; the gateway reads pieces of at most 64 KiB |
| PushHead.SmallCutsAgree | apps/git-gateway/gw_rules.py:254-264 | for such a body the common verdict: that of parsing it whole if the list ends within MAX_HEAD + 1 bytes, too large if the body is longer than MAX_HEAD and the list does not end in time, and otherwise no command list |
| PushHead.LateCutDiffers | apps/git-gateway/gw_rules.py:259-264 | for every other body two cuts into such pieces that give different verdicts |
| LateHead.LateHeadExists | apps/git-gateway/gateway.py:426-458 | such a body exists: a push with a sound command list that is accepted in full pieces of 64 KiB and refused as too large with one boundary moved to MAX_HEAD + 1 |
| PushCommands.UpdateParses | apps/git-gateway/gw_rules.py:233-238 | a printed ref update parses back to its two object ids and its name |
| PushCommands.WordsComeBack | apps/git-gateway/gw_rules.py:230-232 | the printed capabilities split back into the same words |
| PushCommands.HeadRoundTrip | apps/git-gateway/gw_rules.py:217-242 | printing any valid updates, capabilities and shallow lines as packets, followed by any pack bytes, parses back to those updates and capabilities |
| PushCommands.DecidedAtTheEnd | apps/git-gateway/gw_rules.py:245-264 | such a push is first decided exactly at the end of its command list |
| PushCommands.PushVerdict | apps/git-gateway/gw_rules.py:245-264 | however such a push is cut into pieces of at most a given size, it is accepted with its own updates and capabilities if its list ends within MAX_HEAD + 1 bytes, and refused as too large if it ends more than one piece beyond MAX_HEAD |
| PushSyntax.UpdateExactly | apps/git-gateway/gw_rules.py:233-238 | a command is read as an update exactly if it is two object ids and a full ref name with single spaces between them |
| PushSyntax.HeadExactly | apps/git-gateway/gw_rules.py:217-242 | a finished list is accepted exactly if every line but the shallow ones asks for an update, and there is one unless the list is a lone flush; the updates, the capabilities of the first line, and the error of the first line at fault |
| PushSyntax.TooManyRefused | apps/git-gateway/gw_rules.py:172-195 | more than 10000 packets are refused for that, whatever they hold |
| PushRelay.JudgeHead | apps/git-gateway/gateway.py:689-709 | reading pieces until the head is decided gives the verdict on a cut of the whole body, or the error of the body |
| PushRelay.RelayPush | apps/git-gateway/gateway.py:676-764 | from request to upstream: an accepted push is sent on framed as it came, and a reader of what was sent yields exactly the bytes of the original body and reads no further; a body that breaks off on the way is seen upstream as the bytes so far and a short request, never as complete; a refused push sends nothing |
| PushRelay.RelayFollowsVerdict | apps/git-gateway/gateway.py:676-736 | what becomes of a readable push is decided by the verdict on its bytes alone, unless its list ends just beyond the limit |
| PushRelay.PushArrives | apps/git-gateway/gateway.py:689-764 | a well-formed push whose list ends in time is sent on with the updates and capabilities it was printed from, and the server reads the same list and the same pack |
| PushRelay.BrokenIsSeen | apps/git-gateway/gateway.py:984-996 | without the last chunk, or short of its length, what was sent reads as a short request |
| ReportStatus.PrintReport | apps/git-gateway/gw_rules.py:289-293 | the report is the unpack line, one line per ref, and a flush |
| ReportStatus.PrintFrames | apps/git-gateway/gw_rules.py:294-301 | side-band framing: the message on band 2, then the report on band 1 in frames of at most the band size, then a flush |
| ReportStatus.ReceivePackRejection | apps/git-gateway/gw_rules.py:287-302 | the whole rejection, plain, side-band or side-band-64k |
| ReportStatus.ParseReportStatus | apps/git-gateway/gw_rules.py:305-335 | the loops compute the status map of the recursive definition, malformed input included |
| ReportStatus.FramingIsInvisible | apps/git-gateway/gw_rules.py:308-320 | the statuses do not depend on how the report is cut into frames, nor on what travels on other bands |
| ReportStatus.PlainRoundTrip | apps/git-gateway/gw_rules.py:321-335 | a printed report reads back as the last line of each ref |
| ReportStatus.RejectionRoundTrip | apps/git-gateway/gw_rules.py:287-335 | for space-free refs and lines that fit a packet, parsing the printed rejection gives each ref its reason, in all three framings |
| ReportStatus.ExpectedEach | apps/git-gateway/gw_rules.py:287-335 | for distinct refs, each one comes back as "ng" and its reason, verbatim unless the reason ends in white space |
| ReportStatus.ServerReportReads | apps/git-gateway/gw_rules.py:305-335 | what a server prints, "ok" and "ng" lines in any order, reads back as the verdict on each ref, plain or over side-band, however it is cut into frames and whatever other bands run between them |
| ReportStatus.VerdictsEach | apps/git-gateway/gw_rules.py:325-334 | distinct refs read back one by one: "ok", or "ng" and the reason |
| ReportStatus.RejectionFrames | apps/git-gateway/gw_rules.py:294-301 | over side-band a rejection is the first reason in band 2 and then the report in band 1, in packets of at most 65520 or 1000 bytes |
| ReportStatus.FirstReasonIs | apps/git-gateway/gw_rules.py:297 | the reason shown is the first that is given and not empty |
| ReportStatus.TextIs | apps/git-gateway/gw_rules.py:291 | the text that stands for a missing reason |
| HttpBody.SendChunked | apps/git-gateway/gateway.py:984-996 | the sending loop emits the chunked encoding of the non-empty blocks and the last chunk |
| HttpBody.OpenBody | apps/git-gateway/gateway.py:400-419 | a negative or oversized Content-Length is refused before anything is read; otherwise the reader starts at the body |
| HttpBody.Body.Next | apps/git-gateway/gateway.py:426-458 | one turn of the iterator: the piece it yields and the rest of the stream are together what was still to come |
| HttpBody.Body.ReadAll | apps/git-gateway/gateway.py:460-461 | reading to the end gives the outcome of the recursive definition, and its position |
| HttpBody.ChunkedWithinLimit | apps/git-gateway/gateway.py:421-425 | no input makes a chunked reader yield more than `limit` bytes, negative chunk sizes included |
| HttpBody.FixedExactly | apps/git-gateway/gateway.py:427-435 | fixed-length mode yields exactly Content-Length bytes, or all there are and an error |
| HttpBody.ChunkedRoundTrip | apps/git-gateway/gateway.py:882-895 | decoding the encoding of any blocks yields their concatenation and consumes exactly the encoding if it fits the limit, and fails with a prefix of it otherwise (section 7.1 of RFC 9112) |
| HttpBody.ExtensionIgnored | apps/git-gateway/gateway.py:441-443 | a chunk extension is not looked at (section 7.1.1 of RFC 9112) |
| IssueGraph.DescendantsWalk | apps/issues/hierarchy.py:62-73 | on any graph, cyclic or not, the walk returns each proper descendant exactly once and nothing else, and is truncated exactly if there are 10000 of them or more |
| IssueGraph.DependencyWalk | apps/issues/store.py:297-304 | the worklist loop reaches the edited issue if and only if, in the graph before the edit, some new dependency is the issue or lies below it; it ends by the measure (unseen issues, pending length) |
| IssueGraph.RepointAcyclic | apps/issues/hierarchy.py:88-97 | repointing the incoming edges of one node keeps an acyclic graph acyclic if and only if no new source is the node or reachable from it |
| IssueLinks.Attach | apps/issues/hierarchy.py:48-59 | the children map stands for the graph of the link table, each child once |
| IssueLinks.CheckParents | apps/issues/hierarchy.py:76-99 | which refusal, if any, said about the graph: ids, duplicates, count, existence, size of the hierarchy, then the first parent in order that would cycle or is full |
| IssueLinks.Write | apps/issues/hierarchy.py:102-110 | the two loops leave exactly the rows of the specification and report what was added and removed |
| IssueLinks.RewrittenRepoints | apps/issues/hierarchy.py:102-110 | rewriting the parents of an issue repoints its incoming edges and touches no others; rows stay unique and in time order |
| IssueLinks.RewrittenParents | apps/issues/hierarchy.py:102-110 | the rewritten issue has exactly the parents asked for |
| IssueLinks.RewrittenOthers | apps/issues/hierarchy.py:102-110 | every other issue keeps its parents, in order |
| IssueLinks.UnlinkUndoesLink | apps/issues/store.py:364-380 | unlinking what was just linked restores the table row for row |
| IssueRuns.AcceptedKept | apps/issues/hierarchy.py:76-110 | parents that the check accepts keep the relation acyclic, its ends existing and every issue within 50 parents |
| IssueRuns.NewIssueKept | apps/issues/store.py:431-434 | so do the parents of a new issue, although the cycle check is skipped for it |
| IssueRuns.FewerParentsKept | apps/issues/store.py:373-380 | so does removing a parent, which is not checked at all |
| IssueRuns.UpdateBlocks | apps/issues/store.py:289-304 | dependencies accepted on an update keep the blocked_by graph acyclic |
| IssueRuns.CreateBlocks | apps/issues/store.py:424-434 | so do those accepted on a create, although they are checked under the id -1 |
| IssueRuns.CreateKeeps | apps/issues/store.py:424-438 | a create, refused or not, keeps both graphs and the agreement of the index |
| IssueRuns.UpdateKeeps | apps/issues/store.py:439-451 | so does an update |
| IssueRuns.CommentKeeps | apps/issues/store.py:452-458 | so does a comment |
| IssueRuns.HideKeeps | apps/issues/store.py:383-414 | so does hiding or restoring an issue or a comment |
| IssueRuns.BatchKeeps | apps/issues/store.py:346-381 | so does a batch of links and unlinks, whichever it adds on the way |
| LinkBatch.BatchMeans | apps/issues/store.py:346-381 | what an accepted batch does, on the tables before and after: the parent gains exactly the children of `add` and then loses those of `remove`, every issue in neither list keeps its parent list, rows that stay keep their author and time, and the activity grows by one pair of events, naming parent and child, for each link really made and then each really undone |
| LinkBatch.BatchExactly | apps/issues/store.py:346-381 | a batch is accepted exactly if the lists are well-formed, all issues exist, no new child lies at or above the parent, has 50 parents or too many descendants, and the parent ends with at most 50 children; the order of the list does not matter, and a refused batch changes nothing |
| LinkBatch.LinkAllAccepts | apps/issues/store.py:364-374 | linking one after the other succeeds exactly if all may join at once, in the graph before the batch |
| LinkBatch.DedupeFirsts | apps/issues/store.py:352-356 | repeated ids count once, at their first place |
| IssueMeaning.CreateMeans | apps/issues/store.py:416-480 | what a create leaves: the next id, the sent fields over the defaults, version 1, the parents in the order asked for, and the event of the create followed by one event for each parent |
| IssueMeaning.CreateExactly | apps/issues/store.py:416-470 | a create is accepted exactly for sound fields, dependencies and parents, work not started before its blockers are resolved, and no version |
| IssueMeaning.UpdateMeans | apps/issues/store.py:441-480 | what an update leaves: every sent field taken and every other kept, one version more, the parents asked for, and the event of the update followed by one event for each parent gained or lost |
| IssueMeaning.UpdateExactly | apps/issues/store.py:441-470 | an update is accepted exactly for an existing issue, the version that the caller has seen if one is sent, and sound fields, dependencies and parents |
| IssueMeaning.OneUpdatePerVersion | apps/issues/store.py:444-445 | over any run, of all updates of an issue that name the same version at most one succeeds |
| IssueMeaning.VersionsGrow | apps/issues/store.py:479-480 | no step takes an issue away, and an issue that changes has one version more |
| IssueMeaning.FieldsExactly | apps/issues/store.py:275-288 | the field checks, said about bytes, characters and the literal lists of states and priorities |
| IssueMeaning.DepsExactly | apps/issues/store.py:289-304 | a dependency list is accepted exactly if it is short, its issues exist and are different, and none of them waits for the issue |
| IssueMeaning.CommentExactly | apps/issues/store.py:452-457 | a comment is accepted exactly on an existing issue, with something to say and a title of one trimmed line, if any |
| IssueMeaning.CommentMeans | apps/issues/store.py:479-494 | a comment leaves one event that carries it and one version more |
| IssueMeaning.HideIssueMeans | apps/issues/store.py:383-400 | hiding or restoring an issue changes its mark and version, and only if it was not so already |
| IssueMeaning.HideCommentMeans | apps/issues/store.py:401-414 | only comments of this issue can be hidden, and only the mark of that event changes |
| IssueRuns.ParentsStayAcyclic | apps/issues/store.py:346-381 | after any run the parent relation is acyclic and every issue has at most 50 parents, all different |
| IssueRuns.DependenciesStayAcyclic | apps/issues/store.py:275-304 | after any run no issue waits for itself through any chain of blocked_by entries, and every entry names an existing issue |
| IssueRuns.IndexIsTheRebuild | apps/issues/search.py:55-134 | after any run of creates, updates, comments, hides and link batches the index holds, key by key, exactly the documents (text, author, time, filters) that replaying the activity derives |
| IndexMeaning.TextIsIndexed | apps/issues/search.py:62-87 | after any run the title and the description of an issue are found as its title and description, with its own status, assignee and labels: the label filter finds them exactly by a label of the issue |
| IndexMeaning.CommentsAreIndexed | apps/issues/search.py:84-87 | after any run every comment is one document with all its words, title and body, by its author and at its time |
| IndexMeaning.NothingElseIsIndexed | apps/issues/search.py:76-87 | there are no other documents |
| IndexMeaning.AuthorsWrote | apps/issues/search.py:94-107 | the author and time of an indexed title or description are those of a write that sent exactly this text |
| IndexMeaning.NeverMisattributed | apps/issues/search.py:94-107 | whatever history a rebuild meets, it names an author only for a text that this author wrote |
| IndexAgreement.WriteAgrees | apps/issues/search.py:75-87 | a create or update leaves the index in agreement with a rebuild |
| IndexAgreement.CommentAgrees | apps/issues/search.py:83-86 | so does a comment |
| IndexAgreement.QuietAgrees | apps/issues/store.py:334-344 | an event that carries no text needs no index write |
| IndexAgreement.MarkAgrees | apps/issues/store.py:399-413 | hiding or restoring a comment changes no document |
| IndexAgreement.AgreementIsUnique | apps/issues/search.py:110-134 | two indexes that agree with the same activity hold the same documents |
| IndexAgreement.Writers | apps/issues/search.py:94-107 | the loop finds who last changed a field and when, or nobody if the events do not explain the stored text |
| IndexAgreement.Rebuild | apps/issues/search.py:110-134 | skipped if the marker is there; otherwise the loops derive exactly the documents of the specification and leave a consistent full-text table, or the deadline passes and nothing has changed |
| SearchIndex.Index.Put | apps/issues/search.py:62-72 | one document is replaced, or removed if blank, and the full-text table mirrors the documents row by row |
| SearchIndex.Index.SyncFilters | apps/issues/search.py:55-59 | the filter columns of all documents of an issue follow the issue, nothing else changes |
| SearchIndex.Index.OnFieldsWritten | apps/issues/search.py:75-87 | title and description are indexed again exactly if they changed |
| SearchIndex.Index.OnCommentWritten | apps/issues/search.py:83-87 | a comment is one document under its event |
| IssueStore.Validate | apps/issues/store.py:275-304 | the refusal of the specification, from a walk over the table that already holds the new list of the edited issue |
| IssueStore.Store.constructor | apps/issues/store.py:68-103 | an empty store satisfies the invariant |
| IssueStore.Store.CreateIssue | apps/issues/store.py:416-504 | the new state or refusal of the specification; on success the new issue has the sent fields over the defaults and exactly the parents asked for, in that order, and no other issue has others than before |
| IssueStore.Store.UpdateIssue | apps/issues/store.py:439-504 | the new state or refusal of the specification; on success the sent fields are taken and the others kept, the parents are those asked for or the old ones, and no other issue has others than before |
| IssueStore.Store.CommentOn | apps/issues/store.py:452-498 | the same for a comment |
| IssueStore.Store.Hide | apps/issues/store.py:383-414 | the same for hiding and restoring |
| IssueStore.Store.Relate | apps/issues/store.py:346-381 | the new state or refusal of the specification; it succeeds exactly for an acceptable batch, and then the children added are under the parent, those removed are not, and every other issue keeps its parents |
| IssueStore.Store.Reindex | apps/issues/search.py:110-134 | skipped, done or given up, a rebuild at any time changes no document |
| LabelFilter.CodeInjective | apps/issues/search.py:45-48 | the code of a label is injective on lower-case text, even when LIKE ignores case |
| LabelFilter.CodeHasNoBar | apps/issues/search.py:45-48 | the code of a label holds no bar |
| LabelFilter.LikeLiteral | apps/issues/search.py:137-138 | an escaped term in a pattern matches the term itself, up to ASCII case, and nothing else |
| LabelFilter.FilterFindsLabel | apps/issues/search.py:51-52 | for all lower-case labels and queries, bars, percent signs, underscores and backslashes included, the pattern matches the stored key if and only if the query is one of the labels; the one exception is an empty query on no labels |
| LabelFilter.FilterFindsLabelAnyCase | apps/issues/search.py:189-190 | the same for labels and queries of any case under any lower-casing that leaves no ASCII capitals |
| UnicodeText.SizeIsEncoded | apps/issues/store.py:48-51 | the size checked is the length of the UTF-8 form |
| UnicodeText.Utf8ReadsBack | apps/issues/store.py:48-51 | and that form reads back (section 3 of RFC 3629) |
| UnicodeText.SpacesAre | apps/issues/store.py:48-51 | the characters that count as white space |
| SoulRuns.NextKeeps | apps/soul/soul.py:369-429 | every step keeps the invariant, wherever the process dies in a save, a delete or the sweep at its start, and whatever quotas each process is started with |
| SoulRuns.BlobsAreExactlyReferenced | apps/soul/soul.py:497-502 | while the process runs, after any saves, failed saves, deletes, crashes and restarts with any quotas, the blob files are exactly the digests of the entries of live snapshots |
| SoulRuns.ArchiveReads | apps/soul/soul.py:477-495 | a live snapshot reads back as the bytes whose hash its row recorded |
| SoulRuns.SavedBytesComeBack | apps/soul/soul.py:422-429 | if its owner does not delete this very snapshot, its row is the saved one and everyone the upload admits gets the archive of the uploaded files, whatever happens around it and however blobs are shared; if it is deleted, no other bytes are ever served |
| SoulAccess.ServedExactly | apps/soul/soul.py:364-367 | over any run: a saved snapshot that its owner does not delete is served, byte for byte, to exactly its owner, its readers, or everyone if it is shared with the workspace; for all others it does not exist |
| SoulAccess.ArchiveExactly | apps/soul/soul.py:489-495 | the same on the rows of any state that a run can reach |
| SoulAccess.DamageIsSeen | apps/soul/soul.py:477-487 | on any files at all, intact or not, an archive that is served holds the bytes whose hashes the row recorded |
| SoulAccess.ReadBackExactly | apps/soul/soul.py:477-487 | the entries read back exactly if every blob is intact, and the error says whether one is missing or damaged |
| SoulAccess.SaveExactly | apps/soul/soul.py:369-416 | a save succeeds exactly for an acceptable upload under a new id while storage works; the row added has the owner, next version, readers, parent, file list, sizes and hashes of the upload |
| SoulAccess.AcceptableExactly | apps/soul/soul.py:373-395 | an upload is refused for its parent, then for secrets, then for the quota, each exactly when it applies |
| SoulAccess.DeleteExactly | apps/soul/soul.py:504-518 | a delete succeeds exactly for the owner, also a second time, and buries that row only; others learn of the snapshot only if they can read it |
| SoulAccess.DeletedByOwner | apps/soul/soul.py:504-518 | over any run nobody but the one who saved a snapshot can delete it |
| SoulRuns.DeletedStaysDeleted | apps/soul/soul.py:504-518 | once deleted, a snapshot is never served again |
| SoulRuns.FailedSaveChangesNothing | apps/soul/soul.py:422-429 | a failed save leaves no trace: not in the tables, and not one file |
| SoulRuns.VersionsCountUp | apps/soul/soul.py:396-397 | after any run the versions of a lineage are 1, 2, 3, ... in order of saving, with none reused after a delete |
| SoulRuns.NextGrows | apps/soul/soul.py:392-395 | in one step the usage of an owner other than the legacy one grows only to within both quotas of the process that is up, whatever the quotas were before |
| SoulRuns.QuotasHold | apps/soul/soul.py:264-271 | if no process of a run is started with quotas beyond some bounds, no owner but the legacy one is ever beyond them |
| SoulStoreImpl.Store.constructor | apps/soul/soul.py:266-329 | opening with any positive quotas on whatever an earlier process left makes the directory exact again |
| SoulStoreImpl.OpenStore | apps/soul/soul.py:266-271 | quotas that are not positive are refused before anything is touched |
| SoulStoreImpl.Store.WriteBlob | apps/soul/soul.py:343-356 | a blob is written under a scratch name and renamed, unless it is there already |
| SoulStoreImpl.Store.Gc | apps/soul/soul.py:497-502 | the pass over the directory leaves exactly the referenced blobs, contents unchanged |
| SoulStoreImpl.Store.ArchiveBytes | apps/soul/soul.py:477-487 | every blob is read back and its hash checked, in entry order |
| SoulStoreImpl.Store.SaveUpload | apps/soul/soul.py:369-429 | the whole new state of a save, or of a failed one; success means an acceptable upload and exactly its row, failure no change at all |
| SoulStoreImpl.Store.DeleteSnapshot | apps/soul/soul.py:504-518 | the whole new state of a delete, which succeeds exactly for the owner, with its refusals |
| SoulStoreImpl.Store.ReadArchive | apps/soul/soul.py:489-495 | the archive, whose hash is the recorded one, exactly for the owner, the readers, or everyone if it is shared with the workspace; nothing but "not found" is ever answered instead |
| PolicyDecision.SortIsSorted | apps/policy/policy.py:1008 | the sort keeps the rules and puts none before one that precedes it |
| PolicyDecision.MatchedIsBest | apps/policy/policy.py:1008-1009 | the matched rule is the earliest in document order among the rules bearing on the query that no other such rule precedes |
| PolicyDecision.EffectIsMeaning | apps/policy/policy.py:1004-1012 | the effect is deny if and only if some deny rule that bears on the query has at least the priority of every allow rule that does, else allow if any rule bears on it, else the default of the action, else allow; the decision is deny exactly for a deny effect in enforce mode. Bearing is said field by field, without the code's matching |
| PolicyDecision.EvaluateMeans | apps/policy/policy.py:988-1012 | a dry run is answered exactly for well-formed texts and a first-version document, with that meaning and the rule it names |
| PolicyDecision.MatchesMeans | apps/policy/policy.py:1015-1025 | a rule matches exactly if it lists the action, some subject selector names nothing but the caller, a group that holds them, and their own resource for "self", and some resource selector names nothing but the resource and a group that holds its principal |
| PolicyDecision.IrrelevantRule | apps/policy/policy.py:1008-1009 | a rule that does not bear on a query, wherever it stands, changes neither effect nor decision nor the rule named |
| PolicyDecision.OtherResources | apps/policy/policy.py:1008-1009 | in particular a rule none of whose resource selectors covers the resource |
| PolicyDecision.OrderDoesNotMatter | apps/policy/policy.py:1004-1012 | permuting the rules changes neither effect nor decision |
| PolicyHistory.LoadAccepts | apps/policy/policy.py:319-360 | what a process writes is accepted by the next one, which serves the same bundle and history |
| PolicyHistory.PublishShape | apps/policy/policy.py:396-426 | a publish succeeds only against the current revision, raises it by one and keeps the history consecutive, normalised and at most 100 long |
| PolicyHistory.RunKeeps | apps/policy/policy.py:390-426 | after any run with failed writes, crashes around the rename and restarts, the commits were against revisions 1, 2, 3, ... in this order |
| PolicyHistory.OneCommitPerRevision | apps/policy/policy.py:399-401 | of all publishes and rollbacks against one revision at most one ever takes effect |
| PolicyHistory.ReloadReproduces | apps/policy/policy.py:319-360 | restarting after any run reproduces the bundle and the history of a file that was written, and never refuses it; as long as nothing was written, it gives the initial state again with a new publish time |
| PolicyHistory.HistoryIsConsecutive | apps/policy/policy.py:413 | the history holds the last revisions without a gap, all of them until there are 100, the current one last |
| PolicyHistory.RollbackRestores | apps/policy/policy.py:390-394 | a rollback succeeds exactly for the last 100 revisions and the expected current one, and brings that document and mode back |
| PolicyValidity.ValidExactly | apps/policy/policy.py:104-156 | a document is accepted exactly if it is sound, field by field: known kinds, known groups, distinct rule ids, sizes; absent fields are then empty and nothing else changes |
| PolicyValidity.PublishExactly | apps/policy/policy.py:396-426 | a publish succeeds exactly against the current revision, with a known mode and a sound document, and then is the current revision, stamped and last of at most 100 |
| PolicyValidity.LoadExactly | apps/policy/policy.py:319-360 | a process starts on a file exactly if its revisions are sound, increasing and at most 100, the last being the current one, and serves what the file says |
| PolicyValidity.StartsOpen | apps/policy/policy.py:319-328 | without a file: revision 1, monitoring, with no rules |
| PolicyStore.ReadState | apps/policy/policy.py:319-360 | the loop over the stored revisions accepts and returns what the specification does |
| PolicyStore.Store.constructor | apps/policy/policy.py:311-318 | a process starts in a valid state on any file that earlier processes left |
| PolicyStore.Store.PublishDocument | apps/policy/policy.py:396-426 | file and memory are replaced together, or neither is |
| PolicyStore.Store.RollbackTo | apps/policy/policy.py:390-394 | the whole new state of a rollback |

## Left out

- HTTP handlers, OAuth, cookies, identity checks and command lines of all Apps: request plumbing.
- SQLite, file locks, permissions and fsync: a transaction is one atomic step that commits or changes nothing.
- SHA-256 is taken as collision free and tar writing as any function of the members; tar reading, manifest checks and the secret scan are inputs of a save.
- Credential store: token names and their character check (a flag), last-used stamps, peer addresses, the list views and the ring of management records; the short code's normalisation is an input.
- Issue tracker: JSON typing of requests, mentions, notices, wake-ups and `#N` references; the state of the link limit is an input of a request that may refuse it, and `LinkRate` treats it on its own; events keep their text, their comment and the other end of a link; the children map is not sorted, which no modelled result depends on; link and hide summaries.
- Issue tracker timestamps are numbers that survive being printed and read back; the migration of old databases is not modelled.
- SearchIndex.Index.Put: row ids differ between an incremental index and a rebuilt one, so agreement is stated on the documents by key.
- Ranking, snippets and the query side of search beyond the label filter.
- PushHead.CutsAgreeExactly: covers bodies that are not gzip-encoded.
- PushHead.PushHead.Feed: the gzip decoder is not modelled.
- PushHead.ParseReceivePackCommands: ref names and capabilities stay bytes; the replacement of invalid UTF-8 when they are decoded is not modelled.
- PushRelay.RelayPush: a push whose updates the rules all allow; credentials, the answer of the server and a retry are not modelled. That a broken chunked body is seen is stated for requests whose size fits a size line of 1024 bytes.
- LinkRate.LimitHoldsExactly: with more than 1000 principals and a clock set back, a purge may forget more; only `LinkRate.LimitHolds` covers that many. A restart of the process forgets all hits.
- ReportStatus.ParseReportStatus: lines stay bytes, and only ASCII white space is stripped from a reason.
- ReportStatus.RejectionRoundTrip: refs and reasons stay bytes; the replacement of invalid UTF-8 when they are shown is not modelled, and only ASCII white space is stripped.
- HttpBody.ChunkedRoundTrip: for blocks whose size line fits the reader's limit of 1024 bytes.
- HttpBody.Body.Next: the stream is a buffered reader, which reads to the end for -1 and raises an error for any other negative length.
- RsaSigning: reading the key from its DER form; `Load` starts from the eight numbers.
- The credential caches of the gateway and its rule matching.
- SoulStoreImpl.Store.constructor: the one-time migration of legacy archives is not modelled; a store opens on what a store of this form left.
- Snapshot store: `list` and `by_name`, and a sweep that fails while the process lives on.
- Policy: path selectors, bindings and conditions of schema version 2; which characters are printable and the size of a document's JSON are parameters, the latter known only to admit the empty document.
- The backup of a state file written before histories existed, and the signing and notification of bundles.
- Supervisor, updater, Agent Hub, mail client and web front ends.
