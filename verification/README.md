# Gateway VPN: verified protocols

Gateway VPN is a fail-closed gateway: traffic passes only through one verified path, configuration and database survive
crashes, and privileged state is changed only in an order that can be undone. This project models the protocols that this
rests on and proves what they promise over every run, with every call free to fail and the process free to die in between.

| file | protocol |
|---|---|
| RestoreModel.dfy, RestoreApply.dfy | restoring a backup: ten paths swapped by rename under a journal |
| Recovery.dfy | start-up recovery of a corrupt database |
| ChunkStream.dfy | the authenticated chunk stream of portable backups |
| PathEvidence.dfy | evidence for direct paths, fenced by policy and route generations |
| Ranking.dfy, Transition.dfy, Priorities.dfy | which path is best, when to switch, in which order methods stand |
| Firewall.dfy, FirewallObserve.dfy | the nft gate: rendering, reading back, applying |
| RoutingKeys.dfy, Routing.dfy | policy routing behind a closed gate |
| WireGuard.dfy | moving the management tunnel on a confirmed handshake |
| LoginThrottle.dfy, Sessions.dfy | failed logins, users and sessions |
| StatusExpression.dfy | expected HTTP status expressions |
| Base.dfy, Sorting.dfy, Text.dfy | shared values, sorting, strings and numbers as text |

Verify everything with `dafny verify dfyconfig.toml`.

## How to read the model

Code that updates rows, files or kernel tables is a class whose methods update fields; pure decisions are functions. A call
into the operating system or the database is drawn without restriction: it may succeed, fail or, in the restore and recovery
models, kill the process. A killed method returns at once, so its postcondition describes what the next start finds. A failed
write may or may not have taken effect wherever the original cannot tell. The flag `calm` says that no call failed, `steady` that the environment will let none fail;
clauses under it say what the operation then achieves, so a body that does less is not accepted. Each protocol has a `Run`
method over arbitrary sequences of events. It returns the states of the run, first to last, and states that each follows from
the one before by the step of its event (`Follows`), with the answer of that event; an event marked undisturbed meets no
failure and must achieve what it is for. The properties of whole runs are stated of these states.

Assumptions:

- A rename is atomic, and renames and record writes become durable in program order. Deleting a directory may stop part-way.
- Nothing else writes the managed paths while a restore is applied.
- What the snapshot before a restore leaves of the live database is part of the apply event (`Opening`).
- What the verification of a committed tree finds is part of the apply event, so no body can choose it. `hist.betrayed` is
  set only after an unsafe verdict (`SafeVerdict`, exact in `SafeVerdictExactly`): a refusal after finalization deleted a
  copy, an acceptance after an interrupted rollback put originals back, or a death over side files that were put back.
  `RefusedVerificationMixes` and `AcceptedVerificationMixes` show that all or nothing can then fail. It is proved for every
  state before the first unsafe verdict, and for every state of a run whose verifications refuse no committed tree that is
  the image. After an unsafe verdict, resuming still destroys no content without keeping the copy of the original (`Spared`).
- A database transaction is one atomic step and fails as a whole. Random tokens and authorizations do not repeat.
- AES-GCM is an abstract cipher: `Correct` (opening inverts sealing, sizes add up) for the round trip, `Ideal` (only what was
  sealed opens) for exactness. Argon2id and the JSON header are the function `derive`.
- An nft transaction applies entirely or not at all, and a listing shows each element once, in any order and wrapping that
  `FirewallObserve.Presents` admits. The text of numbers in a listing is read by an arbitrary function `parse`.
- The ip tool lists owned rules and base routes in kernel order, and a deletion removes the first match.
- The driver of path switching acts on the decision flags and records a switch after activation; its clock is monotone.
- Only the modelled code sets the management modem.

Some properties turned out to hold only under a condition:

- Rolling back a committed tree restores the originals exactly when no needed copy was lost (`CommittedRollbackExact`); so a
  refusal is safe exactly then, and an acceptance exactly when the image is in place (`SafeVerdictExactly`).
- A direct gate is confirmed exactly when the LAN is not called wg-ingress; there the gate is opened and the call reports
  failure (`ConfirmedExactly`).
- Reordering priorities meets the unique index exactly when its two passes collide, never when priorities are spaced by ten
  (`ReorderEnabled`, `OneToTenIsRefused`).
- The settings of a confirmed tunnel are unchanged at the confirmation and at every sync since the probe that read them,
  failed ones included, unless the write that drops a stale candidate is lost (`FailedSyncCanHideAChange`).
- Route keys are proved injective for destinations with one slash and names without (`RouteKeyIsInjective`, `SlashesConfuse`).

## Model

| member | source | states |
|---|---|---|
| RestoreApply.Host.Run | internal/backup/restore_apply.go:86-198 | Over every schedule of staging, authorizing, applying, discarding and serving, each call cut short by a failure or a crash anywhere: the trace follows the events step by step; in every state before an unsafe verdict on a committed tree, no request pending means that the ten destinations together, the database included, are what the events explain: what they held at the start or the image of one apply, with what the gateway wrote since and what snapshots left of the database; a rollback copy exists only under an APPLYING or COMMITTED journal, and no authorization was served twice; if verification refuses no committed tree that is the image, all or nothing holds of every state; an undisturbed event achieves what it is for |
| RestoreModel.InvariantMeaning | internal/backup/restore_apply.go:155-198 | What the invariant of every reachable state means: all-or-nothing, rollback copies only under a journal that knows them, distinct activations, and no live journal of a different authorization, so that error branch is dead |
| RestoreApply.Host.Apply | internal/backup/restore_apply.go:86-153 | Keeps the invariant on every outcome and is a permitted step: the originals, the database included, stay, are what the given snapshot left, or become all at once the image; on a resume they stay or become the image under way; activations grow only by the authorization served, the run is given up only on an unsafe verdict, resuming a journal destroys no content without keeping the copy of the original; from a clean start the ten destinations end as they were, as the snapshot left them, or as this image; with no failing call the request is served |
| RestoreApply.Host.Attempt | internal/backup/restore_apply.go:105-152 | A new attempt keeps the invariant and the memory of the originals wherever it stops: they stay, are what the given snapshot left, or become the image at completion; COMPLETED leaves no journal, no pending record and the full image of this call |
| RestoreApply.Host.Swap | internal/backup/restore_apply.go:125-152 | From PREPARED through ten swaps on, invariant and memory of the originals kept at every write |
| RestoreApply.Host.Commit | internal/backup/restore_apply.go:143-152 | Verification, COMMITTED, finalization, or the rollback; a committed tree is the image |
| RestoreApply.Host.Publish | internal/backup/restore_apply.go:143-152 | COMMITTED is recorded over a verified image only, then finalized |
| RestoreApply.Host.ResumeInterrupted | internal/backup/restore_apply.go:155-198 | After any crash: a committed journal is judged again, any other is rolled back and revokes the authorization, a rolled-back journal of an older authorization asks for a new attempt; a retry never follows an activation of the same authorization; given up exactly on an unsafe verdict, and even then contents or copies are spared |
| RestoreApply.Host.ResumeCommitted | internal/backup/restore_apply.go:175-182 | A committed tree is finished or rolled back as the given verification says; the run is given up exactly when that verdict is unsafe; an image in place stays in place unless refused; with no failing call it is completed exactly when the image is in place |
| RestoreApply.Host.ActivateAll | internal/backup/restore_apply.go:129-142 | The loop of swaps: every prefix of it is recoverable, and its end is the image item by item |
| RestoreApply.Host.ActivateItem | internal/backup/restore_apply.go:355-381 | One swap, cut anywhere: untouched, quarantined or activated, nothing else |
| RestoreModel.ActivationKeeps | internal/backup/restore_apply.go:355-381 | Every intermediate state of one swap still recovers to the original |
| RestoreApply.Host.RollbackItems | internal/backup/restore_apply.go:468-507 | The reverse loop over all items; stopping anywhere keeps every original recoverable, finishing gives exactly RollbackAll of the state it began in |
| RestoreApply.Host.RestoreDestination | internal/backup/restore_apply.go:468-507 | The copy goes back, or what only the activation can have made is removed; stopping anywhere leaves the copy |
| RestoreModel.RollbackRestores | internal/backup/restore_apply.go:468-507 | From every state that an interruption can leave, rollback reaches the originals and nothing else; so a second run after a partial one ends in the same files |
| RestoreModel.PartialRollbackKeeps | internal/backup/restore_apply.go:468-507 | A rollback that stopped part-way is still described by its journal |
| RestoreModel.CommittedRollbackExact | internal/backup/restore_apply.go:175-197 | When verification refuses a committed tree, rolling it back gives the originals if and only if no needed rollback copy was already deleted |
| RestoreModel.KeptIsUnwindable | internal/backup/restore_apply.go:175-197 | Exactly when no needed copy was lost, a refused committed tree goes on like one that was never committed, so such runs stay all-or-nothing |
| RestoreModel.IntactIsSafe | internal/backup/restore_apply.go:175-182 | On a committed tree that nothing has begun to take apart every verdict is safe |
| RestoreModel.SafeVerdictExactly | internal/backup/restore_apply.go:175-197 | An acceptance is safe if and only if the image is in place, a refusal if and only if every original is kept |
| RestoreModel.SafeVerdictKeeps | internal/backup/restore_apply.go:175-197 | A safe verdict leads on: an accepted tree is the image, a refused one can be rolled back |
| RestoreApply.GivenUpAfterUnsafe | internal/backup/restore_apply.go:155-198 | A state of a run is given up only if an earlier verdict on a committed tree was unsafe |
| RestoreApply.TrustedRunIsSound | internal/backup/restore_apply.go:155-198 | If no verification refuses a committed tree that is the image, every state of the run is all or nothing |
| RestoreApply.DestinationsAreExplained | internal/backup/restore_apply.go:86-198 | All or nothing by the inputs alone: with no request pending, the ten destinations of every state not given up are explained by the events, and so is the image under way |
| RestoreModel.JudgedKeeps | internal/backup/restore_apply.go:175-182 | A safe verdict keeps the invariant |
| RestoreModel.RefusedVerificationMixes | internal/backup/restore_apply.go:175-197 | A concrete half-finalized disk on which that rollback leaves the restored configuration beside the original database |
| RestoreModel.HalfFinalizedIsReached | internal/backup/restore_apply.go:509-527 | How that disk comes about: ten complete activations, COMMITTED, one removal of finalization |
| RestoreModel.AcceptedVerificationMixes | internal/backup/restore_apply.go:383-436 | A concrete committed disk whose rollback died half-way: everything verification looks at is in place, and accepting it, an unsafe verdict, makes the mixture permanent |
| RestoreModel.HalfUndoneIsReached | internal/backup/restore_apply.go:175-197 | How that disk comes about: ten complete activations, COMMITTED, a refusal that is safe, and the rollback of the last eight items |
| RestoreApply.Host.RollbackAndRecord | internal/backup/restore_apply.go:438-454 | Rollback, then the ROLLED_BACK record, then the revoked authorization, then the journal: each prefix keeps the invariant |
| RestoreModel.RolledBackKeeps | internal/backup/restore_apply.go:438-454 | Recording ROLLED_BACK is safe once the originals are back |
| RestoreApply.Host.FinalizeRolledBack | internal/backup/restore_apply.go:456-466 | The journal goes only after the authorization was revoked |
| RestoreApply.Host.FinalizeCommitted | internal/backup/restore_apply.go:509-527 | Copies are deleted, the operation completed and the journal removed, in that order; originals become the image exactly at completion |
| RestoreApply.Host.DropCopies | internal/backup/restore_apply.go:509-520 | Deleting copies keeps the image whole at every step |
| RestoreApply.Host.CleanupCandidates | internal/backup/restore_apply.go:529-538 | Touches no destination, deletes candidates and rollback copies; in every reachable call there is no rollback copy to lose |
| RestoreApply.Host.PrepareCandidates | internal/backup/restore_apply.go:236-284 | Builds the candidates beside untouched destinations |
| RestoreApply.Host.VerifyActivated | internal/backup/restore_apply.go:383-436 | Verification may recreate the SQLite side files and nothing else; a remaining mihomo/active is refused |
| RestoreApply.Host.RemoveJournal | internal/backup/restore_apply.go:658-666 | Removing the journal changes nothing else |
| RestoreApply.Host.CreatePreRestoreSnapshot | internal/backup/restore_apply.go:200-234 | The snapshot before a restore opens the live database: items 1, 8 and 9 and their originals become the given ones, nothing else changes |
| RestoreApply.Host.AuthorizeApply | internal/backup/restore.go:200-236 | Marker first, record second: APPLY_REQUESTED is seen only after the second write, and carries the new authorization |
| RestoreApply.Host.MarkApplyFailure | internal/backup/restore.go:318-338 | Record first, marker second: a torn failure reads as STAGED; success stores the error code |
| RestoreApply.Host.Complete | internal/backup/restore.go:340-367 | The restore is over at the instant the pending marker disappears |
| RestoreApply.Host.Discard | internal/backup/restore.go:296-316 | Only a STAGED operation is discarded, marker before record |
| RestoreApply.Host.Stage | internal/backup/restore.go:102-193 | A verified upload becomes the one pending operation without touching a destination |
| Recovery.Manager.Run | internal/backup/recovery.go:66-134 | Over any number of starts that may die anywhere, with damage in between, every event has its result and its state: once a database was in place, no later start reports FRESH; in every state an absent database has its marker; an undisturbed start on an unsound file with a sound snapshot and nothing irregular beside it restores |
| Recovery.Manager.Prepare | internal/backup/recovery.go:66-134 | FRESH only where no database ever existed; HEALTHY and RESTORED mean that the live file was verified in this call; no file is ever lost, only moved to quarantine, and earlier quarantines are unchanged; a live file is as it was, away, or the sound snapshot; the outcome for every kind of live file when no call fails |
| Recovery.Manager.Replace | internal/backup/recovery.go:102-133 | Quarantine, restore, finish: RESTORED means the live file is the snapshot, verified |
| Recovery.Manager.Reinstate | internal/backup/recovery.go:108-133 | With the live files away, the snapshot takes their place or nothing does; quarantines stay |
| Recovery.Manager.QuarantineLiveDatabase | internal/backup/recovery.go:236-302 | Marker before the first move; every file is in place or in quarantine wherever it stops |
| Recovery.Manager.MoveAll | internal/backup/recovery.go:261-301 | The move loop with its reverse rollback: each file is in exactly one of the two places |
| Recovery.Manager.RestoreSnapshotFile | internal/backup/recovery.go:304-344 | The live file changes only by renaming a verified copy into place |
| Recovery.Manager.FinishRecovery | internal/backup/recovery.go:385-395 | The recovery is recorded before the marker goes |
| Recovery.MovingKeeps | internal/backup/recovery.go:261-301 | Moving one file keeps the three conserved |
| Recovery.MovingOut | internal/backup/recovery.go:261-301 | Moving one more file out leaves the others where they are |
| ChunkStream.ArchiveRoundTrip | internal/backup/portable.go:492-622 | For every payload of 1 byte to 256 MiB whose records open, the archive fits 300 MiB and decrypts to the payload |
| ChunkStream.ArchiveExact | internal/backup/portable.go:492-622 | Under an ideal cipher, of all files with this header exactly the archive is accepted, and it gives the content back |
| ChunkStream.AcceptedIsArchive | internal/backup/portable.go:492-622 | Also of a writer that stopped before the end: what is accepted is the archive of what was sealed |
| ChunkStream.WriteArchive | internal/backup/portable.go:624-685 | A backup written in any pieces succeeds where the destination does not fail, and leaves the encoding of its payload; if the cipher opens only what this writer sealed, every other file with this header is refused |
| ChunkStream.LogSuiteIsIdeal | internal/backup/portable.go:660-685 | For every set of sealed records there is an ideal cipher |
| ChunkStream.ExactnessApplies | internal/backup/portable.go:624-685 | For every content the hypotheses of exactness can be met |
| ChunkStream.IdealReadsSealed | internal/backup/portable.go:560-613 | Under an ideal cipher every record of a complete stream opens |
| ChunkStream.CorrectReadsAll | internal/backup/portable.go:560-613 | Under a correct cipher every record opens |
| ChunkStream.DecodeInvertsEncode | internal/backup/portable.go:560-613 | The record decoder inverts the stream encoder from every position |
| ChunkStream.AcceptedIsAuthentic | internal/backup/portable.go:560-613 | Under an ideal cipher nothing truncated, reordered, spliced or appended is accepted |
| ChunkStream.ParsedWasSealed | internal/backup/portable.go:560-613 | A record that parses at an index was sealed for that index, byte for byte |
| ChunkStream.ParseInvertsRecord | internal/backup/portable.go:660-685 | Reading a record back gives its kind, index and plaintext, and leaves what follows |
| ChunkStream.DecryptRecords | internal/backup/portable.go:560-613 | The decrypt loop computes the recursive decoder |
| ChunkStream.Decrypt | internal/backup/portable.go:492-622 | Header checks, key derivation and the loop together compute the specified decoder, failures included |
| ChunkStream.StreamFits | internal/backup/portable.go:32-35 | Header and records of any admitted payload stay inside the file bound |
| ChunkStream.Writer.Write | internal/backup/portable.go:624-644 | However the payload is split and whichever write fails, the consumed bytes are a prefix of it, and every sealed record is a chunk of the content at its index; the loop ends although a retry with a full buffer consumes nothing |
| ChunkStream.Writer.WriteRecord | internal/backup/portable.go:660-685 | The index advances only when both writes succeeded |
| ChunkStream.Writer.Close | internal/backup/portable.go:646-658 | A successful close leaves exactly the encoding of everything written, with every record of it sealed; a second close does nothing |
| ChunkStream.EncodeByParts | internal/backup/portable.go:624-658 | Chunks already sealed, the rest of the buffer and the final record make up the encoding of the whole content |
| ChunkStream.NonceNeverReused | internal/backup/portable.go:660-685 | No nonce seals two different records, over any mix of writes, failures, retries and closes |
| ChunkStream.AadIsInjective | internal/backup/portable.go:660-685 | The additional data tells kind and index apart |
| PathEvidence.Store.Run | internal/accesspolicy/direct_paths.go:83-329 | In every interleaving of target edits, route changes, reconciles and late publications the states follow the events, and each listing holds exactly the admissible paths of its state, the FULL ones proven by complete current evidence |
| PathEvidence.FullIsBacked | internal/accesspolicy/direct_paths.go:296-329 | A FULL path has unexpired evidence in which each enabled GLOBAL_REQUIRED target passed, at the policy and route generation of now |
| PathEvidence.Store.Publish | internal/accesspolicy/direct_paths.go:181-291 | Published if and only if the update is valid, its generations are current and it names every active target once under its class with the right counts; the whole new database, or the old one |
| PathEvidence.CountsForceCoverage | internal/accesspolicy/direct_paths.go:256-289 | Equal counts force exact coverage, by pigeonhole |
| PathEvidence.CountsDecide | internal/accesspolicy/direct_paths.go:256-289 | The two count queries decide whether one class of the update is exact |
| PathEvidence.MeasuredAreNamed | internal/accesspolicy/direct_paths.go:256-289 | What is stored for the path in these generations is what the update names |
| PathEvidence.RowsAreInserted | internal/accesspolicy/direct_paths.go:229-255 | The replaced results, target by target |
| PathEvidence.PublishKeeps | internal/accesspolicy/direct_paths.go:181-291 | A publication that passed its checks keeps every listed path backed |
| PathEvidence.InsertTargets | internal/accesspolicy/direct_paths.go:233-255 | The loop accepts exactly the results that name different, enabled targets of the stated class, and computes the replaced table |
| PathEvidence.Store.Reconcile | internal/accesspolicy/direct_paths.go:83-148 | Brings every path to the current generations |
| PathEvidence.ReconcileFences | internal/accesspolicy/direct_paths.go:83-148 | No evidence crosses into another policy or route generation |
| PathEvidence.ReconcileKeeps | internal/accesspolicy/direct_paths.go:83-148 | Reconciling keeps the invariant |
| PathEvidence.Store.Candidates | internal/accesspolicy/direct_paths.go:296-339 | Lists each admissible path once, and only proven ones |
| PathEvidence.Store.CreateTarget | internal/bypass/repository.go:79-136 | A new target invalidates all evidence |
| PathEvidence.Store.UpdateTarget | internal/bypass/repository.go:138-202 | Accepted exactly when the class fits and the last required target is kept or given up with confirmation; the new database as a function of the old, all evidence invalidated |
| PathEvidence.Store.DeleteTarget | internal/bypass/repository.go:204-244 | Accepted under the same guard; the new database as a function of the old, without the target and its results, all evidence invalidated |
| PathEvidence.Store.Invalidate | internal/store/policy.go:16-100 | The new generation is larger and no path carries evidence into it |
| PathEvidence.Store.ReconcileBoot | internal/accesspolicy/transition.go:235-280 | A boot drops every result and every qualification, as a function of the old database |
| Transition.Selection.Run | internal/accesspolicy/transition.go:46-163 | Over every run under a monotone clock rows and decisions follow the events: waited switches are a cooldown apart, each was earned by proposing the same candidate at every evaluation for the hold time, pending key and time are set together, no evaluation is an error |
| Transition.SwitchesAreSlow | internal/accesspolicy/transition.go:46-89 | k waited switches span at least k - 1 cooldowns |
| Transition.AllowedExactlyWhenDue | internal/accesspolicy/transition.go:46-89 | A switch without a hard failure is allowed if and only if both waits are over |
| Transition.AllowedExactlyWhenHeld | internal/accesspolicy/transition.go:46-163 | In every run a switch without a hard failure is allowed if and only if its key has been pending, unbroken, for the wait that applies and the last switch is a cooldown ago |
| Transition.PendingIsRecorded | internal/accesspolicy/transition.go:118-163 | A key that nothing broke is what the row holds, with the time it was tracked |
| Transition.RecordedIsPending | internal/accesspolicy/transition.go:118-163 | What the row holds is a key that nothing broke |
| Transition.Selection.Pass | internal/reconcile/reconciler.go:229-325 | One pass of the driver that acts on the decision flags: the whole new row |
| Transition.PassSettles | internal/accesspolicy/transition.go:46-163 | One pass keeps everything that the run theorem needs |
| Transition.Selection.TrackPendingCandidate | internal/accesspolicy/transition.go:118-135 | The pending time restarts only with another key |
| Transition.Selection.ClearPendingCandidate | internal/accesspolicy/transition.go:137-147 | Key and time are cleared together |
| Transition.Selection.MarkSwitched | internal/accesspolicy/transition.go:149-163 | Records the switch and clears the pending candidate |
| Transition.Selection.ReconcileBoot | internal/accesspolicy/transition.go:169-233 | A boot clears the pending candidate |
| Ranking.Rank | internal/accesspolicy/ranking.go:60-95 | Returns the answer owed: refusal exactly of malformed input, none exactly when nothing is eligible, else the one eligible candidate that precedes all others, with stickiness and reason |
| Ranking.Screen | internal/accesspolicy/ranking.go:60-79 | The loop refuses an invalid candidate or a repeated key and keeps exactly the eligible ones |
| Ranking.LessIsTotal | internal/accesspolicy/ranking.go:97-119 | Of two eligible candidates exactly one precedes the other, unless they tie in everything and share the key |
| Ranking.LessIsTransitive | internal/accesspolicy/ranking.go:97-119 | The order is transitive |
| Ranking.SortedHeadIsBest | internal/accesspolicy/ranking.go:82-85 | The first of the sorted candidates precedes all others |
| Ranking.SameForEveryPermutation | internal/accesspolicy/ranking.go:60-95 | Permutations of the input have the same answer, refusals and missing candidates included |
| Ranking.WellformedIsUnordered | internal/accesspolicy/ranking.go:63-71 | Whether an input is refused does not depend on its order |
| Ranking.LosersDoNotMatter | internal/accesspolicy/ranking.go:60-95 | Removing losers does not change the winner |
| Ranking.CurrentKeyBreaksTiesOnly | internal/accesspolicy/ranking.go:114-118 | Two current keys give different winners only among candidates tied on class, score and priorities, and only by naming one of them |
| Ranking.CurrentIsKeptWhenUnbeaten | internal/accesspolicy/ranking.go:114-118 | The current candidate stays exactly when no eligible one beats it on class, score or priority |
| Priorities.Repository.Run | internal/accesspolicy/repository.go:90-186 | Over every run each event has its code and its table, enabled priorities stay distinct positive multiples of ten and no reorder meets the unique index |
| Priorities.Repository.ReorderEnabled | internal/accesspolicy/repository.go:147-186 | For any table the index admits: refused exactly for incomplete orders, ends in an index conflict exactly when the two passes collide, and else gives the requested order ten apart with every other row unchanged; never a conflict under the invariant |
| Priorities.Repository.ValidateEnabledMethods | internal/accesspolicy/repository.go:257-291 | Accepts exactly the orders that name every enabled method once and nothing else |
| Priorities.Repository.SetMethodEnabled | internal/accesspolicy/repository.go:90-145 | Enabling appends ten after the largest enabled priority, disabling keeps the priority, a repeat changes nothing |
| Priorities.Repository.Stage | internal/accesspolicy/repository.go:163-168 | The first pass never meets the index |
| Priorities.Repository.Place | internal/accesspolicy/repository.go:170-178 | The second pass meets the index exactly on a collision |
| Priorities.MaximumReaches | internal/accesspolicy/repository.go:159-162 | n distinct positive multiples of ten reach at least 10 n |
| Priorities.SpacedNeverCollides | internal/accesspolicy/repository.go:159-178 | So no final priority meets a temporary one |
| Priorities.CollidesExactly | internal/accesspolicy/repository.go:163-178 | The collision as a window on the maximum and the number of methods |
| Priorities.OneToTenCollide | internal/accesspolicy/repository.go:163-178 | With maximum ten and ten methods the passes collide |
| Priorities.OneToTenIsRefused | internal/accesspolicy/repository.go:147-186 | A table of ten methods with priorities 1 to 10, admitted by the index, whose reorder is refused as a conflict although no statement fails on its own |
| Priorities.MigrationIsSpaced | migrations/000014_unified_access_policy.sql:18-44 | New and upgraded databases start with the invariant, if the subscriptions had it |
| Priorities.ReorderedIsSpaced | internal/accesspolicy/repository.go:170-178 | A completed reorder restores the invariant |
| Priorities.AppendingKeeps | internal/accesspolicy/repository.go:113-117 | Appending keeps the invariant |
| Priorities.Repository.CreateMethod | internal/subscription/repository.go:98-107 | A new subscription appends its method; the invariant stays |
| Firewall.Render | internal/dataplane/firewall.go:212-311 | Renders exactly the well-formed states; over any previous table the transaction succeeds and leaves the gate that the state means and exactly the allowed sources |
| Firewall.Canonicalize | internal/dataplane/firewall.go:229-244 | Accepts exactly lists of valid prefixes; result sorted, each canonical prefix of the input and no other |
| Firewall.FlushesClose | internal/dataplane/firewall.go:245-280 | The flushes close any table |
| Firewall.AdditionsOpen | internal/dataplane/firewall.go:281-309 | From a closed table the additions open exactly the gate of the state |
| FirewallObserve.ReadsExactly | internal/dataplane/firewall.go:395-492 | Whatever order and wrapping a listing uses, the decoder reads state s if and only if the gate is the one that s means; for every LAN other than wg-ingress |
| FirewallObserve.NeverBothOpen | internal/dataplane/firewall.go:462-470 | No state is read from a table with TUN and direct gates both open, whatever the LAN is called |
| FirewallObserve.IngressLanIsRefused | internal/dataplane/firewall.go:304-307 | With the LAN called wg-ingress a direct state has one mark entry and no listing of it is accepted |
| FirewallObserve.ConfirmedExactly | internal/dataplane/firewall.go:196-201 | An applied state is confirmed if and only if it is not direct over wg-ingress |
| FirewallObserve.Backend.Apply | internal/dataplane/firewall.go:131-203 | All or nothing on the whole table; success means the desired gate and sources; with no failing call the gate is set, and confirmed exactly when confirmable |
| FirewallObserve.Backend.BlockPath | internal/dataplane/firewall.go:112-114 | Success means a closed gate and no allowed source; it succeeds when no call fails |
| FirewallObserve.Backend.ActivatePath | internal/dataplane/firewall.go:63-68 | A zero generation changes nothing; success means exactly the TUN gate |
| FirewallObserve.Backend.ObservePath | internal/dataplane/firewall.go:116-129 | Reads the gate back through some listing of it |
| FirewallObserve.DecodePathState | internal/dataplane/firewall.go:395-492 | The decoder with its loops computes the specified reading, refusals included |
| FirewallObserve.Gather | internal/dataplane/firewall.go:404-449 | The loop over the listing finds the last collection of each name |
| FirewallObserve.CheckMarks | internal/dataplane/firewall.go:475-485 | The loop over mark entries accepts exactly two entries that name both ingress sides with one mark |
| FirewallObserve.ContextIsRead | internal/dataplane/firewall.go:549-570 | A shown interface and mark are read through any number of wrappers |
| FirewallObserve.MarkIsRead | internal/dataplane/firewall.go:521-547 | A shown map entry is read through any number of wrappers |
| FirewallObserve.NumberIsRead | internal/dataplane/firewall.go:506-519 | A shown number is read; zero is refused |
| Routing.Backend.SyncRouting | internal/dataplane/routing.go:49-91 | The gate is never opened; every change of the kernel is logged with the tables it leaves, and none is made before this call closed the gate; success means that rules and base routes equal the plan as multisets, and changes nothing where they did already; an error with a plan at hand leaves the gate closed unless closing failed; with no failing call the plan is installed |
| Routing.Backend.Mutate | internal/dataplane/routing.go:286-292 | Each mutation happens behind a gate that this call closed |
| Routing.Backend.Delete | internal/dataplane/routing.go:286-292 | Exit code 2 counts as success, whether or not the entry is gone |
| Routing.Backend.RemoveOwnedBase | internal/dataplane/routing.go:266-284 | Deletes what was observed behind the closed gate; nothing owned is left if every deletion took effect |
| Routing.Backend.Replace | internal/dataplane/routing.go:252-264 | Remove, then routes, then rules: leaves exactly an orderly plan if every call took effect |
| Routing.Backend.InstallRoutes | internal/routing/render.go:27-45 | Replacing route by route gives the routes of the plan |
| Routing.Backend.InstallRules | internal/routing/render.go:46-72 | Delete and add by priority give the rules of the plan |
| RoutingKeys.Matches | internal/dataplane/routing.go:322-352 | Building, sorting and comparing keys decides whether observed rules and routes are the plan up to order and spelling |
| RoutingKeys.RuleKeyIsInjective | internal/dataplane/routing.go:354-356 | Rule keys tell all rules apart |
| RoutingKeys.RouteKeyIsInjective | internal/dataplane/routing.go:358-360 | Route keys tell routes apart up to the spelling of defaults, where destinations have one slash and gateways and devices none; a sufficient condition |
| RoutingKeys.SlashesConfuse | internal/dataplane/routing.go:358-360 | The condition can not just be dropped: two routes with a slash in gateway or device, such as neither kernel nor plan yields, share a key |
| RoutingKeys.KeysDecide | internal/dataplane/routing.go:322-352 | Equal multisets of injective keys mean equal multisets of elements |
| RoutingKeys.SortedKeysDecide | internal/dataplane/routing.go:347-351 | Sort-then-compare decides multiset equality |
| RoutingKeys.SlicesEqual | internal/dataplane/routing.go:362-372 | The loop decides equality |
| WireGuard.Backend.Run | internal/dataplane/wireguard.go:53-240 | In every run from an empty runtime the states follow the inputs, each probe begins at the sync that installed its routes, on a ready modem, each confirmation is justified by an earlier recorded probe, a handshake strictly later than that sync and settings unchanged at the confirmation and at every sync since that read them, unless its dropping of a stale candidate was lost, and whoever is in charge was confirmed |
| WireGuard.Backend.SyncWireGuard | internal/dataplane/wireguard.go:53-240 | One sync is a permitted step; with no failing call a later handshake confirms the candidate, an earlier one is waited for until the time-out, then given up; an unsettled tunnel and an overdue first choice are probed at once |
| WireGuard.StepKeeps | internal/dataplane/wireguard.go:82-239 | Permitted steps keep the run invariant: the stored candidate is what the kernel was last set up for, undisturbed since its probe began |
| WireGuard.FailedSyncCanHideAChange | internal/dataplane/wireguard.go:93-118 | A change seen by a sync whose dropping of the candidate is lost can be hidden, by three syncs from an empty runtime |
| WireGuard.Backend.DropStale | internal/dataplane/wireguard.go:93-118 | A candidate survives only with the same digest, interface, gateway, table and mark, or when dropping it is lost |
| WireGuard.Backend.Settle | internal/dataplane/wireguard.go:119-150 | Confirmed by a strictly later handshake, awaited before the time-out, given up after it |
| WireGuard.Backend.StartProbe | internal/dataplane/wireguard.go:152-239 | Keeps, gives up or probes; an unsettled tunnel and an overdue first choice are probed at once when no call fails |
| WireGuard.Backend.Install | internal/dataplane/wireguard.go:205-239 | A candidate is recorded only after its routes were installed, with the settings they were installed with |
| WireGuard.NextManagementCandidate | internal/dataplane/wireguard.go:295-319 | The first by priority and number among modems that may be tried again |
| WireGuard.SelectManagementModem | internal/wireguard/selector.go:21-58 | Leaves an eligible current modem only for the preferred one, stable long enough and after the cooldown, and then always |
| LoginThrottle.Throttle.Run | internal/auth/service.go:100-150 | Over any run every attempt gets the answer that the attempts before it call for, and at every moment, for every key and n from 3, the n-th failure since the last success came at least 2^(n-3) - 1 seconds after the third up to n = 12, and 511 + 256 (n - 12) beyond |
| LoginThrottle.FailuresAreSlow | internal/auth/service.go:381-405 | The bound for every spaced sequence of failures |
| LoginThrottle.EarliestIsSpaced | internal/auth/service.go:381-405 | The bound is reached |
| LoginThrottle.NoBlockIsLonger | internal/auth/service.go:391-395 | A block lasts one to 256 seconds |
| LoginThrottle.Throttle.LoginBlocked | internal/auth/service.go:365-379 | Blocked exactly until the block of the last failure ends |
| LoginThrottle.Throttle.RecordLoginFailure | internal/auth/service.go:381-405 | Counts the failure, keeps the first, sets the block; other keys stay |
| LoginThrottle.Throttle.Check | internal/auth/service.go:210-259 | The answer as a function of the failures since the last success; blocked attempts change nothing, failures are counted, a success clears the key |
| Sessions.Service.Run | internal/auth/management.go:96-417 | Over every run the states follow the events and each event leaves its entry; in every state with a user there is an enabled one and live sessions belong to enabled users; no session ended by a disable, a password change, a reset or a revocation is ever let in again |
| Sessions.Service.UpdateUser | internal/auth/management.go:137-217 | Whole new state or none; disabling ends and records all sessions of the user at once, never of the actor or the last enabled user |
| Sessions.Service.DeleteUser | internal/auth/management.go:219-248 | Only a disabled user other than the actor, with all their sessions |
| Sessions.Service.ChangePassword | internal/auth/management.go:283-305 | Takes effect only if the hash verified earlier is still stored and the user enabled; ends and records all other sessions of the user |
| Sessions.Service.ResetPassword | internal/auth/management.go:307-341 | Sets the hash, forces a change, ends and records all sessions of the user |
| Sessions.Service.CreateUser | internal/auth/management.go:96-135 | A free name, enabled, must change the password |
| Sessions.Service.RevokeSession | internal/auth/management.go:383-417 | Ends a live session and records it |
| Sessions.Service.CreateBootstrapAdmin | internal/auth/service.go:64-98 | Creates the first user and only that |
| Sessions.Service.Login | internal/auth/service.go:123-176 | A session exactly for an enabled user of that name with the right password; its token is new |
| Sessions.Service.Authenticate | internal/auth/service.go:178-204 | Lets in exactly live, unexpired sessions, unless the read fails |
| Sessions.DeadAreNotLetIn | internal/auth/management.go:191-195 | What was ended is not let in later |
| Sessions.HistoryGrows | internal/auth/management.go:191-195 | Ended sessions stay ended under every operation |
| Sessions.UpdateKeepsUsers | internal/auth/management.go:162-182 | Someone stays enabled and names stay unique |
| StatusExpression.NormalizeStatusExpression | internal/bypass/target.go:79-134 | Accepts exactly the accepted expressions and returns their normal form |
| StatusExpression.AcceptedExactly | internal/bypass/target.go:114-124 | Well-formed terms are accepted if and only if no status is named twice |
| StatusExpression.NormalFormIsFixed | internal/bypass/target.go:79-134 | Idempotent on every accepted string |
| StatusExpression.NeverLonger | internal/bypass/target.go:79-134 | The normal form is never longer, in characters and in bytes |
| StatusExpression.SameTermsSameForm | internal/bypass/target.go:84-124 | Any reordering of terms, any mix of comma and slash and any space around terms gives the same result |
| StatusExpression.StatusMatches | internal/bypass/target.go:136-153 | Holds exactly when the expression is accepted and the status lies in one of its ranges as written |
| StatusExpression.StatusTexts | internal/bypass/target.go:155-164 | A status is parsed from its three digits and from nothing else |
| StatusExpression.ShownIsRead | internal/bypass/target.go:125-133 | A printed term parses to what it shows |

## Left out

- Commands, wiring, bootstrap, installation, the web interface and process execution.
- Cryptographic primitives, JSON, YAML and time formatting, file modes, ownership, symbolic links and fsync calls.
- The content checks of uploads, manifests and snapshots: their verdict is drawn.
- Snapshot pruning and ordering, lifecycle locks, worker progress, schema migration.
- The subscription half of `Candidates`, and its database reads as one snapshot: listings are relative to the policy generation read before.
- internal/subscription/repository.go:151-223 and 252-311: reordering and enabling subscriptions also write method priorities; the first permutes existing ones, the second repeats SetMethodEnabled.
- internal/dataplane/firewall.go:70-110 and 313-393: the checks before a direct activation and the peer policy behind the allowed sources; the sources are an input of `Apply`.
- Firewall.Render: overlapping prefixes are separate elements of the source set, where nft may refuse them in an interval set.
- internal/candidateruntime and internal/dataplane/service_firewall.go: orchestration of other parts.
- Decoding of ip's JSON and the marked lookups after a sync: a listing is the kernel state, a lookup succeeds or fails.
- Routing.Backend.SyncRouting: owned host routes of the WireGuard endpoint are not modelled, because the sync neither lists nor deletes them.
- WireGuard.Backend.SyncWireGuard: does not claim that settings were unchanged at syncs that could not read them or whose dropping of the candidate was lost, because it is false of the latter (`FailedSyncCanHideAChange`).
- PathEvidence.Store.Publish: latencies and check times of single targets are validated but not stored.
- RoutingKeys.RouteKeyIsInjective: gives a sufficient condition, not an exact one, because names with slashes reach neither side of the comparison.
- Sessions.Service.Login: throttling is modelled apart, in LoginThrottle, because its rows are independent of users.
- Sessions.Service.ChangePassword: the verification before the transaction is the parameter `seenHash`, because it reads outside the transaction.
- Ghost histories record what a run did; the original keeps audit events, whose contents are not modelled.
