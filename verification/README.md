# Reeve in Dafny

Reeve previews and applies infrastructure changes from pull requests. It keeps nothing itself:
locks, run artifacts and drift state are objects in a bucket, and any number of CI runs work on
them at the same time. This project models the parts of Reeve where that gets difficult and proves
properties of whole runs, of every interleaving and of every input.

| file | models |
|---|---|
| `Locks.dfy` | the stack lock as a pure state machine: acquire, adopt, enqueue, release, unlock, reap |
| `LockLine.dfy` | the same lock as a plain line of waiting runs, and every operation as an operation on that line |
| `LockHistory.dfy` | histories of lock operations: FIFO order, mutual exclusion, the heartbeat |
| `LockStore.dfy`, `LockLoops.dfy` | the compare-and-swap retry loops, as a step relation over many concurrent calls and in their imperative form |
| `Keys.dfy` | the names of lock objects |
| `CredentialCache.dfy`, `CredentialRequests.dfy`, `CacheSections.dfy` | the single-flight credential cache, as a step relation over mutex sections, what its requests are answered, and its imperative form |
| `Drift.dfy`, `Glob.dfy` | drift episodes, flap damping and the wildcard matcher |
| `Pending.dfy`, `Overlap.dfy`, `Grouping.dfy` | durable notification across crashes and overlapping runs, and grouping by environment |
| `Splitting.dfy`, `StatusGroups.dfy`, `Pagination.dfy` | splitting a comment board into parts |
| `Settling.dfy`, `Reserve.dfy` | when the repeated packing settles, for any measurement and for the board's own |
| `Boards.dfy` | the part header and the Detail column, and boards that print them |
| `Gates.dfy`, `Apply.dfy` | the apply gates and the per-stack apply loop |
| `Approvals.dfy` | the approval gate |
| `Preview.dfy`, `Selection.dfy` | run identities and the choice of the authoritative preview manifest |
| `Base.dfy`, `Strings.dfy`, `Decimal.dfy` | shared vocabulary; strings; decimal numbers |

Times are integers (nanoseconds for locks). A stored expiry is RFC 3339 text (section 5.6 of
RFC 3339) without a fraction, so it is modelled as whole seconds. The bucket's conditional write
is the contract of `internal/blob/store.go:17-20` (If-Match and If-None-Match, sections 13.1.1 and
13.1.2 of RFC 9110): every write gives the object a new version. Channels, providers, engines,
policy hooks, gate facts, the renderer and the SHA-256 digest are parameters or oracles.

Automatic induction is switched off wherever Dafny would apply it to a lemma: every proof is the one
that is written down.

## Where the code and its own promises differ

- `internal/drift/classify_filter.go:156` tries a literal match before the star, so a pattern's
  `*` is consumed by a `*` in the subject. `Glob.TrustworthyIffStarFree` gives the exact condition
  under which the matcher decides the meaning of every pattern: the subject holds no `*`.
- `internal/drift/pending.go:48-50` joins names with slashes, so two stacks can share a marker.
  `Pending.KeyIdentifiesIffSlashFree`: a key identifies its stack exactly when neither name holds a slash.
- `internal/blob/key.go:39` calls the slug injective. `Keys.KeysEqualIff` gives the exact condition:
  an empty name shares its object with the fallback name (`Keys.EmptyNameSharesTheDefault`).
- `internal/core/render/overflow.go:205-207` repeats the packing until the count it is measured against is
  the real one. With the reserve that lines 283-288 keep on the last part it may never get there:
  `Boards.LastPartIsTrimmed` gives a board of four stacks, with the code's part header and Detail column, on
  which, for every odd cap from three on, the counts go 2, 3, 2, 3 and the last part is trimmed although a
  split that fits was within the cap, and `Boards.EarlierPartMisses` one on which, for every even cap from
  four on, an earlier part misses too. `Settling.SettlesIff` gives the exact condition for every measurement,
  and `Reserve.BoardSettlesIff` one that a caller can check beforehand: see whether everything fits into one
  part, and if not pack once without the reserve and see whether that takes at most one part, the whole cap,
  or leaves room on the last part. It holds of every board whose footers are equally wide for the counts that
  occur. Those of the renderers are for two to nine parts (one part has no header), so of every board with
  a cap of at most eight, and with any cap, such as the default ten, if that one packing takes at most
  seven parts (`Reserve.OnePackingTells`).
- `internal/core/render/overflow.go:244` packs an oversize status group as if it were the whole board, so its
  parts are measured at the wrong ordinal and count; `Boards.GroupPartMisses` is a board on which one does
  not fit. `StatusGroups.OwnPlaceIff` says when the place is right, and `Reserve.GroupPartFitsIff`, for up to
  nine parts, exactly which parts fit where they end up: those whose text and marker, and on the last part
  the reserve, are within the limit. A group that is placed whole always does. `Reserve.WhyGroupPartMisses`:
  a part of two or more stacks misses only if its group was let through as the only part there is, or if it
  is the last part and was not measured as the last.
- `internal/core/render/overflow.go:311-314` measures the Detail column with the link to the last possible
  part. The cell of a stack that the cap leaves out is "run log" (`trim.go:130-135`), which is wider for caps
  below ten: `Boards.OmittedStackTrimsPart` is a board whose part 1 was measured to fit and is trimmed.
  `Boards.CellsNoLongerIff`: the final column is no wider than the measured one exactly if nothing is omitted
  or the cap has two digits, and then a part that was measured to fit is posted in full
  (`Reserve.FittingPartsArePostedInFull`).
- `internal/run/preview_lookup.go:217-229` compares by number or by name depending on the pair, so three
  manifests can beat each other in a circle, and then the store's listing order decides
  (`Selection.UnparsedNameMakesOrderMatter`). `Selection.OrderFreeIff`: the order is irrelevant exactly if
  the lookup fails anyway, there is nothing to select, or one accepted manifest beats every other. That
  is the case whenever all run numbers parse (`Selection.ListingOrderIrrelevant`).
- `internal/core/preconditions/gates.go:161-167` says break-glass never overrides preview state; the code
  does when the preview history could not be read (`Gates.PreviewIsOverridden`). `Gates.OverriddenIff` and
  `Gates.DemandMeansNoFailure` say, in terms of the inputs, exactly what is overridden and what is refused.
- `internal/core/approvals/rules.go:191` compares approver and author before a leading `@` is removed. Both are
  documented, and filled in by the GitHub adapter, as logins without one (`rules.go:21`), and then another
  person is always needed (`Approvals.PlainLoginsNeedAnotherPerson`). Without that contract an author can
  approve as `@author`, or `@author` as `author` (`Approvals.AuthorApprovesAsAt`). `Approvals.SelfApprovalIff`
  and `Approvals.AuthorCountsIff`: this happens under some rules exactly if some approver is spelled
  differently from the author and is the same once the leading `@` is gone on both sides.
- `internal/drift/pending.go:68-73` deletes unconditionally, so overlapping runs can lose a marker
  (`Overlap.OverlapLosesMarker`, two possible runs). `Overlap.LostIff` says when, for every interleaving: a
  marker nobody has answered is gone exactly if it was cleared, with no save since, by a run that read the
  markers before it was written and had already dispatched or does not hold it. Runs that follow one
  another never lose one (`Overlap.MarkerSurvives`).

## Model

| member | source | states |
|---|---|---|
| `Locks.WithoutPR` | internal/core/locks/locks.go:292-303 | removal keeps exactly the items of other PRs |
| `Locks.RemovePR` | internal/core/locks/locks.go:292-303 | the removal loop computes that function |
| `Locks.IsQueued` | internal/core/locks/locks.go:128-132 | the queue scan finds a PR exactly if it is queued |
| `Locks.WithoutPRDistinct` | internal/core/locks/locks.go:292-303 | removal keeps queued PRs distinct |
| `Locks.WithoutPRKeepsOrder` | internal/core/locks/locks.go:292-303 | two kept items are found again in the same order |
| `Locks.HandOverWellFormed` | internal/core/locks/locks.go:238-265 | clearing the holder promotes exactly the head of the queue, as a reservation, and keeps the lock well formed |
| `Locks.AcquireIsFifo` | internal/core/locks/locks.go:98-142 | acquire, with eviction, adoption, refresh and enqueue, is a FIFO step |
| `Locks.DoubleHandOverIsFifo` | internal/core/locks/locks.go:148-164 | a release by the PR that the eviction of the same call promoted is still a FIFO step |
| `Locks.ReleaseIsFifo` | internal/core/locks/locks.go:148-164 | release is a FIFO step |
| `Locks.UnlockIsFifo` | internal/core/locks/locks.go:173-182 | unlock is a FIFO step |
| `Locks.TransitionIsFifo` | internal/core/locks/locks.go:98-265 | every store operation on every well-formed lock keeps it well formed (distinct queue, holder not queued, empty queue when free), lets nobody overtake, and removes a PR from the queue only by promotion or at its own request |
| `Locks.AcquireDecision` | internal/core/locks/locks.go:85-142 | exactly when an applicant is granted the lock, and that it then holds a fresh lease of its own run and never a reservation |
| `LockLine.HandOverServes` | internal/core/locks/locks.go:246-265 | promotion serves the line from the front, with a lease of the resolved ttl |
| `LockLine.AcquireOnLine` | internal/core/locks/locks.go:98-142 | the stored acquire on the line: enter an empty line, take over or keep the first place of one's own PR, keep a place one has, or join at the end; granted exactly to the first in line, to the same run or to another run of the PR if the place is only reserved |
| `LockLine.AcquireReply` | internal/blob/locks/store.go:118-126 | each reply tells the applicant where it stands in the line |
| `LockLine.ReleaseOnLine` | internal/core/locks/locks.go:148-164 | the stored release by the owner's own run moves the line up; by anyone else it gives up that PR's places behind the owner; not-holder is reported exactly when there is neither |
| `LockLine.UnlockOnLine` | internal/blob/locks/store.go:223-233 | the stored unlock is refused exactly if it is not forced and names an owner with time left, and then changes nothing; otherwise it removes every place of the PR behind the owner, the first one exactly if PR, run or expiry allow it, and leaves the PR no place in the queue |
| `LockLine.ReapOnLine` | internal/core/locks/locks.go:186-197 | reaping only drops an expired owner; nobody who still counts loses a place |
| `LockLine.ForceUnlockOnLine` | internal/blob/locks/store.go:293-324 | the admin override drops the owner, whoever it is, and moves the line up |
| `LockLine.LeaseAfter` | internal/core/locks/locks.go:211-265 | the lease after every operation: the ttl asked for by a granted acquire, its own for an owner that stays, and for everybody else a reservation of the ttl given or four hours |
| `LockLine.AcquiredWhen` | internal/core/locks/locks.go:98-142 | a refresh keeps the time of acquisition and every other grant sets it |
| `LockLine.UpdatedWhen` | internal/core/locks/locks.go:98-197 | the stamp of the last update is renewed except by an acquire, release or reap that found nothing to do and by a refused unlock |
| `LockHistory.ReachableWellFormed` | internal/core/locks/locks.go:76-265 | every lock that any history from an absent object leaves behind is well formed and keeps its name |
| `LockHistory.NoOvertaking` | internal/core/locks/locks.go:98-265 | over whole runs, while p stays queued nobody behind p, or not there yet, becomes holder by any route |
| `LockHistory.LeavesQueue` | internal/core/locks/locks.go:98-265 | a PR stops waiting only by becoming holder or by its own release or unlock |
| `LockHistory.LiveHolderSurvives` | internal/blob/locks/store.go:198-233 | one step of anyone else against a live lease, overrides excepted, leaves the holder as it is; the holder's own acquire is granted and extends it |
| `LockHistory.LiveLeaseBacked` | internal/core/locks/locks.go:98-197 | over every history under one clock, each granted, unreleased, unexpired lease is the stored holder |
| `LockHistory.MutualExclusion` | internal/core/locks/locks.go:98-197 | two different PR and run pairs never both have a live lease |
| `LockHistory.AdminOverrideBreaksExclusion` | internal/blob/locks/store.go:289-301 | the override is a genuine exception: a run in which two leases are live |
| `LockHistory.TwoIntervalsFit` | internal/blob/locks/store.go:151-158 | two heartbeat intervals fit inside every lease, truncated to whole seconds, exactly when the ttl exceeds them by a second |
| `LockHistory.OneLostRefreshIsTolerated` | internal/blob/locks/store.go:146-155 | the heartbeat ticks every third of the ttl, and with a ttl of three seconds or more two intervals leave a second of the lease |
| `LockHistory.HeartbeatHolds` | internal/blob/locks/store.go:141-189 | a holder that refreshes while a second of its lease is left stays the holder through any sequence of other operations |
| `LockHistory.HeartbeatBound` | internal/blob/locks/store.go:141-189 | the same after any history ending in its granted acquire, for every ttl |
| `LockHistory.ExclusiveWhileBeating` | internal/blob/locks/store.go:141-189 | from a granted acquire on, while the run keeps beating, no acquire of any other run is granted |
| `LockStore.StepKeepsInv` | internal/blob/locks/store.go:392-463 | every read, evaluation, conditional write, retry, crash and lost reply keeps the loop invariant |
| `LockStore.Linearizes` | internal/blob/locks/store.go:392-463 | for any interleaving of calls the stored lock is the fold of whole transitions, clocks nondecreasing; a call takes effect at most once and exactly if its write succeeded; its reply is the verdict at its place |
| `LockStore.ConcurrentMutualExclusion` | internal/blob/locks/store.go:114-233 | mutual exclusion for the concurrent store, and the bucket names the one live run |
| `LockStore.SkipsIffUnchanged` | internal/blob/locks/store.go:229-231 | a maintained unlock or reap is not written exactly if it is refused or leaves holder and queue as they were |
| `LockStore.UnlockReplies` | internal/blob/locks/store.go:206-233 | over all interleavings: an unlock that reports success, having written or not, left the PR no place in the queue of the lock it acted on, which was in the bucket; it is refused only for an owner of that PR |
| `LockStore.UndisturbedPassEnds` | internal/blob/locks/store.go:392-463 | a pass during which nobody else commits ends the call, with its verdict written and recorded, or with nothing written if nothing changed |
| `LockStore.ExhaustedMeansTried` | internal/blob/locks/store.go:392-463 | a call gives up only after all its retries lost their races |
| `LockStore.LossesAreCounted` | internal/blob/locks/store.go:392-463 | over all interleavings a call loses at most one race more than it has retries, and exactly that many if it gives up |
| `LockLoops.Bucket.PutIfMatch` | internal/blob/store.go:17-20 | a conditional write takes effect exactly if the version is still the one read |
| `LockLoops.Mutate` | internal/blob/locks/store.go:433-463 | the first undisturbed pass commits, error or not, on top of whatever rivals wrote before; if all are disturbed the call leaves no trace |
| `LockLoops.Maintain` | internal/blob/locks/store.go:392-430 | the call ends at the first pass that has nothing to write, with that verdict's error and no write, or that is undisturbed, with its verdict and exactly one event; every earlier pass had something to write and lost its race; if all did, there is no effect |
| `Keys.IsPassthrough` | internal/blob/key.go:74-84 | the scan accepts exactly the names drawn from the safe set |
| `Keys.SanitizeComponent` | internal/blob/key.go:88-103 | every unsafe rune becomes an underscore, and replacement is reported exactly when a rune changed |
| `Keys.SlugComponent` | internal/blob/key.go:49-69 | fallback, pass-through and digest branches compute the slug |
| `Keys.ComponentIs` | internal/blob/key.go:49-103 | a name of ASCII letters, digits and dashes is its own component; any other is itself with each foreign rune replaced, or "key" if nothing would be left, followed by its digest |
| `Keys.ComponentIsTame` | internal/blob/key.go:30-47 | whatever the names are, a component consists of ASCII letters, digits, dashes and underscores |
| `Keys.SlugsEqualIff` | internal/blob/key.go:56-69 | slugs are equal exactly for equal names or a collision of the digest under one sanitised form |
| `Keys.KeysEqualIff` | internal/blob/locks/store.go:55-59 | two stacks share a lock object exactly if each name is the same after defaults or a digest collision |
| `Keys.LocksNeverCollide` | internal/blob/locks/store.go:50-59 | with non-empty names and no digest collision among them, keys are equal exactly for the same stack |
| `Keys.EmptyNameSharesTheDefault` | internal/blob/key.go:49-54 | an empty project shares its lock with the project named like the fallback |
| `CredentialCache.StepKeepsInv` | internal/auth/cache.go:77-246 | every locked section, provider call boundary, cleanup and cancellation keeps the cache invariant |
| `CredentialCache.NeverStuck` | internal/auth/cache.go:101-165 | whoever came back from a provider, and Close, can always take its next step; a waiting request can go on or waits for an attempt that some request is still working on |
| `CredentialCache.NoStaleCredential` | internal/auth/cache.go:77-223 | a request that begins after an invalidation is handed only credentials whose provider call began after it |
| `CredentialCache.SingleFlight` | internal/auth/cache.go:101-121 | at most one provider call per name is in flight, over all interleavings |
| `CredentialCache.CleanedExactlyOnce` | internal/auth/cache.go:123-246 | cleanup never runs twice, and after Close with nothing in flight it has run exactly once for every credential returned |
| `CredentialCache.ClonesCarryNoCleanup` | internal/auth/cache.go:194-205 | consumers get the provider's value without its cleanup, and the cache owns the original |
| `CredentialRequests.EnterDecides` | internal/auth/cache.go:86-121 | in every reachable state: a request is failed on entry exactly if the cache is closed, handed the cached credential exactly if it is open and that has no expiry or one later than now plus the margin, and otherwise joins whoever works on the name or starts an attempt if nobody does |
| `CredentialRequests.AcquisitionDecides` | internal/auth/cache.go:119-173 | from the start of an attempt to its end, with anything in between: the request is handed what the provider returned exactly if the cache is open, the provider succeeded with a credential that lasts, and nothing was invalidated since; it retries exactly if only the last went wrong |
| `CredentialRequests.JoinersGetTheSame` | internal/auth/cache.go:101-115 | whoever waits for an attempt gets the answer of the request that worked on it |
| `CredentialRequests.CachedCredentialIsReused` | internal/auth/cache.go:96-100 | one provider call serves every later request for the name while the cache is open, nothing is invalidated and the credential lasts |
| `CredentialRequests.GenerationCounts` | internal/auth/cache.go:207-223 | the generation counts the invalidations of the open cache, and only Close closes it |
| `CacheSections.CloneCredential` | internal/auth/cache.go:194-205 | the copying loop yields an equal environment and no cleanup |
| `CacheSections.AcquireAll` | internal/auth/cache.go:61-75 | succeeds exactly if every name does, and merges environments in order |
| `CacheSections.LastOneWins` | internal/auth/cache.go:59-75 | a variable has the value of the last provider that sets it |
| `CacheSections.OnlyTheirs` | internal/auth/cache.go:59-75 | a variable is set only if some provider sets it |
| `CacheSections.Cache.Enter` | internal/auth/cache.go:86-121 | the first locked section is the corresponding step of the machine |
| `CacheSections.Cache.Settle` | internal/auth/cache.go:139-173 | the second locked section is the corresponding step |
| `CacheSections.Cache.Unwind` | internal/auth/cache.go:150-165 | the section after the cleanup of a closed cache is the corresponding step |
| `CacheSections.Cache.InvalidateAll` | internal/auth/cache.go:209-223 | refused exactly if closed; otherwise forgets every cached credential and starts a generation |
| `CacheSections.Cache.Close` | internal/auth/cache.go:226-246 | the backward cleanup loop is a run of the machine from open to closed |
| `Drift.ErrorsAreTransparent` | internal/drift/state.go:98-157 | deleting all check errors from any history leaves the other events, the outcome, episode start and fingerprint unchanged |
| `Drift.SavedIsLastVerdict` | internal/drift/state.go:98-160 | over whole runs: outcome, fingerprint and time of success that are saved are those of the last check that had a verdict, a clean one having no fingerprint, and the failures since are counted |
| `Drift.EventOf` | internal/drift/state.go:120-155 | over whole runs: a drifted check is ongoing exactly if the last verdict was drift with the same fingerprint and detected otherwise; a clean one resolves exactly if the last verdict was drift |
| `Drift.EpisodeHasStart` | internal/drift/state.go:98-157 | while drifted, the recorded episode start is the time of the detection that opened the episode; otherwise none is recorded |
| `Drift.ResolvedClosesEpisode` | internal/drift/state.go:125-134 | every resolved event closes an episode that a detection opened |
| `Drift.SavedTimeIsLastAlert` | internal/drift/runner.go:542-548 | the saved notification time is the time of the last alert |
| `Drift.AlertsAreSpaced` | internal/drift/state.go:182-205 | any two drift alerts are at least the window apart |
| `Drift.DriftIsAnnounced` | internal/drift/state.go:182-205 | after every drifted check the last alert is less than a window old |
| `Drift.ResolutionMatchesAlert` | internal/drift/state.go:197-201 | a resolution is delivered exactly when its own episode alerted |
| `Drift.AlertsAreDetections` | internal/drift/state.go:167-181 | with damping on, alerts are exactly the stamped detections, ongoing is never sent, failures always are |
| `Drift.AlertIff` | internal/drift/state.go:182-207 | exactly when an alert goes out: with damping off, with every drifted check whose last verdict was not drift of the same fingerprint; with damping on, with every drifted check that is a window or more after all earlier alerts |
| `Drift.UndampedPassesThrough` | internal/drift/state.go:161-165 | with damping off, channels are told what the check reports, resolutions included |
| `Drift.RecoveryFollowsFailure` | internal/drift/runner.go:549-553 | check_recovered comes with exactly the first verdict after failed checks |
| `Glob.WildcardMatch` | internal/drift/classify_filter.go:151-173 | the four-index loop terminates and computes the scan |
| `Glob.LeftmostSuffices` | internal/drift/classify_filter.go:159-161 | at a second star the first alignment found is as good as any later one |
| `Glob.ScanAgrees` | internal/drift/classify_filter.go:154-168 | from any point of the loop the scan decides what the recursive meaning still leaves open |
| `Glob.AgreesOnStarFreeSubjects` | internal/drift/classify_filter.go:145-173 | for every pattern and star-free subject the matcher decides the recursive meaning |
| `Glob.TrustworthyIffStarFree` | internal/drift/classify_filter.go:145-173 | it does so for every pattern exactly if the subject holds no star |
| `Pending.MergePending` | internal/drift/pending.go:111-129 | pending payloads not superseded by a current one, then the current ones |
| `Pending.KeptIsPending` | internal/drift/pending.go:121-127 | a pending payload is kept exactly if it has a drift body and no current payload has its key |
| `Pending.KeptInOrder` | internal/drift/pending.go:104-131 | pending payloads come first, in the order they were listed, then all of the run's own |
| `Pending.ListedInOrder` | internal/drift/pending.go:75-102 | what is listed is every readable marker, in the order of the keys |
| `Pending.SavedIsReadBack` | internal/drift/pending.go:52-67 | a saved payload is read back with its event and drift body |
| `Pending.PendingStore.Save` | internal/drift/pending.go:54-65 | writes the marker under its key, nothing without a drift body |
| `Pending.PendingStore.Clear` | internal/drift/pending.go:68-73 | removes exactly that marker |
| `Pending.PendingStore.List` | internal/drift/pending.go:77-104 | every readable marker in order; the others are counted, never fatal |
| `Pending.PendingStore.DispatchDurable` | internal/drift/pending.go:144-163 | saves all, dispatches once, clears all only after a clean dispatch, and reports every failure |
| `Pending.RefusedIs` | internal/drift/pending.go:145-167 | the errors counted are the refused requests, one for each payload with a drift body |
| `Pending.MarkerSurvivesRun` | internal/drift/pending.go:131-163 | a run, wherever it crashes, loses a marker only by delivering it |
| `Pending.BatchCovers` | internal/drift/pending.go:106-129 | every readable marker is in the batch, itself or a fresher payload with its key |
| `Pending.MarkerIff` | internal/drift/pending.go:54-73 | for every sequence of store requests: a marker is there exactly if the last accepted request about its key was a save, or there was none and it was there before; and it is what that save recorded |
| `Overlap.ClearFollowsDispatch` | internal/drift/pending.go:144-163 | in every interleaving a clear comes after its own run's clean dispatch, of a batch with that key |
| `Overlap.LostIff` | internal/drift/pending.go:131-163 | exactly when an unanswered marker is lost, for every interleaving of possible runs, crashes included |
| `Overlap.MarkerSurvives` | internal/drift/pending.go:16-34 | runs that follow one another never lose a marker: it stays until it, or a later payload with its key, is cleanly dispatched |
| `Overlap.AtLeastOnce` | internal/drift/pending.go:16-34 | every run that reads after a marker was written and before it is answered has it or a fresher payload in its batch: always for runs that follow one another, and for overlapping runs exactly unless it was lost |
| `Overlap.OverlapLosesMarker` | internal/drift/pending.go:68-73 | two possible runs whose overlap loses a saved marker that nobody has dispatched |
| `Pending.SavedIsProtected` | internal/drift/pending.go:144-163 | a payload whose marker was accepted is protected or delivered however the run ends |
| `Pending.KeyIdentifiesIffSlashFree` | internal/drift/pending.go:48-50 | a key identifies project and stack exactly if neither holds a slash |
| `Grouping.GroupKeyIdentifies` | internal/notify/grouping.go:75 | the index key tells event and environment apart |
| `Grouping.GroupPayloads` | internal/notify/grouping.go:54-87 | the members delivered are exactly the members given, as a multiset; one delivery per event and environment, uniform, its members in order; and deliveries in the order in which each was opened, every group by its first member |
| `Grouping.OneMessagePerEnvironment` | internal/notify/grouping.go:40-87 | of each kind of drift alert there is one message per environment, and everything else is passed on as it is |
| `Splitting.EvenSplitIsEven` | internal/core/render/overflow.go:152-170 | n groups in order, nothing lost, sizes differing by at most one and the larger ones first |
| `Splitting.Distribute` | internal/core/render/overflow.go:154-170 | the loop computes that split |
| `Splitting.SplitByCapacity` | internal/core/render/overflow.go:178-217 | the repeated packing computes the capacity split |
| `Splitting.CapacityPacks` | internal/core/render/overflow.go:178-217 | for any measurement: a contiguous prefix in non-empty parts within the cap, each measured as it grew and closed only when full, items left out only after the last allowed part |
| `Settling.SettlesIff` | internal/core/render/overflow.go:205-216 | for every measurement: the parts returned were packed against their own count exactly if some pass of the unbounded iteration is settled, and the allowed passes always suffice to find it |
| `Settling.SettledPartsFit` | internal/core/render/overflow.go:205-216 | when it settles every part of two or more was measured to fit at the real count |
| `Settling.UnreservedIsLeast` | internal/core/render/overflow.go:178-217 | with footers of one width from two parts on, the packing without the reserve has the fewest parts of all passes against two or more, and is what every pass against a larger count gives |
| `Settling.FlatSettlesIff` | internal/core/render/overflow.go:205-216 | with footers of one width from two parts on, the loop settles exactly if everything fits into one part, or the packing without the reserve takes at most one part or the whole cap, or leaves the reserve free on its last part |
| `Settling.OnePackingBounds` | internal/core/render/overflow.go:178-203 | when what fits a part fits any later one, no pass makes more than one part more than the one without the reserve |
| `Settling.UnsettledLastOverflows` | internal/core/render/overflow.go:205-216 | when it does not settle and ends on fewer parts than it packed against, the last part does not leave the reserve free although the cap allowed another part |
| `Reserve.MeasureIs` | internal/core/render/overflow.go:282-321 | the board's measurement is room for the text and, on the last part, for the note |
| `Reserve.TextFitsAtRealCount` | internal/core/render/overflow.go:172-217 | for boards whose footers only grow: unless there are more parts than packed against and wider footers, the text of every part of two or more fits at the real count; then every part but the last fits, and the last exactly if the reserve is free |
| `Reserve.FittingPartsArePostedInFull` | internal/core/render/overflow.go:347-362 | when the links of the board render no longer than the placeholders (counting that of an omitted stack only if there is one), every part measured to fit at its real place is posted untrimmed, with the final links |
| `Boards.CellWidth` | internal/core/render/trim.go:130-135 | a cell is no wider than the one for the last possible part exactly if it links to a part or the cap has two digits |
| `Boards.CellsNoLongerIff` | internal/core/render/preview.go:249-253 | the cells of a whole board are no wider than the placeholders exactly if no stack is omitted or the cap has two digits |
| `Boards.RefBoardLinks` | internal/core/render/overflow.go:307-315 | so a board that prints header and column keeps to the placeholders if nothing is omitted or the cap has two digits |
| `Boards.OmittedStackTrimsPart` | internal/core/render/overflow.go:307-356 | otherwise not: with a cap of two and a stack left out, whatever is returned, part 1 was measured to fit at its own place and is trimmed |
| `Boards.RefBoardIsOrdinary` | internal/core/render/trim.go:117-128 | a board that prints the header, and the column on part 1, meets all that is assumed of one, for up to nine parts |
| `Reserve.BoardSettlesIff` | internal/core/render/overflow.go:205-216 | for boards with equally wide footers from two parts on, up to the counts that occur, the exact condition in terms of one packing against one part and one without the reserve |
| `Reserve.OnePackingTells` | internal/core/render/overflow.go:178-216 | for boards whose parts take no more later, the counts that occur stay below the bound if the packing without the reserve does by two |
| `Boards.NeverSettles` | internal/core/render/overflow.go:205-216 | a board with header and column on which the loop never settles, for every cap from three on, and which pass it returns |
| `Boards.LastPartIsTrimmed` | internal/core/render/overflow.go:205-216 | on it, for every odd cap, the last part is trimmed although a split that fits was within the cap |
| `Boards.EarlierPartMisses` | internal/core/render/overflow.go:205-216 | for every even cap, with a footer one byte longer from three parts on, an earlier part misses as well |
| `Splitting.SplitDivided` | internal/core/render/overflow.go:131-150 | the smallest count within the cap whose even split fits everywhere, or the capacity split when there is none |
| `Splitting.DividedMeans` | internal/core/render/overflow.go:128-152 | an even split every part of which fits while no smaller one does, or the capacity packing when none within the cap fits |
| `StatusGroups.SplitByGroup` | internal/core/render/overflow.go:224-250 | bucketing, per-bucket packing and the cut at the cap compute the group split |
| `StatusGroups.GroupsAreByStatus` | internal/core/render/overflow.go:219-250 | within the cap, every part shows one status, parts in group order |
| `StatusGroups.GroupsAreComplete` | internal/core/render/overflow.go:219-250 | nothing twice, and unless the cap was reached exactly the stacks of the four statuses are shown |
| `StatusGroups.PartOrigin` | internal/core/render/overflow.go:232-245 | every part is a whole group measured at its own ordinal against an unknown count, or part j of a packed group measured as part j + 1 of the pass's count |
| `StatusGroups.OwnPlaceIff` | internal/core/render/overflow.go:243-244 | a packed part was measured at its own ordinal and count exactly if nothing was placed before its group and, when the packing settled, nothing follows it |
| `Reserve.UnknownCountIsSafe` | internal/core/render/overflow.go:290-297 | what fits an unknown count, measured against the widest footer, fits every count within the cap |
| `Reserve.WholeGroupFits` | internal/core/render/overflow.go:239-242 | so a group that is let through whole fits at its real ordinal and count |
| `Reserve.GroupPartFitsIff` | internal/core/render/overflow.go:219-250 | for boards with equally wide footers from two parts on, exactly which parts fit at their real place, by text, marker and, on the last, the reserve; packed parts do that take no more there than where they were measured and are not the last or were measured as the last; and none takes more if nothing was placed before its group or parts take no more later |
| `Reserve.WhyGroupPartMisses` | internal/core/render/overflow.go:239-245 | where parts take no more later, a part of two or more misses its place only if its group came out as one part, or it is the last and was not measured as the last |
| `Boards.GroupPartMisses` | internal/core/render/overflow.go:222-244 | for every cap from two on, a board with header and column whose failed stacks fit as the only part but not as part 1 of 2, where they end up and are trimmed |
| `Pagination.MarkersIdentifyParts` | internal/core/render/overflow.go:87-105 | the board's prefix finds every part and no two parts share a marker |
| `Pagination.NoteFitsReserve` | internal/core/render/overflow.go:392-401 | the note for fewer stacks is never longer than the reserve for all |
| `Pagination.BodyFits` | internal/core/render/overflow.go:347-362 | every body, after trimming, note and marker rewriting, is at most 65,000 bytes |
| `Pagination.SplitIsGood` | internal/core/render/overflow.go:107-123 | every split mode keeps within the cap and shows no stack twice |
| `Pagination.BuildPart` | internal/core/render/overflow.go:347-387 | renders or trims, adds the note on the last part, rewrites the marker once, lists refs and omissions |
| `Pagination.PostedUnderItsMarker` | internal/core/render/overflow.go:361-362 | a part whose text carries the board's marker is posted with its own marker in that place and nothing else changed |
| `Pagination.PartsAre` | internal/core/render/overflow.go:346-389 | parts are numbered from one, each under its own marker with the stacks of its own group, and only the last names omitted stacks, when there are any |
| `Pagination.OmittedAre` | internal/core/render/overflow.go:374-387 | the last part names exactly the stacks that no part carries |
| `Pagination.OmittedRefs` | internal/core/render/overflow.go:374-386 | the refs that no part carries, in order |
| `Pagination.PartOfStack` | internal/core/render/overflow.go:337-345 | each ref links to the last part that carries it, or to none |
| `Pagination.LinksAreExact` | internal/core/render/overflow.go:337-345 | with unique refs the link of a placed stack is exactly its part |
| `Pagination.Paginate` | internal/core/render/overflow.go:279-390 | nothing when the split has at most one group, otherwise one part per group of the split, as specified |
| `Pagination.PagesConserveAndFit` | internal/core/render/overflow.go:275-390 | at most max_parts parts, each within the limit, and with unique refs every stack in exactly one part or named as omitted |
| `Gates.Evaluate` | internal/core/preconditions/gates.go:125-139 | blocked exactly if some gate fails; the trace is complete up to the first failure |
| `Gates.EvaluateAll` | internal/core/preconditions/gates.go:146-159 | the same verdict with the full trace |
| `Gates.AdmissionRule` | internal/core/preconditions/gates.go:168-292 | nothing is blocked exactly if every gate's demand, stated independently, is met |
| `Gates.DemandMeansNoFailure` | internal/core/preconditions/gates.go:168-292 | each gate fails exactly if its demand, stated in terms of the inputs, is not met |
| `Gates.OutcomeMeans` | internal/core/preconditions/gates.go:168-290 | each outcome in terms of the inputs: failed exactly if the demand is unmet, warned if overridden or slightly behind, skipped if not in force, and passed otherwise |
| `Gates.FirstFailure` | internal/core/preconditions/gates.go:123-139 | a blocked trace ends with the gate that failed; a fork without opt-in is told nothing else, and policy hooks are blamed only when everything else is met |
| `Gates.OverriddenIff` | internal/core/preconditions/gates.go:168-195 | which failures break-glass overrides, exactly, in terms of the inputs |
| `Gates.PreviewIsOverridden` | internal/core/preconditions/gates.go:180-191 | a failed preview is admitted under break-glass when its history is unreadable, and refused otherwise |
| `Gates.OverrideIsReal` | internal/core/preconditions/gates.go:161-195 | a gate is reported as overridden exactly if it passes under break-glass and would have failed without it; only four gates can be |
| `Gates.OverridesAreReal` | internal/core/preconditions/gates.go:125-139 | the recorded list holds exactly those gates |
| `Apply.GrantedMeansHolder` | internal/blob/locks/store.go:120-128 | an acquire the loop reads as granted made this very run the stored holder with its own lease |
| `Apply.DecideGates` | internal/run/apply.go:686-717 | hooks run only after the independent gates pass, and their verdict is in the decisive evaluation |
| `Apply.ApplyTarget` | internal/run/apply.go:570-853 | one iteration, emitting each outside action where the code does: its conduct with lock, heartbeat and engine is never broken and ends with a granted lock released; the engine runs exactly if the target is cleared and equipped; status, credentials and overridden gates |
| `Apply.Execute` | internal/run/apply.go:734-851 | from a held lock, every way out, of which there are five, releases it once; the engine runs exactly if the credentials are there |
| `Apply.AdmittedMeansCleared` | internal/run/apply.go:662-732 | the two gate evaluations together admit a target exactly if its lock was granted and every demand is met with the hooks' verdict known |
| `Apply.ApplyAll` | internal/run/apply.go:564-853 | one summary and one log per target in order, and a duplicate-free record of every override an apply used and of no gate that was not overridden |
| `Apply.EngineRanIff` | internal/run/apply.go:735-820 | over a whole run, exactly which engines ran: those of targets that may be applied, once some such target got the state credentials and logged in |
| `Apply.HandledTells` | internal/run/apply.go:827-850 | a summary says what the engine did: no-op is a clean return without changes, planned one with changes, blocked means lock or gate, and everything else is an error |
| `Apply.ClearedIff` | internal/run/apply.go:587-733 | a target is cleared exactly if it was not cancelled, its acquire succeeded, and every gate's demand is met with the hooks' verdict |
| `Apply.AggregateOutcome` | internal/run/apply.go:1147-1157 | failed exactly if some summary is an error, blocked exactly if none is and one was blocked |
| `Apply.RunApply` | internal/run/apply.go:904-936 | a whole run: every target handled safely, a failed or erring engine gives an error summary, and the applied marker is written exactly if every target's engine ran and returned without an error |
| `Apply.ConductCounts` | internal/run/apply.go:570-853 | for every log that follows the protocol: how often lock, heartbeat, engine and release can have happened at each stage |
| `Apply.EngineRunsUnderLock` | internal/run/apply.go:807-820 | for every log that follows the protocol: wherever the engine runs, the lock was granted and not released, and the heartbeat started and not stopped |
| `Apply.EngineRunsAsHolder` | internal/run/apply.go:590-592 | if the engine ran and the lock reply was this run's place in the lock history, the bucket named this run as holder right after it |
| `Apply.EnginesNeverOverlap` | internal/run/apply.go:587-853 | end to end: while the heartbeat of one run's engine goes, no other run whose acquire on that stack falls in that time has its engine run |
| `Apply.ConcurrentEnginesNeverOverlap` | internal/run/apply.go:587-853 | the same for every reachable state of the concurrent store: if the engines of two runs both ran on a stack, their acquires have two places in the order of writes, and the earlier run was no longer beating at the later one |
| `Approvals.VerdictMonotone` | internal/core/approvals/rules.go:168-349 | more surviving logins never turn a yes into a no |
| `Approvals.MoreApprovalsNeverRevoke` | internal/core/approvals/rules.go:168-349 | adding approvals never revokes |
| `Approvals.OrderAndDuplicatesIrrelevant` | internal/core/approvals/rules.go:168-349 | order and duplicates of approvals play no part |
| `Approvals.TimeNeverGrants` | internal/core/approvals/rules.go:195-210 | advancing the clock never grants |
| `Approvals.NeedsAnotherPerson` | internal/core/approvals/rules.go:168-349 | for every rule set a satisfied gate rests on a surviving approval whose login is not the author's, both trimmed, if no approval is disguised |
| `Approvals.PlainLoginsNeedAnotherPerson` | internal/core/approvals/rules.go:20-23 | so it is whenever approvers and author are logins without a leading at-sign, as documented |
| `Approvals.AuthorCountsIff` | internal/core/approvals/rules.go:191-194 | the author's login is counted under some rules exactly if some approver differs from the author and is the same once leading at-signs are gone on both sides |
| `Approvals.SelfApprovalIff` | internal/core/approvals/rules.go:168-349 | approvals that all come from the author satisfy some rule set exactly if one of them is so disguised |
| `Approvals.AuthorApprovesAsAt` | internal/core/approvals/rules.go:191-194 | the two inputs on which an author alone satisfies the gate |
| `Approvals.SurvivingNames` | internal/core/approvals/rules.go:174-213 | the filter loop collects exactly the surviving logins |
| `Approvals.DistinctAmong` | internal/core/approvals/rules.go:384-414 | each eligible login once |
| `Approvals.EligibleLogins` | internal/core/approvals/rules.go:373-383 | the expansion of the allow-list, teams included |
| `Approvals.AnyMatches` | internal/core/approvals/rules.go:419-436 | a group or owner matches by login, literally, or through a team member |
| `Approvals.CountPaths` | internal/core/approvals/rules.go:314-333 | in whatever order the map is walked, the number of paths with an approver |
| `Approvals.Evaluate` | internal/core/approvals/rules.go:168-349 | the gate is satisfied exactly if the surviving logins give what the rules ask for, read off the rules; the counts are functions of those logins |
| `Approvals.SatisfiedIff` | internal/core/approvals/rules.go:240-353 | the verdict, exactly: as many different logins as required, each on the allow-list if there is one and none on a public repository without opt-in; somebody of every listed group; an owner of every owned path; and one approval where nothing is asked |
| `Approvals.SurvivorIff` | internal/core/approvals/rules.go:175-210 | a login counts exactly if it approved under another name than the author's, on the commit or unbound where allowed, and in time |
| `Approvals.NewCommitDismisses` | internal/core/approvals/rules.go:176-189 | approvals for other commits never satisfy the gate when new commits dismiss |
| `Approvals.StaleApprovalsLapse` | internal/core/approvals/rules.go:195-208 | once the window has passed since the last approval the gate is shut |
| `Approvals.GotIs` | internal/core/approvals/rules.go:268-341 | the count shown is that of the counted logins, spoken-for groups and answered paths |
| `Approvals.NeededIs` | internal/core/approvals/rules.go:268-341 | the number needed is that of the quorum, the listed groups and the owned paths |
| `Approvals.GotSuffices` | internal/core/approvals/rules.go:268-353 | a satisfied gate shows at least as many as are needed, and at least one |
| `Preview.OrderInvertsIdentity` | internal/run/preview_lookup.go:231-261 | the parser inverts the printer for every run number, attempt and SHA |
| `Preview.OrderReadsShortForm` | internal/run/preview_lookup.go:231-261 | an identity that ends in the short form of the commit is read as well |
| `Preview.ParseOrderIs` | internal/run/preview_lookup.go:243-260 | one part is a run number that is not negative, of two the second is an attempt from one on, and more parts are nothing |
| `Preview.AtoiIff` | internal/run/preview_lookup.go:248-256 | exactly which strings are read as numbers: digits with at most one sign, in the range of int |
| `Preview.IdentityIsInjective` | internal/run/identity.go:5-20 | identities are equal exactly for the same run, attempt and commit, for SHAs without a dash |
| `Preview.OwnKeyIsBound` | internal/run/preview_lookup.go:263-285 | the key a preview writes is recognised for its commit and bound to it |
| `Preview.CandidateIff` | internal/run/preview_lookup.go:263-286 | exactly which keys are candidates, and which are bound |
| `Preview.OtherCommitIsNotOurs` | internal/run/preview_lookup.go:263-286 | the key of a preview of another commit is not ours, unless what it calls its commit is the short form of this one |
| `Preview.OwnKeyJudged` | internal/run/preview_lookup.go:175-215 | what is stored under a preview's own key is its intact manifest or fails the lookup |
| `Preview.JudgedIff` | internal/run/preview_lookup.go:175-215 | exactly what is accepted from any key, and exactly when the lookup fails |
| `Selection.NewestPreviewManifest` | internal/run/preview_lookup.go:162-215 | the loop computes the selection: it fails exactly if some listed candidate is invalid, and otherwise returns the best accepted manifest |
| `Selection.BestIsGreatest` | internal/run/preview_lookup.go:207-229 | when all run numbers parse, the selected manifest is a greatest one by creation time, run number and attempt |
| `Selection.OrderFreeIff` | internal/run/preview_lookup.go:162-229 | all listings of the same keys select the same manifest exactly if the lookup fails, nothing is accepted, or one accepted manifest beats every other |
| `Selection.ListingOrderIrrelevant` | internal/run/preview_lookup.go:162-261 | so it is when all run numbers parse |
| `Selection.UnparsedNameMakesOrderMatter` | internal/run/preview_lookup.go:217-229 | three stored manifests of which each of three listings selects the one listed last |

## Left out

- Cloud, filesystem, GitHub and Slack adapters, retries and telemetry: network clients; only the store contract is used.
- Content-derived tags: the bucket's tags are modelled as versions, so writing identical bytes still changes the tag.
- Deletion of lock objects and the content-against-key check of `maintain`: nothing in the modelled operations deletes a lock.
- The walkers over all locks (`UnlockPRAll`, `ReapAll`, `ListAll`), including the sweep of a finished run: loops over the modelled operations.
- Timestamps outside the four-digit years of RFC 3339, and leap seconds.
- A provider that returns the same credential object twice, and unregistered provider names.
- `Fingerprint`, and `filter`, `retainedPaths` and `applyCounts` of the drift classification: sorting, hashing and counting.
- The retry loop around one drift check, baseline bootstrap, permanent suppression and a failed save of drift state.
- Delivery inside one channel, and the timestamp inside a pending marker.
- Markdown rendering and the trim ladder: arbitrary functions, the ladder assumed to honour its limit; sorting is any permutation.
- The parts of a rendered board other than its body, marker and refs (trim reports, table override, plan inclusion): inside the renderer.
- Linear running time claimed for the wildcard matcher: only termination and the verdict are stated.
- Approval rule resolution and specificity sorting, traces, missing lists and gate reasons: display text and configuration.
- Plan locking, annotations, timeline and audit records of the apply loop; freeze windows and discovery globs.
- Indexing a selected manifest by stack, and the error texts of the lookup.
- SHA-256 itself: a function parameter, of which only the length and alphabet of its output are used.
- CacheSections.Cache.Close: one undisturbed run, with no request settling during its loop; the interleavings are in `CredentialCache`.
- Apply.RunApply: does not say that the lease is still live when the engine returns; `Apply.EnginesNeverOverlap` and `LockHistory.HeartbeatBound` do, under their timing assumption.
- Overlap.AtLeastOnce: a run reads all markers in one step; a marker that changes between listing and reading counts as read at that step, or as unreadable.
- Reserve.FittingPartsArePostedInFull: assumes of the renderer that the links of the board take no more room than the placeholders; `Boards.RefBoardLinks` says when that is so.
- Reserve.BoardSettlesIff: not for boards that come out near ten parts or more, where "of 9" and "of 10" differ in width; there `Settling.SettlesIff` and `Reserve.TextFitsAtRealCount` hold.
- Reserve.GroupPartFitsIff: not for boards of ten parts or more, for the same reason.
