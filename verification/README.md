# Forktower, modelled and proved in Dafny

Forktower watches two Bitcoin chains that may separate: the one the user's own node follows
(`SF`) and the one it does not (`SQ`). This project models the parts of it whose promises
span many steps, and proves those promises for every input, every run or every interleaving.
`dafny verify dfyconfig.toml` checks all of it.

- **Split detection.** `SplitState` is one tick of the detector as a function of what it
  remembers and what it observes; `SplitTracker` is the same tick over fields updated in
  place, proved equal to it; `SplitRuns` holds what is true of whole runs, `Suspicion` when a
  split is suspected, `Rejections` exactly why a phase changes, `Reports` what else is told, `Outages` what a tick that reads neither chain can do,
  `Restarts` what survives any number of restarts through what the shell saves, and
  `SplitRecords` what a split leaves on record. Observations are drawn from the block tree
  of `BlockTree`, in which a hash determines its history, so "no false alarm" and "no missed
  split" speak about real divergence. `Cadences` estimates block
  intervals. `ForkSearch` walks back to the last common block through the cache of
  `HeaderCaches`. `BranchCheck` compares two views at sampled heights.
- **Resumable download.** `Snapshots` places offsets in parts. `Fetcher` runs the loop over a
  file written in place; `FetchModel` is that loop on values, against an arbitrary server;
  `FetchTurns` says what one request comes to and `FetchRuns` what any run, and any sequence
  of interrupted runs, leaves on disk.
- **Event bus.** `EventBus` interleaves publishers, consumers, Subscribe and Close as atomic
  operations; `BusLosses` says what becomes of every published event, `BusSubscribers` what one
  subscriber gets, `LonePublisher` what
  one publisher leaves when nobody receives; `LiveBus` is the bus in place as one caller at
  a time sees it.
- **Alerts.** `AlertTable` is the table with its key rewriting, in place and on values;
  `AlertRuns` what any sequence of operations keeps, `AlertCollisions` exactly when a
  resolution is refused; `Announcer` what is told to whom.
- **Countdowns.** `Countdowns` is the engine in place and on values; `CountdownRuns` what holds
  over any run of events, `CountdownFigures` what recording figures and one block do.
- **Sign-in limiter.** `Logins`.

Code that updates things in place is a class or a method with a loop, proved equal to a
function of the old state; the theorems are then about those functions. Heights and times are
unbounded integers, floating-point numbers are reals, SHA-256 is an arbitrary function of the
bytes, and two block hashes are equal only for the same block. Times of observations are
positive where a zero clock means "not running".

## Where the code and its comments differ

The model follows the code.

- An outage is said never to change the phase. A tick that reads neither chain can move
  every phase that is not resolved: ARMED goes to SPLIT by a clock that keeps running over
  the last tips seen, SPLIT to RESOLVING and back by last-seen times. `Outages.OutageMovesIff`
  says exactly when; `Outages.OutageCanDeclareSplit`, `Outages.OutageCanLeaveSplit` and
  `Restarts.OutageCanReturnToSplit` are one run that shows it. No
  split is ever forgotten (`SplitRuns.RunIsSafe`).
- The trust anchor is said to be the minimum of every bound available. A negative bound is
  dropped, not clamped (`SplitRecords.AnchorRespectsBoundsIff`,
  `SplitRecords.AnchorIgnoresDeepRejection`), and with no other bound the old anchor stays
  (`SplitRecords.AnchorCanBeStale`). A newly recorded fork bounds it from the next tick on
  (`SplitRecords.AnchorStaysUnderFork`); on the tick itself it can stand above
  (`SplitRecords.AnchorOnRecordingTickIff`, `SplitRecords.AnchorAboveNewFork`).
- A fork missing when a split is recorded is said to be filled in by the search that keeps
  running. It is filled only when the machine enters SPLIT again
  (`SplitRecords.ForkIsFilledIff`); while the phase stays SPLIT no search fills it
  (`SplitRecords.SearchDoesNotFill`, `SplitRecords.SearchesNeverFill`).
- An operator's outcome is said to win from anywhere. It is honoured from RESOLVING only
  (`SplitRuns.OutcomeIsHonouredIff`).
- A download is said to resume at any point. A run that finds the file ending exactly between
  two parts does not move the file position and overwrites the beginning; any other start is
  sound (`FetchRuns.StartsReadyIff`). Well served, the run leaves the published file exactly
  when the start is not of that kind (`FetchRuns.ResumesIff`, `FetchRuns.BoundaryStartCorrupts`).
- A restart is said to resume. The separation clock and everything recorded do
  (`Restarts.ClockSurvivesRestarts`, `Restarts.RestartsLoseNothing`), but RESOLVING goes back
  to SPLIT at the first tick (`Restarts.RestartForgetsResolving`) and the quiet of a chain is
  counted anew (`Restarts.RestartPostponesResolving`). The clock is saved under three keys
  one by one, and a crash among them can backdate it (`Restarts.TornClockIff`).
- Subscribers are said to see events in the order they were published. They do when
  publications do not overlap (`BusLosses.OrderOfPublication`); publishers inside at once can
  reach a channel in either order (`BusLosses.OverlapCanReverse`).
- A drop count is said to be of events lost. It is of slow deliveries, each of which loses none,
  one or two events (`BusLosses.SlowDeliveryLoses`, `BusLosses.OneDropNoLoss`,
  `BusLosses.OneDropTwoLosses`, `BusLosses.LossIsBounded`).
- A condition that comes back after a resolution is said to be news. It is not when the
  resolution closed nothing and was recorded under the same key
  (`Announcer.RaiseAfterResolutionIsToldIff`, `Announcer.MutedForGood`).
- A burst of failed sign-ins is said to be alerted. A second burst of exactly ten after a
  sign-in is not (`Logins.BurstIsHeardIff`).

## Model

| member | source | states |
|---|---|---|
| BlockTree.SharedBelow | internal/sentinel/forkpoint.go:45-109 | two chains that hold the same block at a height hold the same blocks at every height below it |
| BlockTree.BothAboveIffDiverged | internal/sentinel/logic.go:456-481 | both tips stand above their last common block exactly when neither is an ancestor of the other, which is what makes a candidate mutual |
| BlockTree.AgreeExactlyBelow | internal/chainview/verify.go:189-206 | at every height both chains reach they agree up to the last common block and nowhere above it |
| Cadences.EstimateStaysSane | internal/sentinel/cadence.go:64-87 | whatever header times arrive in whatever order, the estimated interval stays between a second and a day and its reference time never goes back |
| Cadences.SilenceOnlyGrows | internal/sentinel/cadence.go:109-120 | a stalled chain stays stalled until a block arrives |
| Cadences.PaceIsLearnt | internal/sentinel/cadence.go:64-87 | over any number of evenly spaced blocks the gap between estimate and pace, a day at most, shrinks to seven tenths with every block |
| Cadences.StallTakes | internal/sentinel/cadence.go:96-120 | a chain counts as stalled after the factor times its pace or ten minutes, whichever is longer, and not before within a second of the pace; a factor that is not positive stands for six |
| SplitTracker.FindWithin | internal/sentinel/logic.go:980-990 | the loop finds a hash exactly when it is among the first `limit` |
| SplitTracker.AnyRejectedMatch | internal/sentinel/logic.go:820-832 | the loop finds a rejected branch that leads to the watched chain exactly when there is one |
| SplitTracker.EarliestRejectedHeight | internal/sentinel/logic.go:669-687 | the loop returns the least base of the rejected branches, and nothing when none was rejected |
| SplitTracker.ComputeTrustAnchor | internal/sentinel/logic.go:629-662 | the bound folded over the available evidence |
| SplitTracker.Tracker.TrackHealth | internal/sentinel/logic.go:359-398 | health changes and the both-down timer, written in place |
| SplitTracker.Tracker.TrackDisagreement | internal/sentinel/logic.go:412-431 | the height-disagreement clock, written in place |
| SplitTracker.Tracker.TrackForkCandidate | internal/sentinel/logic.go:456-481 | the separation clock, written in place |
| SplitTracker.Tracker.TrackBlocks | internal/sentinel/logic.go:549-597 | both tips, cadences and last-seen times, written in place, with the new blocks reported |
| SplitTracker.Tracker.TrackTrustAnchor | internal/sentinel/logic.go:600-611 | the stored anchor moves, and is reported, only when the bound differs from it |
| SplitTracker.Tracker.ApplyPhase | internal/sentinel/logic.go:896-934 | the bookkeeping of entering a phase, written in place |
| SplitTracker.RunStep | internal/sentinel/logic.go:319-356 | one tick run over a mutable copy is the step function on values, in state and in effects |
| SplitRuns.StepIsSafe | internal/sentinel/logic.go:691-726 | no tick lowers the phase rank, changes a recorded fork or its detection time, resolves except from RESOLVING on the operator's own outcome, or enters RESOLVING except from SPLIT naming the one chain that is not stalled |
| SplitRuns.RunIsSafe | internal/sentinel/logic.go:319-356 | over any run the phase rank never falls, a recorded fork and detection time never change, and a resolved phase is final |
| SplitRuns.ForkWasFound | internal/sentinel/logic.go:896-927 | in every run from the new state, a fork is recorded only from SPLIT on, and some tick's search returned exactly it |
| SplitRuns.ForkIsTrue | internal/sentinel/logic.go:896-927 | with truthful searches the recorded fork is the last common block of two tips observed together |
| SplitRuns.ClockIgnoresSilence | internal/sentinel/logic.go:456-481 | candidate and clock after a run are what they would be with the uninformative ticks deleted |
| SplitRuns.ClockMeaning | internal/sentinel/logic.go:456-481 | the clock runs exactly when the last informative tick was mutual, and then shows the first tick of the longest unbroken streak at that candidate |
| SplitRuns.HeldApartMeansHeldApart | internal/sentinel/logic.go:842-857 | a split confirmed by persistence has a streak at least the confirmation time old, and was suspected when the suspicion time is the shorter |
| SplitRuns.AgreeIffCloseOnOneChain | internal/sentinel/logic.go:955-976 | given full recent history, tips agree exactly when neither has diverged and the lag is within the depth |
| SplitRuns.SustainedTick | internal/sentinel/logic.go:746-787 | one informative tick on a mutual candidate old and deep enough records the split from ARMED, or from UNARMED with both views usable |
| SplitRuns.NoMissedSplit | internal/sentinel/logic.go:820-858 | over a whole run: a streak as old as the confirmation time with one chain far enough ahead is in SPLIT after the informative tick |
| SplitRuns.FarApartTick | internal/sentinel/logic.go:833-841 | two chains both at least the confirmation depth past their separation are a split at once |
| SplitRuns.AlarmIsReal | internal/sentinel/logic.go:820-858 | no alarm without real divergence: a split declared for distance or for persistence comes in a run that has seen the two tips diverge in the block tree |
| Rejections.RecognisedIff | internal/sentinel/logic.go:992-1012 | however much history was read, a branch the node rejected is taken to be the watched chain if and only if its block is the watched tip or an ancestor of it, fewer blocks down than the branch is long (one at least) and within that history |
| Rejections.RefusalIsBelievedIff | internal/sentinel/logic.go:820-832 | with full recent history, a split is announced for a refused block if and only if the machine is ARMED, or UNARMED with both views usable, the chains are not within the depth on one branch, and some rejected block is on the watched chain so recently; it is then SPLIT at once |
| Rejections.AlarmIsGivenIff | internal/sentinel/logic.go:746-858 | exactly when each of the three reasons for a split is given, in their order: refusal, distance, persistence |
| Rejections.ArmingIsGivenIff | internal/sentinel/logic.go:746-752 | the machine arms if and only if it was UNARMED, both views are usable and the chains agree |
| Rejections.ResolvingIsGivenIff | internal/sentinel/logic.go:691-714 | exactly when RESOLVING is entered and for which quiet chain, when it is left for SPLIT, and when an operator's word ends it |
| Reports.ClockAfterTick | internal/sentinel/logic.go:456-481 | an unread tip or a failed search leaves the separation clock, a separation below both tips keeps or starts it, anything else clears it |
| Reports.ViewAfterTick | internal/sentinel/logic.go:566-583 | tip and last-seen time move on a new block and on nothing else |
| Reports.BlockIsReportedIff | internal/sentinel/logic.go:535-597 | a block is reported if and only if it is a new tip, with its distance past the recorded or else the tracked separation and the pace that includes it |
| Reports.BothDownIsToldIff | internal/sentinel/logic.go:380-398 | over any run, that neither chain can be reached is said if and only if both are down ten minutes or more after they went down or after it was last said |
| Suspicion.DifferenceMeaning | internal/sentinel/logic.go:412-431 | a hash difference stands exactly while the last comparison found one, and its clock shows the first of the unbroken comparisons that found that same difference |
| Suspicion.SuspectedExactlyWhen | internal/sentinel/logic.go:503-526 | in every run a split is suspected exactly when every comparison for long enough found one difference, or an unbroken streak of separation has lasted or shows a lead of more than one block |
| SplitRuns.OutcomeIsHonouredIff | internal/sentinel/logic.go:691-699 | an operator's outcome becomes the phase exactly from RESOLVING, or where it is the phase already |
| SplitRuns.NoFalseAlarm | internal/sentinel/logic.go:319-356 | runs in which one tip is always an ancestor of the other never leave UNARMED and ARMED and never suspect a split, however long one view lags |
| Outages.OutageMovesIff | internal/sentinel/logic.go:691-874 | for every state, a tick that reads neither view moves the phase if and only if: UNARMED with both views usable and last tips agreeing or evidence standing; ARMED with last tips not agreeing and evidence standing; SPLIT with exactly one chain counted as stalled; RESOLVING with the recorded chain not stalled; never when resolved. Evidence is a rejected branch, or the running clock with a stored lead |
| Outages.OutageMovesTo | internal/sentinel/logic.go:691-934 | and where each of those moves leads |
| Outages.OutageCanDeclareSplit | internal/sentinel/logic.go:842-857 | a run from a first start, of which a tick that reads neither view takes ARMED to SPLIT, contrary to the claim that an outage never changes the phase |
| Outages.OutageCanLeaveSplit | internal/sentinel/logic.go:860-893 | the same run, of which the next such tick takes SPLIT to RESOLVING |
| Restarts.OutageCanReturnToSplit | internal/sentinel/logic.go:708-714 | the same run restarted there, of which another such tick takes RESOLVING back to SPLIT |
| Restarts.Sentinel.constructor | internal/sentinel/sentinel.go:389-422 | a first start |
| Restarts.Sentinel.LoadState | internal/sentinel/sentinel.go:389-506 | the state a start makes of what is on disk, with a clock that cannot be taken up again left out |
| Restarts.ClockIsOnDisk | internal/sentinel/sentinel.go:615-632 | whichever moved, its hash or its start, the clock on disk is the one in memory after the tick |
| Restarts.LoadMeans | internal/sentinel/sentinel.go:389-506 | what a start brings back and what it does not, the clock only if it was running at a possible height |
| Restarts.Sentinel.Apply | internal/sentinel/sentinel.go:902-927 | the loop writes what each effect of a tick asks for, in order |
| Restarts.Sentinel.PersistForkCandidate | internal/sentinel/sentinel.go:615-632 | the clock is written only when its start or its separation moved |
| Restarts.Sentinel.Tick | internal/sentinel/sentinel.go:594-606 | a step, its effects, then the clock |
| Restarts.RestartsLoseNothing | internal/sentinel/sentinel.go:385-388 | over any run of ticks and restarts the phase rank never falls, a recorded fork and detection time stay and a resolved phase is final; the record on disk is never behind |
| Restarts.ClockSurvivesRestarts | internal/sentinel/sentinel.go:460-465 | after any ticks and restarts, candidate and clock are those of the same ticks with the restarts deleted |
| Restarts.NoMissedSplitAcrossRestarts | internal/sentinel/sentinel.go:460-465 | a separation as old as the confirmation time, counted over all lives of the daemon, with one chain far enough ahead, is in SPLIT after the informative tick |
| Restarts.RestartForgetsResolving | internal/sentinel/sentinel.go:395-400 | restarted in RESOLVING, the first tick goes to SPLIT unless an operator speaks on it, whatever it sees, contrary to the claim that a restart resumes |
| Restarts.RestartPostponesResolving | internal/sentinel/sentinel.go:395-400 | after a restart in SPLIT, no tick within the nominal stall time of the first leaves SPLIT, whatever any tick sees and an operator says |
| Restarts.TornClockIff | internal/sentinel/sentinel.go:628-636 | a crash among the three writes that move the clock to a new separation makes it count from before that separation was seen if and only if the hash was written and the start was not |
| SplitRuns.EffectLogIsComplete | internal/sentinel/logic.go:319-398 | replaying all effects of a run gives phase, healths, tips and anchor; phase and health changes chain from old to new, and every phase change directly follows a persist |
| SplitRecords.ForkIsFilledIff | internal/sentinel/logic.go:896-918 | a missing fork is filled in if and only if a candidate is tracked or just found and the tick enters SPLIT: from UNARMED (views usable) or ARMED on evidence between tips that do not agree, from RESOLVING when the recorded chain is not stalled and no operator spoke; never from SPLIT. It is then that candidate |
| SplitRecords.DetectedIff | internal/sentinel/logic.go:896-917 | the detection time is that of the latest tick that entered SPLIT with no fork on record |
| SplitRecords.CandidateAfterTick | internal/sentinel/logic.go:918-934 | the chain that seems to have won is forgotten on entering SPLIT, named on entering RESOLVING, and otherwise kept |
| SplitRecords.RejectedSplitHasNoFork | internal/sentinel/logic.go:911-917 | a split confirmed by a rejected branch before any search has succeeded records no fork |
| SplitRecords.SearchDoesNotFill | internal/sentinel/logic.go:911-917 | a later tick whose search finds the separation, with the split standing, leaves the fork missing, contrary to the comment |
| SplitRecords.SearchesNeverFill | internal/sentinel/logic.go:911-917 | over any run that stays in SPLIT no number of searches fills it |
| SplitRecords.AnchorIsLeastWeighed | internal/sentinel/logic.go:629-662 | there is an anchor if and only if some bound the code weighs is not negative, and it is the least of those |
| SplitRecords.AnchorRespectsBoundsIff | internal/sentinel/logic.go:613-662 | an anchor respects every documented bound if and only if none is negative; where there is none although bounds exist, one of them is negative |
| SplitRecords.AnchorAfterStep | internal/sentinel/logic.go:600-611 | after any tick the stored anchor is the bound worked out from the fork known before it, or what it was if there is none |
| SplitRecords.AnchorCanBeStale | internal/sentinel/logic.go:633-662 | an input on which the only bound is negative and a higher old anchor stays |
| SplitRecords.AnchorOnRecordingTickIff | internal/sentinel/logic.go:319-356 | on the tick that records a fork the anchor respects it if and only if some other bound lies between zero and its height, or none is at or above zero and the old anchor does not exceed it |
| SplitRecords.AnchorAboveNewFork | internal/sentinel/logic.go:319-356 | one tick that records a fork at 990 and leaves the anchor at 999 |
| SplitRecords.AnchorIgnoresDeepRejection | internal/sentinel/logic.go:633-636 | an input on which the anchor stands far above a documented bound, because that bound is negative and dropped |
| SplitRecords.AnchorStaysUnderFork | internal/sentinel/logic.go:648-650 | from the tick after a fork is recorded, the anchor never stands above it |
| HeaderCaches.RecencyRank | internal/sentinel/forkpoint.go:152-171 | a key's place in order of use is the number of distinct other keys touched since |
| HeaderCaches.HeaderCache.constructor | internal/sentinel/forkpoint.go:173-182 | an empty cache with the requested limit, or the default for a limit that is not positive |
| HeaderCaches.HeaderCache.Get | internal/sentinel/forkpoint.go:185-192 | returns what is held under the key, and counts as a touch only when it is held |
| HeaderCaches.HeaderCache.Put | internal/sentinel/forkpoint.go:195-213 | the new header is held, everything else still held is unchanged, and list and map stay in bijection within the limit |
| HeaderCaches.HeaderCache.EvictOverflow | internal/sentinel/forkpoint.go:205-212 | the loop drops least recently used entries until the rest fit, from list and map alike |
| HeaderCaches.HeldIffRecent | internal/sentinel/forkpoint.go:152-171 | true LRU: a key is held if and only if it was touched and fewer than `limit` distinct other keys were touched since |
| ForkSearch.HighestCommonIsUnique | internal/sentinel/forkpoint.go:45-109 | two tips have at most one last common block |
| ForkSearch.FetchHeader | internal/sentinel/forkpoint.go:111-137 | a header comes from the cache or the view and is always the right one; without a cache, exactly when the view has it |
| ForkSearch.BringDown | internal/sentinel/forkpoint.go:60-82 | levelling the taller side succeeds within the limit whenever the headers can be had, one counted step each |
| ForkSearch.WalkTogether | internal/sentinel/forkpoint.go:84-108 | stepping both sides back from one height answers exactly |
| ForkSearch.FindForkPoint | internal/sentinel/forkpoint.go:45-109 | found means the highest common ancestor; without a cache, found if and only if one exists no deeper than the limit with every header on both paths obtainable; on every exit at most limit + 1 steps were counted, and limit + 1 exactly when the answer is that the fork is too deep |
| ForkSearch.CacheNeverChangesTheAnswer | internal/sentinel/forkpoint.go:111-137 | from any coherent cache the search returns the uncached answer whenever there is one |
| Snapshots.ComputeTotalBytes | internal/bootstrap/snapshot.go:63-69 | the loop adds up the parts |
| Snapshots.ComputeBytesBefore | internal/bootstrap/snapshot.go:72-78 | the loop adds up the parts before an index, all of them past the end |
| Snapshots.PartAt | internal/bootstrap/snapshot.go:87-100 | succeeds exactly for offsets from zero to the total, with the position that lies at that offset |
| Snapshots.PositionIsUnique | internal/bootstrap/snapshot.go:72-100 | position and offset determine each other, so the two functions are mutual inverses |
| Fetcher.CopyWatched | internal/bootstrap/fetch.go:442-490 | the read loop writes, hashes and counts the same bytes, at most the limit, and reports how it ended |
| Fetcher.StreamPart | internal/bootstrap/fetch.go:345-407 | one request: refused statuses and a changed file touch nothing, otherwise the body is copied |
| Fetcher.ResetPart | internal/bootstrap/fetch.go:535-567 | the file is cut back to the part's start, with the position there and the digest empty |
| Fetcher.Resume | internal/bootstrap/fetch.go:157-191 | opening keeps a file no longer than the snapshot, finds the position in it, and reads back only a partial part |
| Fetcher.RunPass | internal/bootstrap/fetch.go:199-305 | one pass of the loop over the file in place does what the pass on values says |
| Fetcher.Fetch | internal/bootstrap/fetch.go:143-311 | a whole run over the file in place ends with the outcome, file and request count the loop on values gives |
| FetchModel.Loop | internal/bootstrap/fetch.go:199-305 | terminates against any server with at most MaxAttempts requests a part |
| FetchModel.Pass | internal/bootstrap/fetch.go:199-305 | every pass that does not return finishes a part or uses up an attempt |
| FetchTurns.EveryFileStarts | internal/bootstrap/fetch.go:157-191 | every file found has exactly one start; a file longer than the snapshot is emptied and any other kept whole |
| FetchTurns.WriteMeans | internal/bootstrap/fetch.go:459-466 | a write puts the buffer at the position and leaves every other byte |
| FetchTurns.TruncateMeans | internal/bootstrap/fetch.go:548-556 | cutting keeps what is before the end, lengthening adds zeros, and the position is the end |
| FetchTurns.TakenUpTo | internal/bootstrap/fetch.go:442-498 | a body is taken up to the first read that ends it, fails, cannot be written or comes after the caller gave up, never past the limit, and that read decides how it ends |
| FetchTurns.PassEndsIff | internal/bootstrap/fetch.go:205-300 | the loop stops if and only if the caller gave up, the published file has another size, or the thirtieth attempt at a part failed, each with its own outcome |
| FetchTurns.PassKeepsWhatItIsBrought | internal/bootstrap/fetch.go:205-300 | a pass that goes on keeps every byte brought after all that was there, and cuts the part back only for a refused range or a checksum mismatch |
| FetchTurns.BrokenTransferResumes | internal/bootstrap/fetch.go:249-284 | a transfer that broke off or fell short is resumed where it stopped, one attempt spent |
| FetchTurns.BreakingConnectionSucceeds | internal/bootstrap/fetch.go:143-311 | as long as one of any thirty requests for a part gets through, a run over a connection that keeps breaking ends with the published file |
| FetchTurns.ArrivedEndsIff | internal/bootstrap/fetch.go:500-531 | with every part in, the run is stopped if the caller gave up, and otherwise complete exactly when the whole digest matches |
| FetchRuns.StartsReadyIff | internal/bootstrap/fetch.go:157-191 | a run starts ready to append exactly when what it keeps does not end between two parts |
| FetchRuns.GrownStaysAligned | internal/bootstrap/fetch.go:199-305 | after a reply, file length, file position and size agree, and the digest holds exactly the file from the part's start |
| FetchRuns.PassKeepsReady | internal/bootstrap/fetch.go:199-305 | a pass keeps the loop invariant, leaves finished parts alone, and a part it finishes hashes to its checksum |
| FetchRuns.CompleteMeansTheDigestMatches | internal/bootstrap/fetch.go:500-531 | success means the whole file has the compiled-in digest, whatever the file held to begin with |
| FetchRuns.RunKeepsItsWord | internal/bootstrap/fetch.go:143-311 | from a sound start against any server: the file never outgrows the snapshot, finished parts are untouched, and success means every part finished matched |
| FetchRuns.IgnoredRangeAddsNothing | internal/bootstrap/fetch.go:222-245 | after a 200 answer to a resumed request the file is as it was or cut back to the part's start, with every complete part kept, and the same part is asked for again from its beginning |
| FetchRuns.RunKeepsPrefix | internal/bootstrap/fetch.go:143-311 | against a server that honours ranges, a run from a sound start leaves a prefix of the published file, and all of it on success |
| FetchRuns.ResumingIsLossless | internal/bootstrap/fetch.go:143-191 | any sequence of interrupted runs, none starting between two parts, leaves a prefix of the published file |
| FetchRuns.GoodServerSucceeds | internal/bootstrap/fetch.go:143-311 | a genuine file served by a server that answers every range that has bytes succeeds from any sound start with one request a part |
| FetchRuns.BoundaryStartOverwrites | internal/bootstrap/fetch.go:174-191 | a run that starts exactly between two parts writes at the beginning of the file instead of its end |
| FetchRuns.BoundaryStartCorrupts | internal/bootstrap/fetch.go:157-311 | from every such start, however well served, the run leaves the rest of the published file laid over the beginning of what was there, which is too short and never the published file |
| FetchRuns.ResumesIff | internal/bootstrap/fetch.go:143-311 | well served over any part of the published file, a run leaves the published file if and only if what it found does not end between two parts |
| FetchRuns.SmallestCorruption | internal/bootstrap/fetch.go:174-191 | the smallest such run: two one-byte parts, the second delivered perfectly, and the whole-file check fails |
| EventBus.EveryRunKeepsInv | internal/bus/bus.go:122-203 | in every interleaving: sent equals taken out then buffered, the buffer stays within its size, everything published and wanted is sent, refused or on its way, nothing twice, and channels are open exactly while the bus is |
| BusLosses.NothingGoesMissing | internal/bus/bus.go:122-181 | in every interleaving, at every moment: the wanted events published since a channel subscribed are exactly those sent, those refused, and those publishers inside have not yet brought past it |
| BusSubscribers.SubscriberIsServed | internal/bus/bus.go:61-120 | whoever subscribes in any run for some kinds or for all: from then on exactly the events of those kinds are sent, refused or on their way, and nothing else is received or waiting |
| BusSubscribers.OpenUntilClosed | internal/bus/bus.go:87-205 | in every run a channel is open if and only if no Close has taken effect |
| BusLosses.ReceivedInOrder | internal/bus/bus.go:122-181 | in every interleaving a consumer gets an in-order, duplicate-free subsequence of what was sent; what it received or has waiting is of a kind in its set, or of any kind if it named none; the rest was displaced |
| BusLosses.OrderOfPublication | internal/bus/bus.go:30-34 | in every run, an event whose publisher had left before another was published is sent and received before it on every channel |
| BusLosses.OverlapCanReverse | internal/bus/bus.go:122-181 | a run in which two overlapping publications are sent in the reverse of publication order |
| BusLosses.NoSendToClosed | internal/bus/bus.go:185-203 | a publisher that is inside Publish never faces a closed channel |
| BusLosses.LossIsCounted | internal/bus/bus.go:145-181 | the wanted published events neither received, waiting nor on their way number exactly those displaced plus those refused |
| BusLosses.LossIsBounded | internal/bus/bus.go:145-181 | in every run, once no publisher is inside, at most twice the drop count of the wanted events published since subscribing were neither received nor are waiting |
| BusLosses.SlowDeliveryLoses | internal/bus/bus.go:145-181 | in every run, whatever others do between its operations: a delivery is slow exactly when its first send finds a wanted event and a full buffer, then counts one drop, and loses one event if its displacing receive finds any and one if its second send finds the buffer full |
| BusLosses.OneDropNoLoss | internal/bus/bus.go:152-162 | a run in which one drop is counted and nothing is lost |
| BusLosses.OneDropTwoLosses | internal/bus/bus.go:172-179 | a run in which one drop is counted and two events are lost |
| EventBus.AloneDeliversToAll | internal/bus/bus.go:122-141 | a Publish that nothing comes between delivers undisturbed to every channel, then leaves |
| LonePublisher.NewestAreKept | internal/bus/bus.go:110-118 | in every run of the bus with one publisher and nobody receiving, whoever subscribes and when: each buffer holds the most recent of the wanted events published since subscribing, and the drop count is the loss |
| LiveBus.Subscription.Deliver | internal/bus/bus.go:145-181 | delivery in place is the undisturbed delivery |
| LiveBus.Bus.Subscribe | internal/bus/bus.go:87-108 | a new subscription with the kinds asked for, or an already closed one that the bus does not keep |
| LiveBus.Bus.Publish | internal/bus/bus.go:122-141 | the loop delivers to each channel as if it were alone, and a closed bus is left untouched |
| LiveBus.Bus.Close | internal/bus/bus.go:185-203 | every channel is closed once with its content intact, and the list is emptied |
| LiveBus.Bus.Dropped | internal/bus/bus.go:207-217 | the drop count of the first subscription of that name, zero for an unknown one |
| AlertTable.Table.UpsertAlert | internal/store/alerts.go:150-208 | the upsert in place: insert, or new time with the acknowledgement cleared, or refusal |
| AlertTable.Table.ReconcileAlert | internal/store/alerts.go:89-143 | the reconcile in place: insert, or new time with the acknowledgement kept, or refusal |
| AlertTable.Table.ResolveAlert | internal/store/alerts.go:259-312 | one transaction over the keys in order, rolled back when a rewritten key is taken |
| AlertTable.Table.AckAlert | internal/store/alerts.go:317-342 | the first acknowledgement changes the row, a second does not, an unknown id is an error |
| AlertRuns.RetireMeans | internal/store/alerts.go:266-289 | once a lead is found, every row standing under a later key is retired with its own words and nothing else is touched |
| AlertRuns.ResolveMeans | internal/store/alerts.go:234-312 | field by field: the row of the first standing key takes the resolution's tier, kind, subject, message and times, acknowledged, under key + ":closed:" + id; every other row standing under a named key is closed with its own words; no other row changes; the answer is the first one's id, or zero exactly when nothing named was standing |
| AlertRuns.NothingNamedStands | internal/store/alerts.go:259-312 | after a condition is resolved none of the keys it names is standing |
| AlertRuns.ApplyIsSafe | internal/store/alerts.go:89-342 | no operation breaks key uniqueness, loses a row, or changes an id or a creation time |
| AlertRuns.RunIsSafe | internal/store/alerts.go:89-342 | the same over any sequence of operations |
| AlertRuns.ClosedByOne | internal/store/alerts.go:299-304 | a key ends in ":closed:id" for one id at most |
| AlertRuns.DecimalReadsBack | internal/store/alerts.go:299-304 | the id written into a closed key reads back as that id |
| AlertRuns.ResolutionsAlwaysSucceed | internal/store/alerts.go:259-312 | as long as nothing is raised under a key of the closed form, no resolution with a key ever fails |
| AlertRuns.CollisionStopsResolution | internal/store/alerts.go:299-308 | a resolution of a single key fails, and changes nothing, if and only if another row already has its closed form |
| AlertCollisions.ResolutionFailsIff | internal/store/alerts.go:259-312 | a resolution of any keys fails, and changes nothing, if and only if some named row is standing and a row to be retired, or the one to be turned over, would take a key that another row has by then |
| AlertCollisions.RetiringFailsIff | internal/store/alerts.go:266-289 | retiring the later keys fails if and only if one of their rows is so blocked |
| AlertRuns.ApplyRefines | internal/store/alerts.go:89-342 | one operation moves each plain key by its own machine: absent, open or acknowledged, with a tier |
| AlertRuns.RunRefines | internal/store/alerts.go:89-342 | so does any sequence of operations |
| AlertRuns.NotifiesExactlyWhenNews | internal/store/alerts.go:56-75 | an upsert notifies exactly when the key is absent or acknowledged, a reconcile exactly when absent, and a reconcile never clears an acknowledgement |
| AlertRuns.RaisingKeepsTheRecord | internal/store/alerts.go:161-202 | raising again moves times only; the first words and creation time stay, and a row is added exactly when the key was absent |
| AlertRuns.RaiseIsRefusedIff | internal/store/alerts.go:89-160 | a raise is refused if and only if it has no key, no known tier or no kind, and then writes nothing |
| AlertRuns.AcknowledgeMeans | internal/store/alerts.go:314-342 | only the first acknowledgement of a row is written, at its time and nowhere else; first, repeated and unknown are told apart |
| Announcer.Alerter.PutCandidate | internal/alert/alerter.go:241-323 | the announce rule in place: table first, then the event, then the send queue |
| Announcer.Alerter.Enqueue | internal/alert/alerter.go:385-395 | queued only when there is a route and room for it |
| Announcer.NothingStandingIsFree | internal/alert/alerter.go:276-281 | an only-if-standing resolution with nothing standing leaves rows, events and queue unchanged |
| Announcer.DeclaringHealthIsFree | internal/alert/alerter.go:268-294 | any number of such resolutions, at any times and over any table, has the effect of the first |
| Announcer.RaiseIsToldExactlyWhenNews | internal/alert/alerter.go:296-322 | a raise is published, and queued if it can be, exactly when its key is absent or acknowledged; a reconciling one exactly when absent |
| Announcer.ResolutionIsToldOnce | internal/alert/alerter.go:268-293 | a resolution that closes something is published once, under the id of the first row it closed and in its own words, and queued if there is a route and room |
| Announcer.RaiseAfterResolutionIsToldIff | internal/alert/alerter.go:263-322 | a raise straight after a resolution of its key is announced if and only if the resolution closed something or was only-if-standing, and no unacknowledged resolved row holds the key |
| Announcer.MutedForGood | internal/alert/alerter.go:296-312 | under such a row no number of raises is ever announced |
| Announcer.PutKeepsRecorded | internal/alert/alerter.go:253-257 | everything ever published is of a row the table holds |
| Announcer.PutKeepsKept | internal/alert/alerter.go:241-323 | a candidate under a plain key leaves the table one on which resolutions cannot collide |
| Announcer.DeskStaysSound | internal/alert/alerter.go:241-323 | so do any candidates under plain keys, from an empty table on |
| BranchCheck.BranchSampleHeights | internal/chainview/verify.go:168-187 | the candidate heights within range, each once, in the order given |
| BranchCheck.VerifySharedHistory | internal/chainview/verify.go:239-271 | the loop counts agreeing heights above genesis and stops at the first disagreement or read error |
| BranchCheck.VerifyBranch | internal/chainview/verify.go:213-229 | both halves of the check, in order |
| BranchCheck.ComparisonEnds | internal/chainview/verify.go:239-271 | whatever the views answer, the comparison ends at the first sample that could not be read or differs, with that reason, and otherwise counts the heights above genesis that agreed |
| BranchCheck.UnreadSampleFails | internal/chainview/verify.go:243-258 | a sample that could not be read where it matters fails the check, whatever else agrees |
| BranchCheck.VerdictAfterSamples | internal/chainview/verify.go:213-302 | when the samples pass, the verdict for every answer just above the separation, and for nothing compared |
| BranchCheck.SamplingReachesHalf | internal/chainview/verify.go:160-187 | while a view is short of the anchor but past an eighth of it, a pass means agreement up to half of what both reach |
| BranchCheck.SamplingReachesLast | internal/chainview/verify.go:168-187 | with only the last block missing, agreement all the way |
| BranchCheck.SamplingReachesThousand | internal/chainview/verify.go:168-187 | agreement up to a thousand as soon as both reach that |
| BranchCheck.SomethingIsCompared | internal/chainview/verify.go:196-206 | the check is never called impossible once both views hold a block above genesis |
| BranchCheck.SilenceIsNotSuccess | internal/chainview/verify.go:207-229 | with no fork, success is never returned without an agreeing comparison above genesis, whatever the views answer |
| BranchCheck.PassesIffSamplesAgree | internal/chainview/verify.go:239-271 | without read errors and with no fork, the check passes exactly when something above genesis can be compared and every sample both reach agrees; then all heights below agree too |
| BranchCheck.SamplingIsComplete | internal/chainview/verify.go:168-271 | with both views at or past the anchor, the check passes if and only if the chains agree at every height up to it |
| BranchCheck.PassingMeansSeparate | internal/chainview/verify.go:273-297 | with a fork, the check passes exactly when the samples agree and the chains differ just above the fork; then they differ at every height above it that both reach |
| BranchCheck.TrueForkPassesIff | internal/chainview/verify.go:189-206 | against the true separation point, at or above the anchor, the check passes exactly when both chains have a block of their own |
| Countdowns.Engine.Advance | internal/deadline/deadline.go:350-393 | the loop moves every running row by its own rule, soonest first |
| Countdowns.Engine.EscalateTo | internal/deadline/deadline.go:396-424 | the stored tier only moves forward, and the tier is announced |
| Countdowns.Engine.Expire | internal/deadline/deadline.go:427-468 | the row expires, and a loss is announced unless the commitment was our own |
| Countdowns.Engine.OnBranchExtended | internal/deadline/deadline.go:333-347 | a new tip, then the advance |
| Countdowns.Engine.OnJustice | internal/deadline/deadline.go:493-532 | the loop resolves every running clock of the close that was answered |
| Countdowns.Engine.SettleBySweep | internal/deadline/deadline.go:552-590 | the loop ends the close's own clock, by whose commitment it was |
| Countdowns.Engine.OnFundingSpent | internal/deadline/deadline.go:190-249 | every clock worked out is recorded, and announced when the recording changed something |
| Countdowns.Engine.OnChannelUpserted | internal/deadline/deadline.go:298-322 | recomputed clocks are recorded and announced to nobody |
| Countdowns.Engine.UpsertDeadline | internal/store/deadlines.go:92-162 | keyed on spend and kind: a new row, or a new height and flag with state and tier left alone |
| Countdowns.RunningLists | internal/store/deadlines.go:164-204 | the listing names every running clock once and no other |
| CountdownRuns.RunningIsSoonestFirst | internal/store/deadlines.go:164-204 | the listing is by height, then by age |
| CountdownRuns.MovedRow | internal/deadline/deadline.go:350-393 | a pass over the table does to each row what its own rule says, and announces just that of it |
| CountdownRuns.OutcomesAreFinal | internal/deadline/deadline.go:427-490 | over any run no row is lost, and a deadline that stopped counting keeps its outcome |
| CountdownRuns.LossAtMostOnce | internal/deadline/deadline.go:427-468 | over any run a loss is announced at most once for a deadline, and only for one that expired |
| CountdownRuns.OursIsNeverALoss | internal/deadline/deadline.go:435-447 | over any run no loss is announced for our own commitment |
| CountdownRuns.ReachedIsSettled | internal/deadline/deadline.go:382-386 | after an advance to or past its height, a deadline whose close is on the chain is no longer counting, and below it nothing has expired |
| CountdownRuns.LevelInBlocks | internal/deadline/compute.go:201-220 | the tier in whole blocks: under a fifth of the window, under a half, or neither |
| CountdownRuns.TierIsOfTheHighestTip | internal/deadline/deadline.go:350-424 | a steady counting deadline has the tier of the highest tip seen, in whatever order the tips came |
| CountdownRuns.TierIsOfTheBlocksLeft | internal/deadline/compute.go:187-220 | for one started at the first tier that is `Level(Remaining(height, highest tip), window)` |
| CountdownRuns.AnnouncedTiersRise | internal/deadline/deadline.go:389-391 | unless a deadline is started again its announced tiers strictly rise, whatever else happens |
| CountdownRuns.AnswerSettlesTheClose | internal/deadline/deadline.go:517-530 | an answer resolves every running clock of its close and nothing else |
| CountdownRuns.SweepSettlesItsOwnClock | internal/deadline/deadline.go:534-590 | a sweep ends the close's own clock only, as collected if ours and as a loss otherwise |
| CountdownRuns.ReorgedCloseOnlyRetires | internal/deadline/deadline.go:373-380 | while its close is off the chain a clock only waits, and is retired after a hundred blocks |
| CountdownRuns.UpsertKeepsOneEach | internal/store/deadlines.go:82-86 | a recording never makes a second clock for a spend and a kind |
| CountdownRuns.RunKeepsOneEach | internal/store/deadlines.go:82-86 | nor does any run of events |
| CountdownFigures.RecordingMeans | internal/store/deadlines.go:92-162 | after a recording the one clock of that close and kind shows the recorded height and flag; new and counting at the first tier if there was none, otherwise with state, tier and answer as before; the result names it exactly when it is new or a figure changed |
| CountdownFigures.StartIsToldIff | internal/deadline/deadline.go:219-249 | starting a clock announces it, at the first tier with the blocks left, if and only if the recording changed something |
| CountdownFigures.LastFiguresStand | internal/deadline/deadline.go:263-322 | after any run, the clocks of a close show the last figures given for each kind, whether improved or confirmed, and improving tells nobody |
| CountdownFigures.BlockMeans | internal/deadline/deadline.go:350-490 | everything a new block does to a counting clock and all that is announced of it, in blocks |
| CountdownFigures.BlockLeavesAlone | internal/deadline/deadline.go:350-370 | a stopped clock, or one whose close is unknown, is left alone |
| CountdownFigures.SweepMeans | internal/deadline/deadline.go:552-590 | a sweep of the close's own clock in full, with the channel the loss is announced to |
| CountdownFigures.NoCloseMovesNothing | internal/deadline/deadline.go:493-590 | an answer or a sweep of no known close moves nothing |
| Logins.Authenticator.Prune | internal/api/auth.go:326-333 | filtering within the same array keeps exactly the attempts after the cutoff |
| Logins.Authenticator.RateLimited | internal/api/auth.go:317-340 | refuses while locked or with five recent attempts, otherwise records the attempt |
| Logins.Authenticator.RecordFailure | internal/api/auth.go:343-359 | counts the failure, sets the lock, and says whether to alert |
| Logins.Authenticator.NewSession | internal/api/auth.go:258-275 | a sign-in forgets the failures and lifts no lock |
| Logins.NoMinuteAdmitsMoreThanFive | internal/api/auth.go:317-340 | in any run with a clock that never goes back, every window of a minute admits at most five attempts |
| Logins.AdmittedExactlyWhenAllowed | internal/api/auth.go:317-340 | in any run an attempt is admitted if and only if no lock stands and fewer than five were admitted in the minute before |
| Logins.WaitingIsEnough | internal/api/auth.go:335-337 | whoever is refused for too many attempts and waits as told is admitted, if nothing happens meanwhile |
| Logins.BackoffGrows | internal/api/auth.go:348-353 | the back-off never falls as failures go on and never exceeds fifteen minutes |
| Logins.BackoffReachesTheCap | internal/api/auth.go:350-352 | it is at the cap exactly from the fifteenth failure |
| Logins.BackoffDoubles | internal/api/auth.go:348-353 | two seconds after the sixth failure, doubled by each up to the fourteenth, then fifteen minutes |
| Logins.FailureMeans | internal/api/auth.go:343-353 | a failure counts and, from the sixth on, locks for its back-off; it takes back neither attempts nor lock, and a sign-in zeroes the count alone |
| Logins.LockSaysHowLong | internal/api/auth.go:321-324 | whoever meets the lock is told how long it stands, and leaves no trace |
| Logins.AttemptRemembersTheMinute | internal/api/auth.go:326-339 | unless locked, an attempt leaves remembered exactly those of the last minute, and itself if admitted |
| Logins.NoneAdmittedDuringBackoff | internal/api/auth.go:321-324 | after a locking failure, and until a sign-in, no attempt is admitted before its back-off is over, whatever arrives meanwhile |
| Logins.BurstIsHeardIff | internal/api/auth.go:355-358 | a failure since a sign-in is alerted if and only if it is past the tenth, or is the tenth and the last alerted count was not ten |
| Logins.SecondBurstGoesUnheard | internal/api/auth.go:355-358 | two bursts of exactly ten failures with a sign-in between them are alerted once |

## Left out

- Compute: the heights of new clocks come in as values; which delay applies to which commitment is one branch.
- Countdowns.Engine.OnChannelUpserted: takes the recomputed clocks of one close as given, because selecting the closes of a channel only decides how often it is called.
- Countdowns.Engine.EscalateTo: does not model the wall-clock estimate in the announcement, which is formatted text.
- Countdowns.Engine.Expire: does not model the amount named in a loss, which is read from the channel record.
- Earliest: one pass for the least height, used for display.
- FetchModel.Loop: does not model the stall watchdog and the pauses between attempts; they only decide which error a reply stands for and when the caller gives up.
- Fetcher.CopyWatched: a write is all or nothing, because a short write is reported as an error and the file's length then depends on the system.
- Failures of the operating system to stat, seek, truncate or read the staged file end a run early with an error and are not modelled.
- EventBus.EveryRunKeepsInv: does not model the scheduler's fairness or a consumer that never runs; it is about every finite run.
- Logging in the bus, the engine and the alerter, and the names in it.
- AlertTable.Table.ResolveAlert: a database error other than a taken key is not modelled; it rolls back like one.
- Announcer.Alerter.PutCandidate: does not model the write deadline; escalation, delivery and the transports come after the queue.
- Restarts.Sentinel.LoadState: a database that cannot be read or written is not modelled, nor are the branch-identity verdict and the 32-bit range checks restored beside the state.
- The polling loop that builds observations, and the re-verification schedule around it.
- BranchCheck.VerifyBranch: does not model the wording of errors, nor the network and identity checks beside it, which are independent single comparisons.
- 32-bit overflow of heights, rounding of floating-point intervals and fractions, and the inside of SHA-256.
- HTTP, RPC, ZMQ, SOCKS and mail transports, SQL text, the registry, configuration, the web interface and packaging.
- Sessions, origin checks and password hashing beside the sign-in limiter.
