# Verification of the Morpheus Uplink session core

Uplink sits between API clients and one Morpheus router. It keeps at most one reusable on-chain session per model,
hands it out under counted leases, and spends stake only through one wallet. This project models that core in Dafny and
proves what its code and documentation promise of it, for every input, every run and every answer of the router.

`dafny verify dfyconfig.toml` checks everything.

## How it is modelled

Shared state that the program changes under a mutex is a class here, with the same maps and counters as fields. Each
method is one critical section, so any interleaving of requests, scans, sweeps, closes and failovers is a sequence of
these calls. A method's contract ties the new state to a step of a state machine on plain values (`Step`); the lemmas
are about runs of those steps. What the router, the health feed, the clock, the caller's cancellation or a save answers
is an argument or an arbitrary value, so every outcome is covered; where it comes in call by call it is a function of the
call's number (`OpenWalk.World`, `Reconcile.Turns`, `Gate.Tries`). Loops of the source are loops here. Beside the step a
method takes, its contract says the answer and the fields it changes from the old fields and the arguments alone.

| module | what it is |
|---|---|
| `Slot` | the wallet slot: a queueing mutex with cancel, time-out and direct hand-off |
| `Sessions` | listed sessions, and which of several is kept |
| `Leases`, `LeaseLaws` | in-flight counts, holders, retiring and closing, over every run, and what a release and the idle sweep may take away |
| `Pools`, `Scan` | the session pool's methods: leases, closes, open attempts, and the scan of the wallet's session list |
| `Sweep`, `ScanLaws` | what one scan must do, said without its loops, and what that implies |
| `OpenErrors`, `OpenWalk`, `OpenLaws` | error classes, back-off, and the walk of one open operation |
| `Failover` | candidate filtering, cool-downs, the retired record, and one failover |
| `Reconcile`, `Gate` | the boot plan, its closes, and the gate opens wait for |
| `Stake`, `MorLimit` | the stake formula, the cap's text, the hourly conversion, and the amount a refusal shows |
| `Relay` | the event stream relay |
| `Aggregator` | the audit aggregator |
| `Catalog` | listed prices and shared names |
| `Lockout` | sign-in lockout |
| `NodePath` | path normalization and the deny rules |
| `SecondFactor` | the second-factor check and its committed state |
| `Basics` | optional values, time, string order, small sequence facts |

Ids, models, bids and providers are strings already in normal form (trimmed, one case): the source keys closing marks by
lower-case id and lease states by raw id, which agree only then. Times are whole nanoseconds. Three facts about the
outside are assumed where a contract says so: a session list names each id once, the router tells one model for each
session, and clocks do not go back.

## What the proofs found

- Three hand-outs do not read closing marks: a failover's, an own open's and that of a session the router named. Exactly
  when a step hands out a marked or a retired session is in `Leases.HandsOutExactly`. `Leases.FailoverMayHandOutMarked`
  is a run after which a failover hands out a session whose close is in progress, while an ordinary request is refused
  it; `Leases.OpensMayHandOutMarked` is one for the other two.
- A session the router named when it refused an open can be retired before it is pooled, and is then leased
  nevertheless: `Leases.NamedMayBeRetired`. Only that hand-out gives a retired session, and none gives a closing one.
- The source says that a failed-over session is not adopted back. A scan tests pending attempts before the failover
  memory, so it can be, and so can a known extra or a session of an excluded provider: exactly when it comes out as the
  result of one of our own opens, its model has no slot in use, and no other such result of the model is preferred to it
  (`ScanLaws.BarredIsAdoptedExactly`). Where attempts go round, which is explained next, that can be read before the
  scan: it is free and usable, matches a pending attempt, and so on (`ScanLaws.BarredIsPutBackWhen`). A retired one stays
  retired in its slot, so no request is served from it: `ScanLaws.RetiredMayBeAdopted`.
- The order of the session list can matter when opens are pending (`ScanLaws.OrderMattersToAttempts`). It does not where
  attempts go round: each free listed session matches more of them than it has rivals (`ScanLaws.VerdictsIgnoreOrder`).
  So never with no open pending, nor with attempts no two sessions contest. It does where a session has as many rivals
  that match nothing else as it has attempts (`ScanLaws.RivalryShows`), so among sessions that match alike the condition
  is exact (`ScanLaws.OrderMattersIfShort`). Between the two, where attempts overlap only in part, it stays open.
- A duplicate may be closed in favour of a slot that the same scan then drops: `ScanLaws.DuplicateMayLeaveNone` is such a
  scan; exactly when is in `ScanLaws.DuplicateLeavesASlot`.
- A line of an event stream that fits what the relay keeps is always looked at, one longer by a read or more never
  (`Relay.ReadsDoNotMatter`). In between how the upstream cuts its bytes decides (`Relay.CutsMatterBetween`): a provider
  error of such a length is replaced in one cut and goes through in another (`Relay.LongErrorMayGoThrough`).
- A session's in-flight count equals its live leases from when a lease state of it began with none until that state is
  dropped or begun anew with a lease live (`Leases.CountOfOneIsExact`, `Leases.CountIsLostWhen`); after that it can fall
  short (`Leases.CountMayFallShort`). At most the live leases it is always (`Leases.InFlightIsBacked`).
- The lockout map grows at its bound exactly while every entry is locked (`Lockout.GrowsOnlyWhenLocked`), and then without
  bound: for every n there is a run that leaves n entries (`Lockout.MapMayPassItsBound`).

## Model

| member | source | states |
|---|---|---|
| `Slot.WalletSlot.GrantLocked` | internal/pool/slot.go:93-107 | a grant makes the next token the holder and counts the hold |
| `Slot.WalletSlot.TryAcquire` | internal/pool/slot.go:111-118 | takes the slot only when it is free and nobody queues |
| `Slot.WalletSlot.Acquire` | internal/pool/slot.go:123-147 | grants a free slot at once; on one that is not idle refuses a caller exactly when two waiters of its key queue, else queues it at the back |
| `Slot.WalletSlot.Receive` | internal/pool/slot.go:152-154 | a waiter takes the token from its channel |
| `Slot.WalletSlot.Leave` | internal/pool/slot.go:155-171 | a waiter whose context or timer ended leaves the queue, or is given the token that raced it to pass on |
| `Slot.WalletSlot.FinishRelease` | internal/pool/slot.go:175-200 | ends the hold if the token still holds, and hands the slot to the head waiter |
| `Slot.WalletSlot.Release` | internal/pool/slot.go:175-200 | a second release of a token changes nothing |
| `Slot.WalletSlot.Holds` | internal/pool/slot.go:203-210 | true just for the current, unreleased holder |
| `Slot.RunKeepsInv` | internal/pool/slot.go:93-200 | over every interleaving: token states, queue order, at most two waiters per non-empty key, every waiter in exactly one place |
| `Slot.MutualExclusion` | internal/pool/slot.go:93-107 | in every run two tokens whose release has not finished are the same token, and it is the holder |
| `Slot.NoIdleWait` | internal/pool/slot.go:123-200 | nobody queues for a free slot, and a held slot is in exactly one hand, whether anybody queues or not |
| `Slot.FirstComeFirstServed` | internal/pool/slot.go:123-200 | grants follow queue order among waiters that did not leave |
| `Slot.OldReleaseIsHarmless` | internal/pool/slot.go:175-200 | releasing an old token never ends another hold |
| `Slot.RacingHandOffIsPassedOn` | internal/pool/slot.go:160-167 | a hand-off that races a cancel reaches the next waiter or frees the slot, whatever others do before the waiter's release ends |
| `Slot.SecondIsServed` | internal/pool/slot.go:123-200 | a run in which a caller queues behind a holder and is handed the slot when that one releases it |
| `Sessions.PickOne` | internal/pool/sweep.go:135-154 | the session kept is in the list and none is kept over it |
| `Sessions.BestOutlasts` | internal/pool/sweep.go:133-154 | no other session ends later than the one kept, none that ends with it opened later, and so on to the id |
| `Sessions.BeatsIsStrictTotalOrder` | internal/pool/sweep.go:133-154 | latest end, then latest open, then lowest id is a strict total order on different ids |
| `Sessions.BestIgnoresOrder` | internal/pool/sweep.go:135-154 | the choice does not depend on the list's order |
| `Leases.StepKeepsInv` | internal/pool/lease.go:108-245 | every step keeps: in-flight at most the live leases, closing implies nothing in flight, slots hold sessions of their model |
| `Leases.InFlightIsBacked` | internal/pool/lease.go:153-190 | in every run in-flight is at most the leases not yet Done, double Done included, and closing implies in-flight 0 |
| `Leases.CountIsExact` | internal/pool/lease.go:120-190 | over all sessions: while no state with live leases is dropped or replaced every count is exact, and no live lease is on a closing session |
| `Leases.CountOfOneIsExact` | internal/pool/lease.go:120-190 | in every run a session's count is exact from when a lease state of it began with no live lease |
| `Leases.CountIsLostWhen` | internal/pool/lease.go:120-141 | it stops being exact just when that state is dropped, or begun anew with a lease live |
| `Leases.CountMayFallShort` | internal/pool/lease.go:364-375 | a run after which a session opened twice has two live leases and the count 1 |
| `Leases.LeadsKeeps` | internal/pool/sweep.go:333-567 | what a scan, a pick of the sweep or a boot plan does keeps the invariant, and where every count is exact keeps them so |
| `Leases.ComesKeepsInv` | internal/pool/failover.go:900-1001 | what a failover, a close or a boot pass does keeps the invariant |
| `Leases.ClosesOnlyUnheld` | internal/pool/lease.go:474-587 | a session starts closing only by the idle sweep or a failover, with nothing in flight, the sweep never on a marked one |
| `LeaseLaws.ReleaseIs` | internal/pool/lease.go:430-462 | shared just when another holder is left, in_flight when none is and requests run, closing when neither; only then is the session retired and taken out of its slot, else nothing but the key goes |
| `LeaseLaws.LeavesUseOnlyBy` | internal/pool/lease.go:412-597 | a session in use goes out of use exactly by the sweep's close, begun or failed, a failover, the loss of its state, or a release by its last holder with nothing in flight |
| `LeaseLaws.HolderKeepsItsSession` | internal/pool/lease.go:412-462 | whatever other keys release, the pooled session a key holds stays in use, in its slot and held |
| `LeaseLaws.GranteeHolds` | internal/pool/lease.go:177-190 | a key that is granted a lease holds the session from then |
| `LeaseLaws.HolderStays` | internal/pool/lease.go:120-190 | and holds it until it releases it or the session's state is lost or begun anew |
| `LeaseLaws.RetiredStays` | internal/pool/lease.go:555-625 | a retired session stays retired, since the same time; a close under way ends only by a failure, which is counted once |
| `LeaseLaws.IdleSweepWaits` | internal/pool/lease.go:474-500 | in every run the idle sweep closes a session not retired only when no lease on it began or ended for the whole grace |
| `Leases.HandsOutServingOnly` | internal/pool/lease.go:200-245 | from the pool: unexpired, not retired, not closing and, failover apart, unmarked; an open hands out its own new state; a named session is not closing |
| `Leases.HandsOutExactly` | internal/pool/lease.go:200-385 | read before the step: exactly which steps hand out which session, which of those a marked one, which a retired one; none a closing one |
| `Leases.FailoverMayHandOutMarked` | internal/pool/failover.go:917-928 | a run in which a failover leases a session whose close is in progress; the exact condition is in HandsOutExactly |
| `Leases.OpensMayHandOutMarked` | internal/pool/lease.go:364-385 | a run after which a session with a close in progress is handed out when pooled as opened here, or as named |
| `Leases.NothingUnfilled` | internal/pool/lease.go:231-245 | without an open that was sent, a scan's adoption or the boot plan's no slot is filled and no session handed out |
| `Leases.NamedMayBeRetired` | internal/pool/failover.go:713-737 | a run in which a session the router named is leased although retired meanwhile; the exact condition is in HandsOutExactly |
| `Pools.Pool.NewStateLocked` | internal/pool/lease.go:120-125 | a new lease state replaces whatever the id had |
| `Pools.Pool.TryPooledLocked` | internal/pool/lease.go:231-245 | leases the model's slot exactly when it is fresh, unmarked and serving |
| `Pools.Pool.LeaseSession` | internal/pool/lease.go:200-214 | leases a known session from an unexpired slot; none exactly when no such slot may serve it |
| `Pools.Pool.DoneLease` | internal/pool/lease.go:153-174 | ends a lease once; asks for a sweep exactly when the session became closable |
| `Pools.Pool.HeldSession` | internal/pool/lease.go:412-440 | the pooled session if the key holds it, else the lowest of the model it holds, none exactly when it holds neither |
| `Pools.Pool.Release` | internal/pool/lease.go:412-462 | the pooled session if the key holds it, else the lowest it holds; not_held exactly when there is none; closing, in_flight and shared by who is left, and what then becomes of slot and state |
| `Pools.Pool.CutCloseMarkLocked` | internal/pool/sweep.go:171-183 | true exactly when a cut close has not cleared; only lapsed marks go, and nothing else changes |
| `Pools.Pool.SweepPick` | internal/pool/lease.go:477-500 | the lowest closable session, none while a cut close is pending |
| `Pools.Pool.BeginSweepClose` | internal/pool/lease.go:530-543 | with the slot held the pick is made again before it is marked closing |
| `Pools.Pool.SweepCloseFailed` | internal/pool/lease.go:555-561 | a failed close leaves the session retired, to be retried |
| `Pools.Pool.RetireForFailover` | internal/pool/lease.go:571-587 | the slot is emptied, and the session may be closed now exactly when nothing is in flight and it is not closing |
| `Pools.Pool.FailoverCloseFailed` | internal/pool/lease.go:590-597 | a failover's failed close is put back to retired |
| `Pools.Pool.ReuseReplacement` | internal/pool/failover.go:915-929 | a request that finds another unexpired session in the slot uses that one |
| `Pools.Pool.PoolOpened` | internal/pool/lease.go:364-375 | a session opened here is pooled with a new state and leased in one section |
| `Pools.Pool.AdoptNamed` | internal/pool/lease.go:378-385 | a named session is pooled, an existing state kept |
| `Pools.Pool.Invalidate` | internal/pool/pool.go:263-271 | drops the slot and its lease state |
| `Pools.Pool.Forget` | internal/pool/lease.go:130-141 | a closed session leaves no state and no slot |
| `Pools.Pool.AddAttempt` | internal/pool/sweep.go:63-76 | attempts are pruned first and never exceed their bound |
| `Pools.Pool.MatchOpen` | internal/pool/failover.go:740-764 | no session the attempt can have opened outlasts the one chosen; the others become known extras |
| `Pools.Pool.Adoptable` | internal/pool/failover.go:713-737 | a named session is taken over exactly under these conditions, and resolves the attempt it matches |
| `Scan.Classify` | internal/pool/sweep.go:390-447 | the first pass gives each session its class and sorts the sessions into piles; what the classes come to is in VerdictIs |
| `Pools.Pool.SettleOwns` | internal/pool/sweep.go:457-478 | our own opens settled model by model, in any order |
| `Pools.Pool.SettleSpares` | internal/pool/sweep.go:479-497 | the spare sessions settled model by model, in any order |
| `Sweep.AllSettled` | internal/pool/sweep.go:457-497 | whatever order the two loops take the models in, slots, states, extras, adoptions and due closes are the same |
| `Pools.Pool.EndCutMarks` | internal/pool/sweep.go:353-364 | cut closes off the list or lapsed lose their marks |
| `Pools.Pool.DropSlots` | internal/pool/sweep.go:508-525 | drops exactly the slots off the list, with nothing in flight, not opened around the scan |
| `Pools.Pool.PickDue` | internal/pool/sweep.go:533-561 | notes since when each session is due; marks the one due longest unless a cut close is pending |
| `Pools.Pool.Digest` | internal/pool/sweep.go:365-531 | attempts, adoptions, what is due, slots and known extras after the list was read |
| `Pools.Pool.ApplyScan` | internal/pool/sweep.go:333-567 | one scan: attempts, slots, states, known extras, marks and the close are those of the verdicts, and it is a run of lease steps |
| `ScanLaws.DueIsSafeToClose` | internal/pool/sweep.go:397-497 | what is due is listed, not adopted, unmarked, has nothing in flight, and is expired, an own extra or not young |
| `ScanLaws.VerdictIs` | internal/pool/sweep.go:390-497 | each listed session's verdict from the session, marks, slots, lease states and attempts alone: closing, held, expired, young, retired, excluded, extra or adoptable, each exactly when |
| `ScanLaws.ExpiredIsDue` | internal/pool/sweep.go:428-429 | every free unmarked session past its use is due as expired, whatever else is known of it |
| `ScanLaws.ExtraIsRemembered` | internal/pool/sweep.go:457-531 | a result of our own opens that is not adopted is a known extra from then on |
| `ScanLaws.FirstDueIsOldest` | internal/pool/sweep.go:533-561 | the close picked has been due no later than any other, the lowest id first; a session keeps the time it became due |
| `ScanLaws.AdoptsTheBest` | internal/pool/sweep.go:448-497 | at most one adoption per model, the best of the preferred class, only where no slot was usable |
| `ScanLaws.EveryModelIsServed` | internal/pool/sweep.go:457-497 | a model with an adoptable session keeps its slot or adopts |
| `ScanLaws.DuplicateLeavesASlot` | internal/pool/sweep.go:457-525 | a duplicate is closed for another session in the slot, which stays unless the drop rule takes it |
| `ScanLaws.DuplicateMayLeaveNone` | internal/pool/sweep.go:479-525 | a scan that closes a session as a duplicate of a slot and drops that slot |
| `ScanLaws.UsableSlotStays` | internal/pool/sweep.go:379-388 | a usable slot is never replaced |
| `ScanLaws.UsableSlotServes` | internal/pool/sweep.go:379-388 | a scan leaves a slot for a usable one exactly when a request would be served from it |
| `ScanLaws.BarredIsAdoptedOnlyIfOurs` | internal/pool/sweep.go:408-446 | necessary: retired, excluded, known-extra, young or tracked sessions are adopted only as results of our own opens |
| `ScanLaws.BarredIsAdoptedExactly` | internal/pool/sweep.go:379-497 | such a session is adopted if and only if it is classed an own result, its model has no usable slot and no other own result of the model beats it |
| `ScanLaws.BarredIsPutBackWhen` | internal/pool/sweep.go:379-497 | the same read before the scan, where attempts go round: free, usable and matching, no usable slot, not beaten by another such session |
| `ScanLaws.RetiredMayBeAdopted` | internal/pool/sweep.go:408-422 | a retired session that matches an attempt is adopted; its state stays retired, so its slot serves no request |
| `ScanLaws.AttemptsAreUsedOnce` | internal/pool/sweep.go:79-92 | each attempt that goes accounts for exactly one session |
| `ScanLaws.PrunedInTime` | internal/pool/sweep.go:44-103 | which sessions an attempt can have opened: from 30 s before it to 30 s after it is given up; what is pruned can have opened none from then on, what is kept any |
| `ScanLaws.NoResultIsMissed` | internal/pool/sweep.go:408-421 | no session that matches an attempt left pending is used otherwise |
| `ScanLaws.VerdictsIgnoreOrder` | internal/pool/sweep.go:333-497 | where each free session matches more attempts than it has rivals, permuting the list changes no class and no verdict |
| `ScanLaws.UncontestedIsEnough` | internal/pool/sweep.go:408-421 | that is so when no attempt matches two free listed sessions |
| `ScanLaws.LeftIgnoresOrder` | internal/pool/sweep.go:79-92 | then also the same attempts stay pending, whatever the order |
| `ScanLaws.RivalryShows` | internal/pool/sweep.go:408-421 | a free session with no more attempts than rivals that match nothing else: two orders of the list differ in a class |
| `ScanLaws.OrderMattersIfShort` | internal/pool/sweep.go:390-447 | a sufficient and a necessary condition for classes to ignore the order, which are one where sessions sharing an attempt match the same ones |
| `ScanLaws.OrderMattersToAttempts` | internal/pool/sweep.go:408-433 | with one pending, the first listed match is adopted and the other left young |
| `ScanLaws.CutCloseHolds` | internal/pool/sweep.go:353-402 | a session is left as closing exactly while its mark stands |
| `Pools.Pool.FinishClose` | internal/pool/sweep.go:675-736 | ok, already closed, refused and cut closes each leave the marks, due times and states they should |
| `OpenErrors.OpenStageIsNotPreSend` | internal/pool/transient.go:107-144 | errors of the sending stage match no earlier stage's prefix |
| `OpenErrors.NotSentNeedsProof` | internal/pool/transient.go:217-270 | once sending began an open counts as not sent only early, with the window unspent |
| `OpenErrors.ClassNeeds` | internal/pool/transient.go:217-270 | each class by the router's text: provider fault exactly with a provider-stage text, the others only by a prefix of an earlier stage or an early one of the sending stage, with or without a funding marker; all else is maybe-sent |
| `OpenErrors.LessProofIsSafer` | internal/pool/transient.go:225-270 | less proof only ever turns a class into maybe-sent |
| `OpenErrors.ChainWaitIsNotPreSend` | internal/pool/transient.go:331-363 | an open waiting on the chain is never retried as not sent |
| `OpenErrors.ChainWaitIs` | internal/pool/transient.go:331-363 | a chain wait exactly when the sending stage names a pending or unmined transaction, and which of the two |
| `OpenErrors.BackoffStep` | internal/pool/transient.go:301-310 | the base doubled n times, at most the cap |
| `OpenErrors.ClampTransient` | internal/pool/transient.go:383-392 | whole seconds up, within 1 to 4 |
| `OpenErrors.ClampRetryAfter` | internal/pool/failover.go:846-858 | whole seconds up, within 1 to 600 |
| `OpenWalk.OpenOp.Backoff` | internal/pool/failover.go:443-458 | a retry needs the operator's RPC, a retry, budget and deadline left, and waits half its step at least; refused only for want of one of these or because the caller left |
| `OpenWalk.OpenOp.Reconcile` | internal/pool/failover.go:640-672 | found at the first look that finds it; else three looks found nothing, or there was no time left for the next, and the answer is chain-wait or transient |
| `OpenWalk.OpenOp.ReadCandidates` | internal/pool/failover.go:462-489 | read when one read was not rate-limited; asked again at most as often as the shared retries allow, and given up only without any left or when the caller left |
| `OpenWalk.OpenOp.TryBid` | internal/pool/failover.go:560-617 | each answer drops or keeps the attempt, cools the provider or spends the window as its class says; a named session is adopted and one that may have been sent looked for |
| `OpenWalk.OpenOp.WalkBid` | internal/pool/failover.go:551-618 | one bid is POSTed until its answer ends the operation or blames the provider |
| `OpenWalk.OpenOp.OpenExcluding` | internal/pool/failover.go:506-632 | at most three providers and seven POSTs (three without RPC), none after the caller left; exactly the faulted providers cool, exactly the attempts that may still land stay pending; the result fits the last answer, a maybe-sent one was looked for, and it gives up early only for want of time or retries or because the caller left |
| `OpenLaws.OnlyTheLastEnds` | internal/pool/failover.go:551-618 | nothing is POSTed after a maybe-sent, opened, existing or no-funds answer |
| `OpenLaws.RepeatsAreProven` | internal/pool/failover.go:551-618 | a bid is POSTed again only after a text that begins with a stage before the send, or early with one of the sending stage, and another bid only after a provider-stage text |
| `OpenLaws.PendingIsUnsettled` | internal/pool/failover.go:560-617 | an attempt stays pending exactly when its answer settles nothing: maybe-sent, or spent on the window |
| `OpenLaws.WindowIsSpentOnce` | internal/pool/failover.go:580-599 | at most one window retry per operation |
| `OpenLaws.FewStayPending` | internal/pool/failover.go:594-617 | at most two attempts of one operation stay pending |
| `OpenLaws.OneBidPerProvider` | internal/pool/failover.go:528-550 | POSTs of a bid are together and each provider is tried by one bid |
| `OpenLaws.CapIsKept` | internal/pool/failover.go:535-548 | with a cap no unpriced bid and none above the cap is POSTed, in exact arithmetic |
| `OpenLaws.RefusalIsSharp` | internal/pool/failover.go:620-627 | a cap refusal where nothing was POSTed names the least cap that lets a candidate pass |
| `Failover.Failovers.FilterCandidates` | internal/pool/failover.go:331-402 | the candidates, or the refusal whose step left nothing |
| `Failover.CandidatesAreUsable` | internal/pool/failover.go:331-402 | candidates are exactly the rated, healthy, not excluded, not avoided rows |
| `Failover.Failovers.MarkCooling` | internal/pool/failover.go:113-128 | ended cool-downs go, a new one starts unless it is off or the provider unknown |
| `Failover.Failovers.Retire` | internal/pool/failover.go:254-267 | ended records go, the new one lasts past now |
| `Failover.Failovers.RetryAfter` | internal/pool/failover.go:817-842 | the shortest cool-down left of the eligible providers, in whole seconds |
| `Failover.Failovers.CloseFailedSession` | internal/pool/failover.go:1034-1051 | lands exactly when the slot was free and the router closed it or says it is closed; then the session is forgotten, else its closing mark changes at most |
| `Failover.Failovers.FailoverCtx` | internal/pool/failover.go:900-987 | up to the open: it goes by the slot's provider, else by what it was told; without another provider the pool is as it was; the session is retired, closed just when nothing is in flight, and then forgotten or put back with one more failure; all of it is a run of lease steps |
| `Failover.Failovers.OpenAvoidingCooling` | internal/pool/failover.go:774-799 | a plain open walks exactly when a usable bid is rated; the pending cut goes when it got a session, had no bid or ran out of providers, and no other goes |
| `Failover.Failovers.FinishFailoverOpen` | internal/pool/failover.go:1018-1029 | what the open got is pooled and leased in one section, until its own end or a session length from now, nothing otherwise |
| `Failover.Failovers.FailAndReopen` | internal/pool/failover.go:900-1029 | to the end: kept exactly when it was not failed over before and its provider is unknown or no other can take over; one failed over before is opened anew exactly when a usable bid is rated; a lease just when another session in the slot may be leased or the open got one, which then is in the slot and serves; a run of lease steps |
| `Failover.ReopensElsewhere` | internal/pool/failover.go:989-995 | every POST of the reopen, and the session it opened, is of another provider than the one that failed, not excluded |
| `Failover.MovesOnlyToAnother` | internal/pool/failover.go:952-973 | a session is retired only after a usable bid of another provider was read, neither cooling nor just cut |
| `Failover.KeptWithoutAlternate` | internal/pool/failover.go:945-968 | it is kept exactly when no candidate is usable |
| `Failover.FailureDecides` | internal/pool/failover.go:915-987 | reused, opened anew, kept or moved, each exactly when, from the memory and the bids read; and what is remembered of it |
| `Failover.CoolDownHolds` | internal/pool/failover.go:113-128 | in every run a provider that cools is no candidate of its model until its cool-down has passed |
| `Failover.FailedCools` | internal/pool/failover.go:939-950 | from a failover on, the provider that failed cools for the set time |
| `Failover.FaultsCool` | internal/pool/failover.go:586-591 | each provider that faulted in a walk cools from its own fault on |
| `Failover.RetiredUntil` | internal/pool/failover.go:254-267 | a failover's record ends with the session, or a session length from now where that is past |
| `Failover.RecordStays` | internal/pool/failover.go:254-267 | in every run a record stays as it is until then, whatever else is retired |
| `Failover.OneMovePerRecord` | internal/pool/failover.go:931-973 | failovers retire a session once per record, however many requests fail on it |
| `Reconcile.PlanReconcile` | internal/pool/reconcile.go:134-183 | each decision by the session, the exclusions and the sessions that outlast it in its model: a duplicate closed is old, one skipped young |
| `Reconcile.DecisionIs` | internal/pool/reconcile.go:134-183 | adopt, close or skip, and why, each exactly when, without the pass over the list |
| `Reconcile.OneAdoptedPerModel` | internal/pool/reconcile.go:134-183 | a model with a session that may be kept has exactly one adopted, its best |
| `Reconcile.ExtrasAreBeaten` | internal/pool/reconcile.go:167-181 | a duplicate or young skip is beaten by an adopted session of its model |
| `Reconcile.PlanIgnoresOrder` | internal/pool/reconcile.go:134-183 | the decisions do not depend on the list's order |
| `Reconcile.Boot.Plan` | internal/pool/reconcile.go:283-349 | an error or unsafe row changes nothing; else adopts, counting exactly the sessions whose slot was free or ended no later, marks the closes, at most 20, and counts every session |
| `Reconcile.Boot.RunCloses` | internal/pool/reconcile.go:361-402 | closed are exactly the tries that landed; it stops only for a busy slot or a cut close that has not cleared; every close is counted once; what is deferred has no mark left; only sessions it closed lose slot and state; a run of lease steps |
| `Reconcile.Boot.ReconcileOnce` | internal/pool/reconcile.go:283-414 | open = adopted + skipped + closed + failed + deferred, and the pool comes out by lease steps |
| `Reconcile.CapDefersDuplicatesFirst` | internal/pool/reconcile.go:333-338 | the cap defers duplicates before excluded and those before expired |
| `Reconcile.ClosesAreDecided` | internal/pool/reconcile.go:307-338 | the plan would close exactly the listed sessions it decided to close, all but duplicates when late |
| `Gate.NoOpenBeforeAList` | internal/pool/lease.go:264-316 | once gated no open is sent before a whole list was read, a failover's included; a time-out alone never allows it |
| `Gate.OpenGate.MayOpen` | internal/pool/lease.go:305-316 | an open whose scan failed is refused while the session state is unknown |
| `Gate.OpenGate.Startup` | internal/pool/reconcile.go:432-517 | it tries until a list can be used, the tries are over or it is told to stop; the gate opens in the end, but only a list makes the state known |
| `Stake.CeilIsLeast` | internal/router/stake.go:48-55 | ceilDiv is the exact ceiling |
| `Stake.StakeIsComputable` | internal/router/stake.go:57-87 | there is a stake exactly for supply, budget, price and length above zero |
| `Stake.StakeFitsCap` | internal/router/stake.go:68-87 | a session fits a cap just when supply × price × (seconds + 1) is at most cap × budget |
| `Stake.StakeIsMonotone` | internal/router/stake.go:57-87 | a dearer or longer session never locks less |
| `Stake.HourlyIsAnHoursStake` | internal/router/stake.go:57-87 | the hourly price is the stake of 3599 seconds |
| `MorLimit.RoundTrip` | internal/config/stake_limit.go:39-72 | printing then parsing a settable cap gives the same wei |
| `MorLimit.CapIsRead` | internal/config/stake_limit.go:39-55 | a decimal of at most six places reads as that many wei, invalid at 0 and above 100000 MOR |
| `MorLimit.OnlyCapsParse` | internal/config/stake_limit.go:33-55 | nothing else is a cap: blank is off, any other text invalid |
| `MorLimit.ParsedSurvives` | internal/config/stake_limit.go:36-65 | whatever parses is settable and survives a save and reload |
| `MorLimit.PerSessionFromHourly` | internal/config/stake_limit.go:74-89 | the nested round-ups are one, and the result may always be saved |
| `MorLimit.PerSessionIsLeast` | internal/config/stake_limit.go:74-89 | below the limit the result is the least whole micro-MOR that pays for the rate |
| `MorLimit.PerSessionAtLimits` | internal/config/stake_limit.go:74-89 | the result is the limit only when the rate asks for more than the micro-MOR below it |
| `MorLimit.ResolveStakeCap` | internal/config/stake_limit.go:110-138 | a valid hourly cap converts to a valid one, an invalid stays invalid, blank stays off, and what is saved reads back the same |
| `MorLimit.CeilFixedIsUp` | internal/pool/stake_limit.go:55-63 | the rounded amount is at least the wei and less than a unit above |
| `MorLimit.ShownNeedPasses` | internal/pool/stake_limit.go:42-63 | the amount a refusal shows, saved as the cap, lets that stake pass |
| `Relay.FlushCopy` | internal/router/client.go:830-947 | the byte loop is the fold over reads |
| `Relay.ChunksDoNotMatter` | internal/router/client.go:882-947 | for lines that fit the result is that of whole lines, however cut, whichever writes fail, whatever ended it |
| `Relay.ErrorLineEndsTheStream` | internal/router/client.go:866-881 | bytes before the first provider error go out once and in order, one event replaces it, nothing follows |
| `Relay.CleanBodyIsRelayed` | internal/router/client.go:866-947 | a body without one goes out whole, and is complete just when it ended and some line said so |
| `Relay.LinesAreNoted` | internal/router/client.go:866-881 | done, finish and usage are what the lines said, the last usage told |
| `Relay.OurEndIsNoFault` | internal/router/client.go:930-944 | a stream our side ended is relayed whole, with no event added and no fault of the provider |
| `Relay.FailedWriteEnds` | internal/router/client.go:850-947 | for any body and cut, the relay stops at the first write the client does not take, and says whose end it was |
| `Relay.BytesStayInOrder` | internal/router/client.go:830-947 | for any body and client the output is a prefix of the body and at most an error event |
| `Relay.ReadsDoNotMatter` | internal/router/client.go:843-947 | to a client that listens, with no line longer than the relay keeps by less than a read: shorter lines are looked at, longer ones go through, however cut |
| `Relay.CutsMatterBetween` | internal/router/client.go:843-925 | from any state between lines, a line of a length between is looked at in one cut into reads and passed unread in another |
| `Relay.LongErrorMayGoThrough` | internal/router/client.go:900-914 | a provider error longer than the relay keeps by less than a read is replaced in one cut of its bytes into reads and goes through in another |
| `Aggregator.AuditAggregator.Record` | internal/api/audit_route.go:233-261 | a line at once, or one more repeat in its own or the shared bucket |
| `Aggregator.AuditAggregator.FlushLocked` | internal/api/audit_route.go:283-317 | ends the windows at the front of the queue and writes what they owe |
| `Aggregator.FlushEndsWindows` | internal/api/audit_route.go:283-317 | a flush ends exactly the windows that are over |
| `Aggregator.FlushTells` | internal/api/audit_route.go:283-317 | a flush writes one summary, with its count and last event, for each window over that held repeats, and nothing else |
| `Aggregator.RecordKeeps` | internal/api/audit_route.go:233-261 | recording accounts for its event and keeps queue, counters and bounds |
| `Aggregator.RecordGoes` | internal/api/audit_route.go:233-261 | to its key's live bucket if there is one, else written with a bucket of its own, else the same with the shared one when its kind or all keys are full; no other live bucket changes |
| `Aggregator.FirstsAreApart` | internal/api/audit_route.go:187-194 | a key's lines at once come at least a window apart |
| `Aggregator.NoEventIsLost` | internal/api/audit_route.go:187-317 | in every run and kind: recorded = lines at once + counts on summaries + what live buckets hold |
| `Catalog.LowestBid` | internal/catalog/catalog.go:76-106 | the least healthy price, else the least price |
| `Catalog.PreferIsByListedPrice` | internal/catalog/catalog.go:437-462 | the choice is by tier, then by the listed price, then by id |
| `Catalog.PreferIsStrictTotalOrder` | internal/catalog/catalog.go:437-462 | a strict total order on rows with different ids |
| `Catalog.IndexModels` | internal/catalog/catalog.go:418-434 | each name maps to its chosen row, each id to its name |
| `Catalog.ChosenIsPreferred` | internal/catalog/catalog.go:415-434 | the chosen row is preferred to every other of its name |
| `Catalog.WithoutExcluded` | internal/catalog/catalog.go:215-235 | bids of excluded providers go, rows left with none are hidden |
| `Catalog.VisibleRows` | internal/catalog/catalog.go:215-235 | the rows shown are the feed's, each with its allowed bids; hidden exactly when it has bids and all are excluded |
| `Catalog.IndexLocked` | internal/catalog/catalog.go:237-252 | a name resolves among visible rows, else to the feed's choice |
| `Catalog.IndexSays` | internal/catalog/catalog.go:237-252 | every row's name resolves to a row of that name, and every id to its name |
| `Catalog.ResolveIgnoresOrder` | internal/catalog/catalog.go:237-252 | neither the feed's order nor exclusions lose or change a name's row |
| `Catalog.ResolvedIsBestShown` | internal/catalog/catalog.go:237-252 | the resolved row is the best shown, by prices of providers not excluded |
| `Lockout.Tracker.Allow` | internal/adminauth/lockout.go:94-114 | refused exactly while the global lock or the address's stands, for as long as it still does |
| `Lockout.Tracker.Failure` | internal/adminauth/lockout.go:123-179 | one more failure of the address, afresh an hour after its last if no lock stands; a failure trips the global back-off, doubled up to 15 minutes, or locks its address for its delay |
| `Lockout.Tracker.AllowBearer` | internal/adminauth/lockout.go:212-231 | the Bearer answer reads its own map only |
| `Lockout.Tracker.FailureBearer` | internal/adminauth/lockout.go:233-250 | the same schedule, no global window |
| `Lockout.DelayIs` | internal/adminauth/lockout.go:166-178 | min(2^(n-5), 900) seconds from the sixth failure, never shorter for more failures |
| `Lockout.FailureLocks` | internal/adminauth/lockout.go:162-178 | a failure locks just from the sixth, for exactly that delay |
| `Lockout.RunKeepsInv` | internal/adminauth/lockout.go:123-200 | the global back-off stays within 1 to 15 minutes |
| `Lockout.LockHolds` | internal/adminauth/lockout.go:94-291 | a locked address is refused until its recorded time, whatever others do |
| `Lockout.GlobalLockHolds` | internal/adminauth/lockout.go:94-160 | in every run only a reset shortens a global lock: until its end every password sign-in is refused |
| `Lockout.TripCountsTheWindow` | internal/adminauth/lockout.go:128-145 | the trip comes exactly at the twenty-first failure within 15 minutes |
| `Lockout.RecentAre` | internal/adminauth/lockout.go:128-136 | the failures counted are those of the last 15 minutes, no more and no fewer |
| `Lockout.SidesAreApart` | internal/adminauth/lockout.go:212-257 | dropping every Bearer call, or every password call, leaves the other side and its answers as they were |
| `Lockout.EvictOne` | internal/adminauth/lockout.go:266-291 | drops one unlocked entry, or none if all are locked; one that is not stale only after the first 64, or all, had no stale unlocked one |
| `Lockout.GrowsOnlyWhenLocked` | internal/adminauth/lockout.go:185-200 | a new address takes one more place exactly below the bound or while all entries are locked; a known one never does |
| `Lockout.MapMayPassItsBound` | internal/adminauth/lockout.go:185-200 | for every n a run after which n addresses are tracked, all locked |
| `NodePath.NormalizeNodePath` | internal/api/nodeproxy.go:154-198 | the loop decodes once and checks as the normal form says |
| `NodePath.NormalizedIs` | internal/api/nodeproxy.go:148-198 | raw means p just when p is canonical and raw spells it, escapes and one slash at the end allowed |
| `NodePath.NormalizedIsIdempotent` | internal/api/nodeproxy.go:189-198 | a normal form normalizes to itself and cleaning changes nothing |
| `NodePath.NormalFormIsPlain` | internal/api/nodeproxy.go:154-198 | what is forwarded is rooted, printable, without escapes, backslashes, empty or dot segments |
| `NodePath.EscapesAreHarmless` | internal/api/nodeproxy.go:160-174 | every escape that is accepted names a printable byte that is no slash, dot, backslash or percent sign |
| `NodePath.EscapeIsRead` | internal/api/nodeproxy.go:160-174 | and every such escape is accepted and read, in either case |
| `NodePath.NodePathBlocked` | internal/api/nodeproxy.go:202-223 | blocked exactly when some rule denies |
| `NodePath.HitsAreDenials` | internal/api/nodeproxy.go:202-223 | what a rule denies, segment by segment: a prefix of that length or, if exact, that length, a star any segment, reads passed where they are free |
| `NodePath.ExtensionStaysBlocked` | internal/api/nodeproxy.go:202-223 | what follows a path a prefix rule blocks is blocked |
| `NodePath.VerdictIgnoresSpelling` | internal/api/nodeproxy.go:200-223 | two raw paths that spell canonical paths equal up to letter case are both normalized and get one verdict |
| `SecondFactor.Store.ConsumeFactor` | internal/api/second_factor.go:43-104 | one check and what the caller does on success (keep, wipe, turn off, replace the recovery codes), committed in one update; refused or unsaved it changes nothing |
| `SecondFactor.Store.EnrollConfirm` | internal/api/totp_handlers.go:139-178 | enrols exactly with the pending secret's code in time, if saved, and starts at that code's step |
| `SecondFactor.ValidateTOTP` | internal/adminauth/totp.go:38-66 | the first of now, before and after whose code it is decides; refused when that step is not after the last one used, or when there is none |
| `SecondFactor.FirstStepDecides` | internal/adminauth/totp.go:48-66 | the first step whose code it is decides, for any list of steps |
| `SecondFactor.AcceptedIsNew` | internal/adminauth/totp.go:35-66 | an accepted step is within one of now and later than any used |
| `SecondFactor.MatchRecoveryCode` | internal/adminauth/recovery.go:120-140 | the first entry the code opens, after looking at all |
| `SecondFactor.LooksLikeRecoveryCode` | internal/adminauth/recovery.go:69-82 | twelve symbols after normalization |
| `SecondFactor.TypedAnyCase` | internal/adminauth/recovery.go:60-65 | letter case of a typed code does not matter |
| `SecondFactor.ShownCodeReadsBack` | internal/adminauth/recovery.go:46-82 | a code as shown reads back as its symbols |
| `SecondFactor.CheckIs` | internal/api/second_factor.go:43-104 | a refused or unsaved check changes nothing; an accepted step is later than any before; entries used up, thrown away and left are those there were and those issued |
| `SecondFactor.CheckAnswers` | internal/api/second_factor.go:43-104 | every check's answer and reason from the code, the state and the keys, and exactly what is committed |
| `SecondFactor.StepsIncrease` | internal/api/second_factor.go:24-104 | over any checks between two enrolments, regenerations included, accepted steps strictly increase |
| `SecondFactor.EntriesAreConserved` | internal/api/totp_handlers.go:313-326 | over the same checks: accepted + left + thrown away = stored + issued, as multisets |
| `SecondFactor.ReplacedStaysRefused` | internal/api/totp_handlers.go:313-326 | after a saved regeneration an entry not among the new ones is never accepted, unless issued again |
| `SecondFactor.FactorsWorkOnce` | internal/api/second_factor.go:24-104 | without a saved regeneration: entries accepted and left are exactly those there were, until a wipe |

## Left out

- Stake amounts on slots, the console's chain display, logs, rate-limited warnings and counters: they change no decision.
- Signs of another opener on the wallet (`foreignAt`, the shared-wallet warning, the clock check): logged only.
- `ScanOrphans`, `RunSweep` and the busy-try counters: they decide when a scan or a sweep runs, not what it does; the code promises no fairness.
- `CloseSession`, `CloseAllWithin` and `closeTargets`: loops over the close modelled in `FinishClose`.
- OpenWalk.OpenOp.Reconcile: what the k-th look finds is an arbitrary function of k; which session it is, is `Pools.Pool.MatchOpen`.
- OpenWalk.OpenOp.AdoptExisting: whether a named session may be used is an arbitrary function of its id; when it may is `Pools.Pool.Adoptable`.
- Marking an attempt cut or stuck: it sets one flag; the laws of the scan hold for attempts with any flags.
- Failover.Failovers.FailAndReopen: what its open answers is an argument; that it is a walk over the failover's candidates is in `ReopensElsewhere` and `OpenWalk.OpenOp.OpenExcluding`.
- Failover.Failovers.FailoverCtx: run as one call, with nothing else changing the pool in between; the model lock excludes other failovers, and other requests' steps are in `Leases`.
- Gate.NoOpenBeforeAList: a state machine of its own; that a slot is filled only after a list was read or an open sent is taken over from `Leases.NothingUnfilled` by name of the steps, not by sharing state with `Pools.Pool`.
- Gate.OpenGate.Startup: the retry delays are left out, and how many passes it makes at most is a parameter.
- Reading the router's error JSON, prices and session lists from text; jitter and sleeping.
- The words of an audit summary line, beyond its count and that a shared bucket tells no address.
- `Relay`: what a line's JSON says (usage, end marks, provider error) is an arbitrary function of the line.
- `SecondFactor`: key derivation, encryption, the code generator and the recovery hash are arbitrary functions; letter case is ASCII.
- Choosing the first of a sorted list is modelled as taking the least, and the iteration order of Go maps as arbitrary.
- The admin session store, the audit ring, feed snapshots and key records: each follows from one short function.
