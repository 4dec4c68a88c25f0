/** What single lease steps do to a session's use, its holders and its last use, and what follows for runs. */
module LeaseLaws {
  import opened Basics
  import opened Leases

  // Releasing.

  /**
   A release answers by who is left: another holder, else requests in flight, else nobody. Only in the last case is the
   session retired and taken out of its slot; otherwise the releasing key goes and nothing else changes.
   */
  lemma ReleaseIs(s: State, key: string, keyID: string, id: string, now: Time)
    requires id in s.sess
    ensures var (t, reason) := Released(s, key, keyID, id, now);
      && (reason == Shared <==> exists k :: k in s.sess[id].holders && k != keyID)
      && (reason == InFlight <==> (forall k :: k in s.sess[id].holders ==> k == keyID) && s.sess[id].inflight > 0)
      && (reason == Closing <==> (forall k :: k in s.sess[id].holders ==> k == keyID) && s.sess[id].inflight == 0)
    ensures var (t, reason) := Released(s, key, keyID, id, now);
      && id in t.sess && t.sess[id].holders == s.sess[id].holders - {keyID} && t.sess[id].inflight == s.sess[id].inflight
      && (reason != Closing ==> t == s.(sess := s.sess[id := s.sess[id].(holders := s.sess[id].holders - {keyID})]))
      && (reason == Closing ==> t.sess[id].retired && !(key in t.entries && t.entries[key].sessionID == id))
      && (forall k :: k in s.entries && (k != key || s.entries[k].sessionID != id) ==> k in t.entries && t.entries[k] == s.entries[k])
  {
    var st := s.sess[id];
    assert st.holders - {keyID} == map[] <==> forall k :: k in st.holders ==> k == keyID by {
      assert forall k :: k in st.holders - {keyID} <==> k in st.holders && k != keyID;
    }
  }

  /** e takes a session in use out of use. */
  predicate TakesOut(s: State, e: Event, x: string)
    requires x in s.sess
  {
    match e
    case Release(_, keyID, id, _) =>
      id == x && (forall k :: k in s.sess[x].holders ==> k == keyID) && s.sess[x].inflight == 0
    case SweepClose(id, _, _, _) => id == x
    case SweepCloseFailed(id, _) => id == x
    case FailoverRetire(_, id, _) => id == x
    case Invalidate(key) => key in s.entries && s.entries[key].sessionID == x
    case Forget(id) => id == x
    case _ => false
  }

  lemma HandOutLeavesServing(s: State, e: Event, x: string)
    requires Enabled(s, e) && HandsOut(e) && Serving(s, x)
    ensures Serving(HandOutStep(s, e), x)
  {
  }

  lemma PoolingLeavesServing(s: State, e: Event, x: string)
    requires Enabled(s, e) && Pools(e) && Serving(s, x)
    ensures Serving(PoolingStep(s, e), x)
  {
  }

  lemma QuietLeavesServing(s: State, e: Event, x: string)
    requires Enabled(s, e) && !HandsOut(e) && !Pools(e) && !e.Release? && Serving(s, x)
    ensures !Serving(QuietStep(s, e), x) <==> TakesOut(s, e, x)
  {
  }

  /**
   A session in use goes out of use by a close, a failover or the loss of its state, and by a release just when the
   releasing key was its last holder with nothing in flight: never while another key holds it or a request runs on it.
   */
  lemma LeavesUseOnlyBy(s: State, e: Event, x: string)
    requires Enabled(s, e) && Serving(s, x)
    ensures !Serving(Step(s, e), x) ==> TakesOut(s, e, x)
    ensures !e.Release? && TakesOut(s, e, x) ==> !Serving(Step(s, e), x)
    ensures e.Release? && ReleaseTarget(s, e.key, e.keyID, e.id) && TakesOut(s, e, x) ==> !Serving(Step(s, e), x)
  {
    hide HandOutStep, PoolingStep, QuietStep, Released, ReleaseTarget;
    if HandsOut(e) {
      HandOutLeavesServing(s, e, x);
    } else if Pools(e) {
      PoolingLeavesServing(s, e, x);
    } else if e.Release? {
      ReleaseIs(s, e.key, e.keyID, e.id, e.now);
      ReleaseStep(s, e, x);
    } else {
      QuietLeavesServing(s, e, x);
    }
  }

  lemma ReleaseStep(s: State, e: Event, x: string)
    requires Enabled(s, e) && e.Release?
    ensures QuietStep(s, e) == if ReleaseTarget(s, e.key, e.keyID, e.id) then Released(s, e.key, e.keyID, e.id, e.now).0 else s
    ensures x in s.sess && x != e.id ==> x in QuietStep(s, e).sess && QuietStep(s, e).sess[x] == s.sess[x]
    ensures QuietStep(s, e).sess.Keys == s.sess.Keys
  {
    hide ReleaseTarget;
  }

  /** Only releases by other keys: the sessions k holds stay in use, and in their slots. */
  lemma {:induction false} HolderKeepsItsSession(s: State, es: seq<Event>, s': State, key: string, k: string)
    requires Run(s, es, s') && forall i :: 0 <= i < |es| ==> es[i].Release? && es[i].keyID != k
    requires key in s.entries && Serving(s, s.entries[key].sessionID) && k in s.sess[s.entries[key].sessionID].holders
    ensures key in s'.entries && s'.entries[key] == s.entries[key]
    ensures Serving(s', s.entries[key].sessionID) && k in s'.sess[s.entries[key].sessionID].holders
    decreases |es|
  {
    hide QuietStep, Released, ReleaseTarget;
    if es != [] {
      var e, x := es[0], s.entries[key].sessionID;
      assert e.Release? && e.keyID != k;
      ReleaseIs(s, e.key, e.keyID, e.id, e.now);
      ReleaseStep(s, e, x);
      HolderKeepsItsSession(Step(s, e), es[1..], s', key, k);
    }
  }

  // Holders.

  lemma GranteeHolds(s: State, e: Event)
    requires Enabled(s, e) && Grants(s, e) && e.keyID != ""
    ensures var t := Step(s, e);
      Granted(s, e) in t.sess && e.keyID in t.sess[Granted(s, e)].holders && t.sess[Granted(s, e)].holders[e.keyID] == e.now
  {
  }

  /** A key that holds a session holds it until it releases it, or the session's state is lost or begun anew. */
  lemma HolderStays(s: State, e: Event, x: string, k: string)
    requires Enabled(s, e) && x in s.sess && k in s.sess[x].holders
    ensures (x in Step(s, e).sess && k in Step(s, e).sess[x].holders)
      || (e.Release? && e.id == x && e.keyID == k)
      || (e.PoolOpened? && e.e.sessionID == x)
      || (e.Invalidate? && e.key in s.entries && s.entries[e.key].sessionID == x)
      || (e.Forget? && e.id == x)
  {
    hide HandOutStep, PoolingStep, QuietStep, Released, ReleaseTarget;
    if HandsOut(e) {
      HandOutKeepsHolder(s, e, x, k);
    } else if Pools(e) {
      PoolingKeepsHolder(s, e, x, k);
    } else if e.Release? {
      ReleaseIs(s, e.key, e.keyID, e.id, e.now);
      ReleaseStep(s, e, x);
    } else {
      QuietKeepsHolder(s, e, x, k);
    }
  }

  lemma HandOutKeepsHolder(s: State, e: Event, x: string, k: string)
    requires Enabled(s, e) && HandsOut(e) && x in s.sess && k in s.sess[x].holders
    ensures x in HandOutStep(s, e).sess && k in HandOutStep(s, e).sess[x].holders
  {
  }

  lemma PoolingKeepsHolder(s: State, e: Event, x: string, k: string)
    requires Enabled(s, e) && Pools(e) && x in s.sess && k in s.sess[x].holders
    ensures !(e.PoolOpened? && e.e.sessionID == x) ==> x in PoolingStep(s, e).sess && k in PoolingStep(s, e).sess[x].holders
  {
  }

  lemma QuietKeepsHolder(s: State, e: Event, x: string, k: string)
    requires Enabled(s, e) && !HandsOut(e) && !Pools(e) && !e.Release? && x in s.sess && k in s.sess[x].holders
    ensures (x in QuietStep(s, e).sess && k in QuietStep(s, e).sess[x].holders)
      || (e.Invalidate? && e.key in s.entries && s.entries[e.key].sessionID == x)
      || (e.Forget? && e.id == x)
  {
  }

  // Retired, closing, failed closes.

  /**
   Once retired a session stays so, since the same time, and a close under way ends by a failure that is counted,
   unless its state is lost or begun anew.
   */
  lemma RetiredStays(s: State, e: Event, x: string)
    requires Enabled(s, e) && x in s.sess && x in Step(s, e).sess && !(e.PoolOpened? && e.e.sessionID == x)
    ensures s.sess[x].retired ==> Step(s, e).sess[x].retired && Step(s, e).sess[x].retiredAt == s.sess[x].retiredAt
    ensures s.sess[x].closing && !Step(s, e).sess[x].closing ==> (e.SweepCloseFailed? || e.FailoverCloseFailed?) && e.id == x
    ensures Step(s, e).sess[x].closeFails
      == s.sess[x].closeFails + if (e.SweepCloseFailed? || e.FailoverCloseFailed?) && e.id == x then 1 else 0
    ensures (e.SweepCloseFailed? || e.FailoverCloseFailed?) && e.id == x ==> !Step(s, e).sess[x].closing
    ensures e.SweepCloseFailed? && e.id == x ==> Step(s, e).sess[x].retired
  {
    hide HandOutStep, PoolingStep, QuietStep, Released, ReleaseTarget;
    if HandsOut(e) {
      HandOutKeepsFlags(s, e, x);
    } else if Pools(e) {
      PoolingKeepsFlags(s, e, x);
    } else if e.Release? {
      ReleaseStep(s, e, x);
      ReleaseKeepsFlags(s, e.key, e.keyID, e.id, e.now);
    } else {
      if Closes(e) {
        CloseKeepsFlags(s, e, x);
      } else {
        OtherKeepsFlags(s, e, x);
      }
    }
  }

  lemma HandOutKeepsFlags(s: State, e: Event, x: string)
    requires Enabled(s, e) && HandsOut(e) && x in s.sess
    ensures x in HandOutStep(s, e).sess
    ensures var a, b := s.sess[x], HandOutStep(s, e).sess[x];
      b.retired == a.retired && b.retiredAt == a.retiredAt && b.closing == a.closing && b.closeFails == a.closeFails
  {
    hide Live;
  }

  lemma PoolingKeepsFlags(s: State, e: Event, x: string)
    requires Enabled(s, e) && Pools(e) && x in s.sess && !(e.PoolOpened? && e.e.sessionID == x)
    ensures x in PoolingStep(s, e).sess
    ensures var a, b := s.sess[x], PoolingStep(s, e).sess[x];
      b.retired == a.retired && b.retiredAt == a.retiredAt && b.closing == a.closing && b.closeFails == a.closeFails
  {
  }

  lemma ReleaseKeepsFlags(s: State, key: string, keyID: string, id: string, now: Time)
    requires id in s.sess
    ensures id in Released(s, key, keyID, id, now).0.sess
    ensures var a, b := s.sess[id], Released(s, key, keyID, id, now).0.sess[id];
      (a.retired ==> b.retired && b.retiredAt == a.retiredAt) && b.closing == a.closing && b.closeFails == a.closeFails
  {
  }

  /** A step that retires a session, begins its close or ends it by a failure. */
  predicate Closes(e: Event) {
    e.SweepClose? || e.SweepCloseFailed? || e.FailoverRetire? || e.FailoverCloseFailed?
  }

  ghost predicate FlagsKept(e: Event, x: string, a: Sess, b: Sess) {
    var failed := (e.SweepCloseFailed? || e.FailoverCloseFailed?) && e.id == x;
    && (a.retired ==> b.retired && b.retiredAt == a.retiredAt)
    && (if failed then !b.closing else a.closing ==> b.closing)
    && b.closeFails == a.closeFails + (if failed then 1 else 0)
    && (e.SweepCloseFailed? && e.id == x ==> b.retired)
  }

  lemma CloseKeepsFlags(s: State, e: Event, x: string)
    requires Enabled(s, e) && Closes(e) && x in s.sess
    ensures x in QuietStep(s, e).sess && FlagsKept(e, x, s.sess[x], QuietStep(s, e).sess[x])
  {
    hide Live, Sweepable, Named, DropIf;
  }

  lemma OtherKeepsFlags(s: State, e: Event, x: string)
    requires Enabled(s, e) && !HandsOut(e) && !Pools(e) && !e.Release? && !Closes(e) && x in s.sess && x in QuietStep(s, e).sess
    ensures FlagsKept(e, x, s.sess[x], QuietStep(s, e).sess[x])
  {
    hide Live, Sweepable, Named, DropIf;
  }

  // Last use.

  function NowOf(e: Event): Option<Time> {
    match e
    case TryPooled(_, _, now) => Some(now)
    case LeaseSession(_, _, now) => Some(now)
    case Done(_, now) => Some(now)
    case FailoverReuse(_, _, _, now) => Some(now)
    case PoolOpened(_, _, _, _, _, now) => Some(now)
    case AdoptNamed(_, _, _, _, _, now) => Some(now)
    case ScanAdopt(_, now) => Some(now)
    case _ => None
  }

  /** e hands out a lease on x, or ends one. */
  predicate UsesAt(s: State, e: Event, x: string) {
    (Grants(s, e) && Granted(s, e) == x) || (e.Done? && e.lease in s.open && s.open[e.lease] == x)
  }

  function Later(clock: Time, e: Event): Time {
    if NowOf(e).Some? then NowOf(e).value else clock
  }

  /** A run on a clock that does not go back. */
  ghost predicate ClockedRun(s: State, clock: Time, es: seq<Event>, s': State, end: Time)
    decreases |es|
  {
    if es == [] then s == s' && clock == end
    else Enabled(s, es[0]) && clock <= Later(clock, es[0]) && ClockedRun(Step(s, es[0]), Later(clock, es[0]), es[1..], s', end)
  }

  ghost predicate UsedBy(s: State, clock: Time) {
    forall x :: x in s.sess ==> s.sess[x].lastUse <= clock
  }

  /** x, if it is tracked, was used at t or later. */
  predicate UsedSince(s: State, x: string, t: Time) {
    x in s.sess ==> s.sess[x].lastUse >= t
  }

  lemma HandOutUses(s: State, e: Event, clock: Time, x: string, t: Time)
    requires Enabled(s, e) && HandsOut(e) && UsedBy(s, clock) && t <= clock <= e.now && UsedSince(s, x, t)
    ensures UsedBy(HandOutStep(s, e), e.now) && UsedSince(HandOutStep(s, e), x, t)
    ensures UsesAt(s, e, x) ==> UsedSince(HandOutStep(s, e), x, e.now)
  {
    hide Live;
  }

  lemma PoolingUses(s: State, e: Event, clock: Time, x: string, t: Time)
    requires Enabled(s, e) && Pools(e) && UsedBy(s, clock) && t <= clock <= e.now && UsedSince(s, x, t)
    ensures UsedBy(PoolingStep(s, e), e.now) && UsedSince(PoolingStep(s, e), x, t)
    ensures UsesAt(s, e, x) ==> UsedSince(PoolingStep(s, e), x, e.now)
  {
  }

  lemma QuietUses(s: State, e: Event, clock: Time, x: string, t: Time)
    requires Enabled(s, e) && !HandsOut(e) && !Pools(e) && UsedBy(s, clock) && t <= clock <= Later(clock, e) && UsedSince(s, x, t)
    ensures UsedBy(QuietStep(s, e), Later(clock, e)) && UsedSince(QuietStep(s, e), x, t)
    ensures UsesAt(s, e, x) ==> UsedSince(QuietStep(s, e), x, Later(clock, e))
  {
    if e.Done? {
      DoneUses(s, e, clock, x, t);
    } else {
      hide UsedBy, UsedSince;
      OthersUseNot(s, e);
      SameUse(s, QuietStep(s, e), clock, x, t);
    }
  }

  lemma DoneUses(s: State, e: Event, clock: Time, x: string, t: Time)
    requires e.Done? && Enabled(s, e) && UsedBy(s, clock) && t <= clock <= e.now && UsedSince(s, x, t)
    ensures UsedBy(QuietStep(s, e), e.now) && UsedSince(QuietStep(s, e), x, t)
    ensures UsesAt(s, e, x) ==> UsedSince(QuietStep(s, e), x, e.now)
  {
  }

  lemma OthersUseNot(s: State, e: Event)
    requires Enabled(s, e) && !HandsOut(e) && !Pools(e) && !e.Done?
    ensures var u := QuietStep(s, e); forall id :: id in u.sess ==> id in s.sess && u.sess[id].lastUse == s.sess[id].lastUse
  {
    hide Live, Named, DropIf, ReleaseTarget;
  }

  lemma SameUse(s: State, u: State, clock: Time, x: string, t: Time)
    requires UsedBy(s, clock) && UsedSince(s, x, t)
    requires forall id :: id in u.sess ==> id in s.sess && u.sess[id].lastUse == s.sess[id].lastUse
    ensures UsedBy(u, clock) && UsedSince(u, x, t)
  {
  }

  lemma StepUses(s: State, e: Event, clock: Time, x: string, t: Time)
    requires Enabled(s, e) && UsedBy(s, clock) && t <= clock <= Later(clock, e) && UsedSince(s, x, t)
    ensures UsedBy(Step(s, e), Later(clock, e)) && UsedSince(Step(s, e), x, t)
    ensures UsesAt(s, e, x) ==> UsedSince(Step(s, e), x, Later(clock, e))
  {
    hide HandOutStep, PoolingStep, QuietStep, UsesAt, UsedBy, UsedSince;
    if HandsOut(e) {
      HandOutUses(s, e, clock, x, t);
    } else if Pools(e) {
      PoolingUses(s, e, clock, x, t);
    } else {
      QuietUses(s, e, clock, x, t);
    }
  }

  lemma {:induction false} UsedSinceStays(s: State, clock: Time, es: seq<Event>, s': State, end: Time, x: string, t: Time)
    requires ClockedRun(s, clock, es, s', end) && UsedBy(s, clock) && t <= clock && UsedSince(s, x, t)
    ensures UsedBy(s', end) && UsedSince(s', x, t)
    decreases |es|
  {
    hide Step, UsedBy, UsedSince;
    if es != [] {
      StepUses(s, es[0], clock, x, t);
      UsedSinceStays(Step(s, es[0]), Later(clock, es[0]), es[1..], s', end, x, t);
    }
  }

  /**
   The idle sweep closes a session that was not retired only when it is on, nothing is in flight or being closed, and
   no lease on the session began or ended for the whole grace.
   */
  lemma IdleSweepWaits(s: State, clock: Time, use: Event, es: seq<Event>, s': State, end: Time,
                       x: string, idle: bool, grace: Time, now: Time)
    requires UsedBy(s, clock) && Enabled(s, use) && UsesAt(s, use, x) && clock <= Later(clock, use)
    requires ClockedRun(Step(s, use), Later(clock, use), es, s', end)
    requires Enabled(s', SweepClose(x, idle, grace, now)) && !s'.sess[x].retired
    ensures idle && now - Later(clock, use) >= grace
    ensures x !in s'.marks && !s'.sess[x].closing && s'.sess[x].inflight == 0
  {
    hide Step, UsesAt;
    var t := Later(clock, use);
    var before := if x in s.sess then Min(s.sess[x].lastUse, clock) else clock;
    StepUses(s, use, clock, x, before);
    UsedSinceStays(Step(s, use), t, es, s', end, x, t);
  }
}
