/**
 Failover memory and decisions: which bids may be opened, and when a failed session may be retired and closed. A
 failover runs under its model's open lock; what the router, the pool and the health feed say is an argument.
 */
module Failover {
  import opened Basics
  import opened OpenErrors
  import opened OpenWalk
  import opened Sessions
  import Leases
  import Pools

  /** The router's rated bids for a model. Partial: some rows could not be used. */
  datatype Rated = Rows(rows: seq<Bid>) | Partial(rows: seq<Bid>) | Unreachable | Unreadable

  datatype Choice = Open(cands: seq<Bid>, pool: seq<Bid>) | NoEligible | NoAvailable(retryAfter: Time)

  /** The maps kept across requests. Cooling is per model and provider. */
  datatype Memory = Memory(retired: map<string, Time>, cooling: map<(string, string), Time>, cooldown: Time,
                           exclude: set<string>, cut: map<string, string>)
  {
    predicate Cooling(model: string, provider: string, now: Time) {
      (model, provider) in cooling && now < cooling[(model, provider)]
    }

    /** Skipped by a new open of the model: cooling, cut a stream just before, or the caller's own. */
    predicate Avoided(model: string, extra: string, provider: string, now: Time) {
      || Cooling(model, provider, now)
      || (model in cut && cut[model] != "" && cut[model] == provider)
      || (extra != "" && extra == provider)
    }
  }

  function Listed(r: Rated): seq<Bid> {
    if r.Rows? || r.Partial? then r.rows else []
  }

  function Healthy(rows: seq<Bid>, healthy: set<string>): seq<Bid> {
    Filter(rows, (b: Bid) => b.id in healthy)
  }

  function Eligible(rows: seq<Bid>, healthy: set<string>, exclude: set<string>): seq<Bid> {
    Filter(Healthy(rows, healthy), (b: Bid) => b.provider !in exclude)
  }

  function Allowed(m: Memory, model: string, extra: string, pool: seq<Bid>, now: Time): seq<Bid> {
    Filter(pool, (b: Bid) => !m.Avoided(model, extra, b.provider, now))
  }

  /** d is the shortest cool-down left among the pool's providers, if any cools. */
  ghost predicate IsShortest(m: Memory, model: string, pool: seq<Bid>, now: Time, d: Option<Time>) {
    && (d.Some? ==> exists b :: b in pool && m.Cooling(model, b.provider, now) && m.cooling[(model, b.provider)] - now == d.value)
    && (forall b :: b in pool && m.Cooling(model, b.provider, now) ==> d.Some? && d.value <= m.cooling[(model, b.provider)] - now)
  }

  /** Whole seconds up from the shortest cool-down, within 1 s and the cap; 0 when none cools. */
  ghost predicate IsRetryAfter(m: Memory, model: string, pool: seq<Bid>, now: Time, r: Time) {
    exists d :: IsShortest(m, model, pool, now, d)
      && if d.None? then r == 0 else SECOND <= r <= MAX_RETRY_AFTER && (d.value <= MAX_RETRY_AFTER ==> IsSecondsUp(d.value, r))
  }

  /**
   What filtering a rated list must answer. Every candidate is rated, healthy, not excluded and not avoided, in the
   router's order; each refusal comes just when its step leaves nothing.
   */
  ghost predicate Chosen(m: Memory, model: string, extra: string, r: Rated, healthy: Option<set<string>>, now: Time, c: Choice) {
    var rows := Listed(r);
    if rows == [] then c == NoAvailable(0)
    else if forall b :: b in rows ==> b.provider in m.exclude then c == NoEligible
    else if healthy.None? then c == NoAvailable(0)
    else
      var pool := Eligible(rows, healthy.value, m.exclude);
      var cands := Allowed(m, model, extra, pool, now);
      if pool == [] then c == NoAvailable(0)
      else if cands == [] then c.NoAvailable? && IsRetryAfter(m, model, pool, now, c.retryAfter)
      else c == Open(cands, pool)
  }

  predicate Usable(m: Memory, model: string, extra: string, rows: seq<Bid>, healthy: set<string>, b: Bid, now: Time) {
    b in rows && b.id in healthy && b.provider !in m.exclude && !m.Avoided(model, extra, b.provider, now)
  }

  /** Candidates are exactly the usable rows: an open is refused just when there is none. */
  lemma CandidatesAreUsable(m: Memory, model: string, extra: string, r: Rated, healthy: set<string>, now: Time, c: Choice)
    requires Chosen(m, model, extra, r, Some(healthy), now, c)
    ensures c.Open? ==> forall b :: b in c.cands <==> Usable(m, model, extra, Listed(r), healthy, b, now)
    ensures c.Open? <==> exists b :: Usable(m, model, extra, Listed(r), healthy, b, now)
    ensures c.Open? && extra != "" ==> forall b :: b in c.cands ==> b.provider != extra
  {
    var rows := Listed(r);
    var pool := Eligible(rows, healthy, m.exclude);
    var cands := Allowed(m, model, extra, pool, now);
    forall b ensures b in cands <==> Usable(m, model, extra, rows, healthy, b, now) {
    }
    if cands != [] {
      assert Usable(m, model, extra, rows, healthy, cands[0], now);
    }
  }

  /** retire: what ended goes, id stays until its session ends, or for one session length where that is past. */
  function Retired(m: Memory, id: string, endsAt: Time, durationSec: int, now: Time): Memory {
    var kept := map x | x in m.retired && now < m.retired[x] :: m.retired[x];
    m.(retired := kept[id := if endsAt > now then endsAt else now + durationSec * SECOND + EXPIRY_BUFFER])
  }

  /** MarkCooling: what ended goes; no cool-down starts when it is off or the provider is unknown. */
  function Cooled(m: Memory, model: string, provider: string, now: Time): Memory {
    if provider == "" then m
    else
      var kept := map k | k in m.cooling && now < m.cooling[k] :: m.cooling[k];
      m.(cooling := if m.cooldown <= 0 then kept else kept[(model, provider) := now + m.cooldown])
  }

  /** A provider that faulted while an open walked its bids. */
  datatype Fault = Fault(provider: string, at: Time)

  function CooledAll(m: Memory, model: string, faults: seq<Fault>): Memory {
    if faults == [] then m
    else
      var last := faults[|faults| - 1];
      Cooled(CooledAll(m, model, faults[..|faults| - 1]), model, last.provider, last.at)
  }

  function Uncut(m: Memory, model: string): Memory {
    if model in m.cut && m.cut[model] != "" then m.(cut := m.cut - {model}) else m
  }

  /** The memory after a plain open. Its pending cut goes when it got a session, or no provider was left to try. */
  function AfterOpen(m: Memory, model: string, walked: bool, got: Result, faults: seq<Fault>): Memory {
    var t := if walked then CooledAll(m, model, faults) else m;
    if !walked || got.Got? || got.why.Exhausted? then Uncut(t, model) else t
  }

  /** One failover: the failed session, what the router said, and what the pool answered. */
  datatype Failure = Failure(model: string, id: string, replaced: bool, provider: string, endsAt: Time, rated: Rated,
                             healthy: Option<set<string>>, unheld: bool, reopen: bool, durationSec: int, now: Time, choice: Choice)

  datatype Outcome = Reused | OpenAgain | Kept | Moved(closed: bool, cands: seq<Bid>)

  /** The memory after a failover, and what it did with the failed session. */
  function AfterFailure(m: Memory, f: Failure): (Memory, Outcome) {
    if f.replaced then (m, Reused)
    else if f.id in m.retired then (m, if f.reopen then OpenAgain else Reused)
    else if f.provider == "" then (m, Kept)
    else
      var cooled := Cooled(m, f.model, f.provider, f.now);
      if !f.choice.Open? then (cooled, Kept)
      else
        var t := Retired(cooled, f.id, f.endsAt, f.durationSec, f.now);
        (if f.reopen then t else t.(cut := t.cut[f.model := f.provider]), Moved(f.unheld, f.choice.cands))
  }

  /** The answers of a failover fit: its candidates are the filtered list without the failed provider. */
  ghost predicate Fits(m: Memory, f: Failure) {
    Chosen(Cooled(m, f.model, f.provider, f.now), f.model, f.provider, f.rated, f.healthy, f.now, f.choice)
  }

  datatype Event =
    | Fail(f: Failure)
    | Retire(id: string, endsAt: Time, durationSec: int, now: Time)   // a release, or the idle sweep
    | Cool(model: string, provider: string, now: Time)
    | SetExclude(exclude: set<string>)
    | SetCooldown(d: Time)
    | ClearCut(model: string)

  ghost predicate Enabled(m: Memory, e: Event) {
    e.Fail? ==> Fits(m, e.f)
  }

  function Step(m: Memory, e: Event): Memory {
    match e
    case Fail(f) => AfterFailure(m, f).0
    case Retire(id, endsAt, durationSec, now) => Retired(m, id, endsAt, durationSec, now)
    case Cool(model, provider, now) => Cooled(m, model, provider, now)
    case SetExclude(ex) => m.(exclude := ex)
    case SetCooldown(d) => m.(cooldown := if d < 0 then 0 else d)
    case ClearCut(model) => m.(cut := m.cut - {model})
  }

  ghost predicate Run(m: Memory, es: seq<Event>, m': Memory)
    decreases |es|
  {
    if es == [] then m == m' else Enabled(m, es[0]) && Run(Step(m, es[0]), es[1..], m')
  }

  predicate Moves(m: Memory, e: Event, id: string) {
    e.Fail? && e.f.id == id && AfterFailure(m, e.f).1.Moved?
  }

  /** How often failovers retired id, so at most how often they closed it. */
  function MovesOf(m: Memory, es: seq<Event>, id: string): nat
    decreases |es|
  {
    if es == [] then 0 else (if Moves(m, es[0], id) then 1 else 0) + MovesOf(Step(m, es[0]), es[1..], id)
  }

  /** How often the record of id, its session ended, was dropped. */
  function DropsOf(m: Memory, es: seq<Event>, id: string): nat
    decreases |es|
  {
    if es == [] then 0
    else (if id in m.retired && id !in Step(m, es[0]).retired then 1 else 0) + DropsOf(Step(m, es[0]), es[1..], id)
  }

  predicate RetiresElsewhere(e: Event, id: string) {
    e.Retire? && e.id == id
  }

  lemma StepBalance(m: Memory, e: Event, id: string)
    ensures var t := Step(m, e);
      var before := (if Moves(m, e, id) then 1 else 0) + (if id in m.retired then 1 else 0);
      var after := (if id in m.retired && id !in t.retired then 1 else 0) + (if id in t.retired then 1 else 0);
      before <= after && (!RetiresElsewhere(e, id) ==> before == after)
  {
  }

  /**
   However many requests fail on a session, failovers retire it, and so close it, at most once more than its record was
   dropped because it had ended. Unless a release or a sweep retired it too, they do so exactly once per record.
   */
  lemma {:induction false} OneMovePerRecord(m: Memory, es: seq<Event>, m': Memory, id: string)
    requires Run(m, es, m')
    ensures MovesOf(m, es, id) + (if id in m.retired then 1 else 0) <= DropsOf(m, es, id) + (if id in m'.retired then 1 else 0)
    ensures (forall i :: 0 <= i < |es| ==> !RetiresElsewhere(es[i], id)) ==>
      MovesOf(m, es, id) + (if id in m.retired then 1 else 0) == DropsOf(m, es, id) + (if id in m'.retired then 1 else 0)
    decreases |es|
  {
    if es != [] {
      StepBalance(m, es[0], id);
      OneMovePerRecord(Step(m, es[0]), es[1..], m', id);
      if forall i :: 0 <= i < |es| ==> !RetiresElsewhere(es[i], id) {
        assert !RetiresElsewhere(es[0], id);
      }
    }
  }

  /**
   A failover that retires a session read a usable candidate first: one that is rated, healthy, not excluded, not
   cooling, not cut from a stream just before, and of another provider than the one that failed.
   */
  lemma MovesOnlyToAnother(m: Memory, f: Failure)
    requires Fits(m, f) && AfterFailure(m, f).1.Moved?
    ensures var cands := AfterFailure(m, f).1.cands;
      cands != [] && f.healthy.Some? && f.id !in m.retired && !f.replaced
      && forall b :: b in cands ==>
        b in Listed(f.rated) && b.id in f.healthy.value && b.provider !in m.exclude && b.provider != f.provider
        && !m.Cooling(f.model, b.provider, f.now) && !(f.model in m.cut && m.cut[f.model] == b.provider != "")
    ensures f.id in AfterFailure(m, f).0.retired && f.endsAt > f.now ==> AfterFailure(m, f).0.retired[f.id] == f.endsAt
  {
    CandidatesAreUsable(Cooled(m, f.model, f.provider, f.now), f.model, f.provider, f.rated, f.healthy.value, f.now, f.choice);
  }

  /** Another provider than the one that failed has a bid that is rated, healthy, not excluded, not cooling and not just cut. */
  ghost predicate HasAlternate(m: Memory, f: Failure) {
    f.healthy.Some? && exists b :: CanTakeOver(m, f, f.healthy.value, b)
  }

  predicate CanTakeOver(m: Memory, f: Failure, healthy: set<string>, b: Bid) {
    && b in Listed(f.rated) && b.id in healthy && b.provider !in m.exclude && b.provider != f.provider
    && !((f.model, b.provider) in m.cooling && f.now < m.cooling[(f.model, b.provider)])
    && !(f.model in m.cut && m.cut[f.model] == b.provider != "")
  }

  /** Some bid is rated, healthy, not excluded, not cooling and not just cut. */
  ghost predicate HasBid(m: Memory, model: string, rated: Rated, healthy: Option<set<string>>, now: Time) {
    healthy.Some? && exists b :: Offers(m, model, rated, healthy.value, now, b)
  }

  predicate Offers(m: Memory, model: string, rated: Rated, healthy: set<string>, now: Time, b: Bid) {
    && b in Listed(rated) && b.id in healthy && b.provider !in m.exclude
    && !((model, b.provider) in m.cooling && now < m.cooling[(model, b.provider)])
    && !(model in m.cut && m.cut[model] == b.provider != "")
  }

  /**
   What a failover decides, from the memory and what it read. A session that was failed over before is not failed over
   again: a request that wants one opens normally. Else the session is kept exactly when its provider is not known or no
   other can take over.
   */
  lemma FailureDecides(m: Memory, f: Failure)
    requires !f.replaced && f.id !in m.retired && f.provider != "" ==> Fits(m, f)
    ensures var (t, out) := AfterFailure(m, f);
      && (f.replaced ==> out == Reused && t == m)
      && (!f.replaced && f.id in m.retired ==> t == m && out == if f.reopen then OpenAgain else Reused)
      && (out == Kept <==> !f.replaced && f.id !in m.retired && (f.provider == "" || !HasAlternate(m, f)))
      && (out.Moved? <==> !f.replaced && f.id !in m.retired && f.provider != "" && HasAlternate(m, f))
    ensures var (t, out) := AfterFailure(m, f);
      && (out.Moved? ==> f.id in t.retired && (if f.reopen then t.cut == m.cut else t.cut == m.cut[f.model := f.provider]))
      && (!out.Moved? ==> t.retired == m.retired && t.cut == m.cut)
      && (!f.replaced && f.id !in m.retired && f.provider != "" && m.cooldown > 0 ==>
            (f.model, f.provider) in t.cooling && t.cooling[(f.model, f.provider)] == f.now + m.cooldown)
  {
    if !f.replaced && f.id !in m.retired && f.provider != "" {
      AlternateIs(m, f);
      DecidesFresh(m, f);
    }
  }

  lemma AlternateIs(m: Memory, f: Failure)
    requires f.provider != "" && Fits(m, f)
    ensures f.choice.Open? <==> HasAlternate(m, f)
  {
    hide Chosen, Cooled;
    var cooled := Cooled(m, f.model, f.provider, f.now);
    CooledOthers(m, f.model, f.provider, f.now);
    if f.healthy.Some? {
      CandidatesAreUsable(cooled, f.model, f.provider, f.rated, f.healthy.value, f.now, f.choice);
      forall b ensures CanTakeOver(m, f, f.healthy.value, b)
        <==> Usable(cooled, f.model, f.provider, Listed(f.rated), f.healthy.value, b, f.now)
      {
      }
    } else {
      UnhealthyIsNone(cooled, f);
    }
  }

  lemma UnhealthyIsNone(m: Memory, f: Failure)
    requires f.healthy.None? && Chosen(m, f.model, f.provider, f.rated, f.healthy, f.now, f.choice)
    ensures !f.choice.Open?
  {
  }

  lemma CooledOthers(m: Memory, model: string, provider: string, now: Time)
    ensures var t := Cooled(m, model, provider, now);
      && t.exclude == m.exclude && t.cut == m.cut && t.retired == m.retired && t.cooldown == m.cooldown
      && forall p :: p != provider ==> (t.Cooling(model, p, now) <==> m.Cooling(model, p, now))
  {
  }

  lemma DecidesFresh(m: Memory, f: Failure)
    requires !f.replaced && f.id !in m.retired && f.provider != ""
    ensures var (t, out) := AfterFailure(m, f);
      && (out.Moved? <==> f.choice.Open?) && (out == Kept <==> !f.choice.Open?)
      && (out.Moved? ==> f.id in t.retired && (if f.reopen then t.cut == m.cut else t.cut == m.cut[f.model := f.provider]))
      && (!out.Moved? ==> t.retired == m.retired && t.cut == m.cut)
      && (m.cooldown > 0 ==> (f.model, f.provider) in t.cooling && t.cooling[(f.model, f.provider)] == f.now + m.cooldown)
  {
  }

  // Cool-downs hold.

  function NowOf(e: Event, clock: Time): Time {
    match e
    case Fail(f) => f.now
    case Retire(_, _, _, now) => now
    case Cool(_, _, now) => now
    case _ => clock
  }

  /** A run on a clock that does not go back, with the cool-down setting as it is. */
  ghost predicate ClockedRun(m: Memory, clock: Time, es: seq<Event>, m': Memory, end: Time)
    decreases |es|
  {
    if es == [] then m == m' && clock == end
    else
      && Enabled(m, es[0]) && !es[0].SetCooldown? && clock <= NowOf(es[0], clock)
      && ClockedRun(Step(m, es[0]), NowOf(es[0], clock), es[1..], m', end)
  }

  /** The provider cools until then, if the clock is not past it. */
  predicate CoolsUntil(m: Memory, clock: Time, model: string, provider: string, until: Time) {
    until <= clock || (until <= clock + m.cooldown && (model, provider) in m.cooling && m.cooling[(model, provider)] >= until)
  }

  lemma CooledKeeps(m: Memory, clock: Time, model: string, provider: string, now: Time, x: string, y: string, until: Time)
    requires CoolsUntil(m, clock, x, y, until) && clock <= now
    ensures CoolsUntil(Cooled(m, model, provider, now), now, x, y, until)
  {
  }

  lemma StepCools(m: Memory, clock: Time, e: Event, model: string, provider: string, until: Time)
    requires CoolsUntil(m, clock, model, provider, until) && !e.SetCooldown? && clock <= NowOf(e, clock)
    ensures CoolsUntil(Step(m, e), NowOf(e, clock), model, provider, until)
  {
    hide Cooled;
    match e
    case Fail(f) =>
      CooledKeeps(m, clock, f.model, f.provider, f.now, model, provider, until);
    case Cool(x, y, now) => CooledKeeps(m, clock, x, y, now, model, provider, until);
    case _ =>
  }

  /**
   A provider that cools is no candidate of its model until its cool-down has passed, whatever happens meanwhile: later
   faults, failovers and prunings never shorten it while the setting stays.
   */
  lemma {:induction false} CoolDownHolds(m: Memory, clock: Time, es: seq<Event>, m': Memory, end: Time,
                                         model: string, provider: string, until: Time)
    requires ClockedRun(m, clock, es, m', end) && CoolsUntil(m, clock, model, provider, until)
    ensures forall now, extra, rows, healthy, b: Bid ::
      end <= now < until && b.provider == provider ==> !Usable(m', model, extra, rows, healthy, b, now)
    decreases |es|
  {
    hide Step;
    if es != [] {
      StepCools(m, clock, es[0], model, provider, until);
      CoolDownHolds(Step(m, es[0]), NowOf(es[0], clock), es[1..], m', end, model, provider, until);
    }
  }

  /** The faults of one walk: each provider cools from its own fault on, whichever fault after it. */
  lemma {:induction false} FaultsCool(m: Memory, model: string, faults: seq<Fault>, i: nat)
    requires i < |faults| && faults[i].provider != ""
    requires forall j, k :: 0 <= j < k < |faults| ==> faults[j].at <= faults[k].at
    ensures CoolsUntil(CooledAll(m, model, faults), faults[|faults| - 1].at, model, faults[i].provider, faults[i].at + m.cooldown)
    ensures CooledAll(m, model, faults).cooldown == m.cooldown
  {
    var n := |faults| - 1;
    var before := CooledAll(m, model, faults[..n]);
    CoolsOnly(m, model, faults[..n]);
    if i < n {
      FaultsCool(m, model, faults[..n], i);
      CooledKeeps(before, faults[n - 1].at, model, faults[n].provider, faults[n].at, model, faults[i].provider, faults[i].at + m.cooldown);
    }
  }

  /** The record of a failed-over session lasts till its end is passed: whatever is retired meanwhile, it stays. */
  lemma {:induction false} RecordStays(m: Memory, clock: Time, es: seq<Event>, m': Memory, end: Time, id: string)
    requires ClockedRun(m, clock, es, m', end) && id in m.retired && end < m.retired[id]
    requires forall i :: 0 <= i < |es| ==> !(es[i].Retire? && es[i].id == id)
    ensures id in m'.retired && m'.retired[id] == m.retired[id]
    decreases |es|
  {
    if es != [] {
      var e := es[0];
      assert !(e.Retire? && e.id == id);
      EndIsLater(Step(m, e), NowOf(e, clock), es[1..], m', end);
      RecordStep(m, e, clock, id);
      RecordStays(Step(m, e), NowOf(e, clock), es[1..], m', end, id);
    }
  }

  lemma {:induction false} EndIsLater(m: Memory, clock: Time, es: seq<Event>, m': Memory, end: Time)
    requires ClockedRun(m, clock, es, m', end)
    ensures clock <= end
    decreases |es|
  {
    hide Step;
    if es != [] {
      EndIsLater(Step(m, es[0]), NowOf(es[0], clock), es[1..], m', end);
    }
  }

  lemma RecordStep(m: Memory, e: Event, clock: Time, id: string)
    requires id in m.retired && NowOf(e, clock) < m.retired[id] && !(e.Retire? && e.id == id)
    ensures id in Step(m, e).retired && Step(m, e).retired[id] == m.retired[id]
  {
    hide Cooled;
    if e.Fail? {
      CooledOthers(m, e.f.model, e.f.provider, e.f.now);
    } else if e.Cool? {
      CooledOthers(m, e.model, e.provider, e.now);
    }
  }

  /** A failover's record ends when the session does, or a session length from now if that end is not known or past. */
  lemma RetiredUntil(m: Memory, f: Failure)
    requires AfterFailure(m, f).1.Moved?
    ensures var t := AfterFailure(m, f).0;
      f.id in t.retired && t.retired[f.id] == if f.endsAt > f.now then f.endsAt else f.now + f.durationSec * SECOND + 90 * SECOND
  {
  }

  /** From the failover on its provider cools for the set time. */
  lemma FailedCools(m: Memory, f: Failure)
    requires !f.replaced && f.id !in m.retired && f.provider != ""
    ensures CoolsUntil(AfterFailure(m, f).0, f.now, f.model, f.provider, f.now + m.cooldown)
  {
  }

  /**
   The reopen walks those candidates: every POST is for one of them, so of another provider than the one that failed,
   and a session it opened is the one of its last POST.
   */
  lemma ReopensElsewhere(m: Memory, f: Failure, op: OpenOp, job: Job, rpc: bool, w: nat, deadline: Time, log: seq<Post>, r: Result)
    requires Fits(m, f) && AfterFailure(m, f).1.Moved? && job.alts == AfterFailure(m, f).1.cands
    requires Follows(job, rpc, w, deadline, log) && InRange(job, log) && log != [] && op.Ends(job, r, log[|log| - 1])
    ensures forall k :: 0 <= k < |log| ==> var b := job.alts[log[k].row];
      && b in Listed(f.rated) && b.provider != f.provider && b.provider !in m.exclude && !m.Cooling(f.model, b.provider, f.now)
    ensures r.Got? && !r.adopted ==>
      log[|log| - 1].answer == Answer.Opened(r.session) && r.provider != f.provider && r.provider !in m.exclude
  {
    hide Follows, KindOf;
    MovesOnlyToAnother(m, f);
  }

  /** Without a usable candidate the failed session is kept, and nothing but the provider's cool-down is remembered. */
  lemma KeptWithoutAlternate(m: Memory, f: Failure)
    requires Fits(m, f) && !f.replaced && f.id !in m.retired && f.provider != ""
    ensures AfterFailure(m, f).1 == Kept <==>
      (f.healthy.None? || forall b :: !Usable(Cooled(m, f.model, f.provider, f.now), f.model, f.provider, Listed(f.rated), f.healthy.value, b, f.now))
    ensures AfterFailure(m, f).1 == Kept ==> AfterFailure(m, f).0.retired == m.retired && AfterFailure(m, f).0.cut == m.cut
  {
    if f.healthy.Some? {
      CandidatesAreUsable(Cooled(m, f.model, f.provider, f.now), f.model, f.provider, f.rated, f.healthy.value, f.now, f.choice);
    }
  }

  /** m without the records that ended, once all but those in keys were looked at. */
  ghost function PrunedUntil<K(!new)>(m: map<K, Time>, keys: set<K>, now: Time): map<K, Time> {
    map k | k in m && (k in keys || now < m[k]) :: m[k]
  }

  lemma PrunedUntilAll<K(!new)>(m: map<K, Time>, now: Time)
    ensures PrunedUntil(m, m.Keys, now) == m
  {
  }

  lemma PrunedUntilNone<K(!new)>(m: map<K, Time>, now: Time)
    ensures PrunedUntil(m, {}, now) == map k | k in m && now < m[k] :: m[k]
  {
  }

  lemma PrunedUntilNext<K(!new)>(m: map<K, Time>, keys: set<K>, k: K, now: Time)
    requires k in keys && k in m
    ensures var p := PrunedUntil(m, keys, now);
      k in p && p[k] == m[k] && PrunedUntil(m, keys - {k}, now) == if m[k] <= now then p - {k} else p
  {
  }

  /** u is t but for the closing mark of id. */
  ghost predicate MarksApart(t: Leases.State, id: string, u: Leases.State) {
    u == t.(marks := u.marks) && u.marks - {id} == t.marks - {id}
  }

  /** A close of id was tried from t: it landed and id is forgotten, or it did not and the failure is counted. */
  ghost predicate CloseTried(t: Leases.State, id: string, landed: bool, u: Leases.State) {
    if landed then u == Leases.Step(Leases.Step(t, Leases.ClearMark(id)), Leases.Forget(id))
    else exists m :: MarksApart(t, id, m) && u == Leases.Step(m, Leases.FailoverCloseFailed(id))
  }

  /** A close of id that began by marking it, once the router answered. */
  lemma ClosedIs(t: Leases.State, m: Leases.State, id: string, mark: Leases.Mark, landed: bool, u: Leases.State)
    requires m == t.(marks := t.marks[id := Leases.InProgress])
    requires landed ==> u == Leases.Step(Leases.Step(m, Leases.ClearMark(id)), Leases.Forget(id))
    requires !landed ==> u == Leases.Step(m, Leases.SetMark(id, mark)) || u == Leases.Step(m, Leases.ClearMark(id))
    ensures landed ==> u == Leases.Step(Leases.Step(t, Leases.ClearMark(id)), Leases.Forget(id))
    ensures !landed ==> MarksApart(t, id, u)
  {
    assert t.marks[id := Leases.InProgress] - {id} == t.marks - {id};
    assert t.marks[id := mark] - {id} == t.marks - {id};
    assert Leases.Step(m, Leases.ClearMark(id)) == Leases.Step(t, Leases.ClearMark(id));
    assert !landed && u == Leases.Step(m, Leases.SetMark(id, mark)) ==> u.marks - {id} == t.marks - {id};
  }

  lemma TriedIs(t: Leases.State, id: string, m: Leases.State, landed: bool, u: Leases.State)
    requires landed ==> m == Leases.Step(Leases.Step(t, Leases.ClearMark(id)), Leases.Forget(id)) && u == m
    requires !landed ==> MarksApart(t, id, m) && u == Leases.Step(m, Leases.FailoverCloseFailed(id))
    ensures CloseTried(t, id, landed, u)
  {
    hide Leases.Step, MarksApart;
  }

  /**
   What a failover is told: the failed session's provider and end, where its slot does not say, the rated bids and the
   healthy ones, and how the failed session's close goes once the wallet slot is free for it.
   */
  datatype Says = Says(provider: string, endsAt: Time, rated: Rated, healthy: Option<set<string>>,
                       slot: bool, answer: Pools.CloseAnswer, sawClosed: bool)
  {
    predicate Lands() {
      slot && (answer.Closed? || (answer.Refused? && sawClosed))
    }
  }

  class Failovers {
    var retired: map<string, Time>
    var cooling: map<(string, string), Time>
    var cooldown: Time
    var exclude: set<string>
    var cutNext: map<string, string>

    ghost function Abs(): Memory
      reads this
    {
      Memory(retired, cooling, cooldown, exclude, cutNext)
    }

    method MarkCooling(model: string, provider: string, now: Time)
      modifies this`cooling
      ensures Abs() == Cooled(old(Abs()), model, provider, now)
    {
      if provider == "" {
        return;
      }
      hide PrunedUntil;
      var keys := cooling.Keys;
      PrunedUntilAll(cooling, now);
      while keys != {}
        invariant keys <= old(cooling).Keys && cooling == PrunedUntil(old(cooling), keys, now)
        decreases |keys|
      {
        var k :| k in keys;
        PrunedUntilNext(old(cooling), keys, k, now);
        keys := keys - {k};
        if cooling[k] <= now {
          cooling := cooling - {k};
        }
      }
      PrunedUntilNone(old(cooling), now);
      if cooldown > 0 {
        cooling := cooling[(model, provider) := now + cooldown];
      }
    }

    /** Remembers a failed-over session so that no scan adopts it back, even when its close fails. */
    method Retire(id: string, endsAt: Time, durationSec: int, now: Time)
      modifies this`retired
      ensures Abs() == Retired(old(Abs()), id, endsAt, durationSec, now)
    {
      var end := if endsAt > now then endsAt else now + durationSec * SECOND + EXPIRY_BUFFER;
      hide PrunedUntil;
      var ids := retired.Keys;
      PrunedUntilAll(retired, now);
      while ids != {}
        invariant ids <= old(retired).Keys && retired == PrunedUntil(old(retired), ids, now)
        decreases |ids|
      {
        var x :| x in ids;
        PrunedUntilNext(old(retired), ids, x, now);
        ids := ids - {x};
        if retired[x] <= now {
          retired := retired - {x};
        }
      }
      PrunedUntilNone(old(retired), now);
      retired := retired[id := end];
    }

    method RetryAfter(model: string, pool: seq<Bid>, now: Time) returns (r: Time)
      ensures IsRetryAfter(Abs(), model, pool, now, r)
    {
      var best: Option<Time> := None;
      for i := 0 to |pool|
        invariant IsShortest(Abs(), model, pool[..i], now, best)
      {
        var k := (model, pool[i].provider);
        assert pool[..i + 1] == pool[..i] + [pool[i]];
        ghost var last := best;
        if k in cooling && now < cooling[k] && (best.None? || cooling[k] - now < best.value) {
          best := Some(cooling[k] - now);
          assert pool[i] in pool[..i + 1];
        } else if best.Some? {
          ghost var b :| b in pool[..i] && Abs().Cooling(model, b.provider, now) && cooling[(model, b.provider)] - now == best.value;
          assert b in pool[..i + 1];
        }
      }
      assert pool[..|pool|] == pool;
      if best.None? {
        return 0;
      }
      r := ClampRetryAfter(best.value);
    }

    /** The rows an open may walk, or why there are none. */
    method FilterCandidates(model: string, extra: string, r: Rated, healthy: Option<set<string>>, now: Time) returns (c: Choice)
      ensures Chosen(Abs(), model, extra, r, healthy, now, c)
    {
      hide Filter, IsRetryAfter;
      if r.Unreachable? || r.Unreadable? || r.rows == [] {
        return NoAvailable(0);
      }
      var rows := r.rows;
      var allExcluded := true;
      for i := 0 to |rows|
        invariant allExcluded <==> forall j :: 0 <= j < i ==> rows[j].provider in exclude
      {
        if rows[i].provider !in exclude {
          allExcluded := false;
          break;
        }
      }
      assert allExcluded <==> forall b :: b in rows ==> b.provider in exclude;
      if allExcluded {
        return NoEligible;
      }
      if healthy.None? {
        return NoAvailable(0);
      }
      var up := Keep(rows, (b: Bid) => b.id in healthy.value);
      var ex := exclude;
      var pool := Keep(up, (b: Bid) => b.provider !in ex);
      assert pool == Eligible(rows, healthy.value, exclude);
      if pool == [] {
        return NoAvailable(0);
      }
      ghost var m := Abs();
      var cool, cut := cooling, if model in cutNext then cutNext[model] else "";
      var avoid := (b: Bid) => ((model, b.provider) in cool && now < cool[(model, b.provider)])
        || (cut != "" && cut == b.provider) || (extra != "" && extra == b.provider);
      var cands := Keep(pool, (b: Bid) => !avoid(b));
      SameFilter(pool, (b: Bid) => !avoid(b), (b: Bid) => !m.Avoided(model, extra, b.provider, now));
      if cands == [] {
        var wait := RetryAfter(model, pool, now);
        return NoAvailable(wait);
      }
      return Open(cands, pool);
    }

    /** The provider of a session and its end: from the slot, else as the router says ("" when it does not). */
    method SessionProvider(pool: Pools.Pool, key: string, id: string, says: Says) returns (provider: string, endsAt: Time)
      ensures (provider, endsAt) ==
        if key in pool.entries && pool.entries[key].sessionID == id && pool.entries[key].provider != ""
        then (pool.entries[key].provider, pool.entries[key].expiresAt + 90 * SECOND) else (says.provider, says.endsAt)
    {
      if key in pool.entries && pool.entries[key].sessionID == id && pool.entries[key].provider != "" {
        return pool.entries[key].provider, pool.entries[key].expiresAt + EXPIRY_BUFFER;
      }
      return says.provider, says.endsAt;
    }

    /** Closes the failed session; false: the close did not land. Another session's mark stays as it is. */
    method CloseFailedSession(pool: Pools.Pool, id: string, says: Says, now: Time) returns (landed: bool)
      modifies pool
      ensures landed == says.Lands()
      ensures landed ==> pool.Abs() == Leases.Step(Leases.Step(old(pool.Abs()), Leases.ClearMark(id)), Leases.Forget(id))
      ensures !landed ==> MarksApart(old(pool.Abs()), id, pool.Abs())
      ensures Leases.Comes(old(pool.Abs()), pool.Abs())
    {
      hide Leases.Comes, Leases.Leads, Leases.Step;
      Leases.ComesToSelf(pool.Abs());
      if !says.slot {
        return false;
      }
      pool.BeginClose(id);
      Leases.LeadsComes(old(pool.Abs()), pool.Abs());
      ghost var marked := pool.Abs();
      var outcome := pool.FinishClose(id, says.answer, says.sawClosed, now);
      Leases.ComesOn(old(pool.Abs()), marked, pool.Abs());
      landed := outcome.OK? || outcome.Already?;
      ClosedIs(old(pool.Abs()), marked, id, Leases.Until(now + Pools.ROUTER_CLOSE_MAX_LIFE), landed, pool.Abs());
    }

    /** The same; a close that does not land is counted and left to the sweep. */
    method CloseNow(pool: Pools.Pool, id: string, says: Says, now: Time)
      modifies pool
      ensures CloseTried(old(pool.Abs()), id, says.Lands(), pool.Abs())
      ensures Leases.Comes(old(pool.Abs()), pool.Abs())
    {
      hide Leases.Comes, Leases.Step, CloseTried, Says.Lands;
      var landed := CloseFailedSession(pool, id, says, now);
      ghost var tried := pool.Abs();
      if !landed {
        Leases.StepComes(old(pool.Abs()), tried, Leases.FailoverCloseFailed(id));
        pool.FailoverCloseFailed(id);
      }
      TriedIs(old(pool.Abs()), id, tried, landed, pool.Abs());
    }

    /**
     One failover of a model off a failed session, under the model's open lock. The session is retired, and closed
     when nothing is in flight on it, only after another provider's bid was found; otherwise the pool is as it was.
     */
    method FailoverCtx(pool: Pools.Pool, key: string, id: string, keyID: string, reopen: bool, durationSec: int, says: Says, now: Time)
      returns (out: Outcome, lease: Option<nat>, ghost f: Failure)
      requires pool.chain(id) == key && !Leases.Named(pool.Abs(), key)
      modifies this`cooling, this`retired, this`cutNext, pool
      ensures f.model == key && f.id == id && f.reopen == reopen && f.durationSec == durationSec && f.now == now
      ensures !f.replaced && id !in old(retired) ==> Told(f, old(pool.entries), says)
      ensures (Abs(), out) == AfterFailure(old(Abs()), f)
      ensures !f.replaced && id !in old(retired) && f.provider != "" ==> Fits(old(Abs()), f)
      ensures f.replaced <==> old(Leases.Fresh(pool.Abs(), key, now)) && old(pool.entries)[key].sessionID != id
      ensures f.replaced && reopen ==> pool.Abs() == Leases.Step(old(pool.Abs()), Leases.FailoverReuse(key, id, keyID, now))
      ensures lease.Some? <==> reopen && old(Leases.Grants(pool.Abs(), Leases.FailoverReuse(key, id, keyID, now)))
      ensures lease.Some? ==> f.replaced && lease.value == old(pool.leases)
      ensures !out.Moved? && !(f.replaced && reopen) ==> pool.Abs() == old(pool.Abs())
      ensures out.Moved? ==> (out.closed <==> id in old(pool.sess) ==> old(pool.sess)[id].inflight == 0 && !old(pool.sess)[id].closing)
      ensures out.Moved? && !out.closed ==> pool.Abs() == Leases.Step(old(pool.Abs()), Leases.FailoverRetire(key, id, now))
      ensures out.Moved? && out.closed ==>
        CloseTried(Leases.Step(old(pool.Abs()), Leases.FailoverRetire(key, id, now)), id, says.Lands(), pool.Abs())
      ensures Leases.Comes(old(pool.Abs()), pool.Abs())
    {
      hide Leases.Comes, Leases.Step, CloseTried, Chosen, Cooled, Retired, Leases.Grants, Says.Lands;
      Leases.ComesToSelf(pool.Abs());
      ReuseGrants(pool.Abs(), key, id, keyID, now);
      Leases.StepComes(pool.Abs(), pool.Abs(), Leases.FailoverReuse(key, id, keyID, now));
      Leases.StepComes(pool.Abs(), pool.Abs(), Leases.FailoverRetire(key, id, now));
      f := Failure(key, id, false, "", 0, Rated.Unreadable, None, false, reopen, durationSec, now, NoAvailable(0));
      var replacement;
      replacement, lease := pool.ReuseReplacement(key, id, reopen, keyID, now);
      if replacement.Some? {
        f := f.(replaced := true);
        return Reused, lease, f;
      }
      if id in retired {
        return if reopen then OpenAgain else Reused, None, f;
      }
      var provider, endsAt := SessionProvider(pool, key, id, says);
      f := f.(provider := provider, endsAt := endsAt, rated := says.rated, healthy := says.healthy);
      if provider == "" {
        return Kept, None, f;
      }
      MarkCooling(key, provider, now);
      var choice := FilterCandidates(key, provider, says.rated, says.healthy, now);
      f := f.(choice := choice);
      if !choice.Open? {
        return Kept, None, f;
      }
      Retire(id, endsAt, durationSec, now);
      var closeNow := pool.RetireForFailover(key, id, now);
      f := f.(unheld := closeNow);
      if closeNow {
        ghost var retiredNow := pool.Abs();
        CloseNow(pool, id, says, now);
        Leases.ComesOn(old(pool.Abs()), retiredNow, pool.Abs());
      }
      if !reopen {
        cutNext := cutNext[key := provider];
      }
      return Moved(closeNow, choice.cands), None, f;
    }

    /** Pools and leases, in one section, what the open of a failover got. openedAt, endsAt: of a session found on chain. */
    method FinishFailoverOpen(pool: Pools.Pool, key: string, keyID: string, got: Result, durationSec: int,
                              openedAt: Time, endsAt: Time, now: Time)
      returns (lease: Option<nat>)
      requires got.Got? ==> pool.chain(got.session) == key
      modifies pool
      ensures got.Not? ==> lease.None? && pool.Abs() == old(pool.Abs())
      ensures got.Got? ==> lease == Some(old(pool.leases))
      ensures got.Got? ==>
        var begins, ends := if got.adopted then openedAt else now, if got.adopted then endsAt else now + durationSec * SECOND;
        && key in pool.entries && pool.entries[key] == Leases.Entry(got.session, ends - 90 * SECOND, got.provider)
        && got.session in pool.sess && pool.sess[got.session].openedAt == begins && pool.sess[got.session].endsAt == ends
      ensures got.Got? ==>
        pool.Abs() == Leases.Step(old(pool.Abs()), PoolsGot(key, keyID, got, durationSec, openedAt, endsAt, now))
    {
      if got.Not? {
        return None;
      }
      var begins := if got.adopted then openedAt else now;
      var ends := if got.adopted then endsAt else now + durationSec * SECOND;
      var e := Leases.Entry(got.session, ends - EXPIRY_BUFFER, got.provider);
      var n := pool.PoolOpened(key, e, begins, ends, keyID, now);
      lease := Some(n);
    }

    method CoolFaulted(model: string, faults: seq<Fault>)
      modifies this`cooling
      ensures Abs() == CooledAll(old(Abs()), model, faults)
    {
      hide Cooled;
      assert faults[..0] == [];
      for i := 0 to |faults|
        invariant Abs() == CooledAll(old(Abs()), model, faults[..i])
      {
        assert faults[..i + 1][..i] == faults[..i];
        MarkCooling(model, faults[i].provider, faults[i].at);
      }
      assert faults[..|faults|] == faults;
    }

    /** An open over the usable bids; got and faults: what its walk answers and which providers fault, if there is one to walk. */
    method OpenAvoidingCooling(model: string, rated: Rated, healthy: Option<set<string>>, got: Result, faults: seq<Fault>, now: Time)
      returns (c: Choice)
      modifies this`cooling, this`cutNext
      ensures Chosen(old(Abs()), model, "", rated, healthy, now, c)
      ensures c.Open? <==> HasBid(old(Abs()), model, rated, healthy, now)
      ensures model in old(cutNext) && old(cutNext)[model] != "" ==>
        (model !in cutNext <==> !HasBid(old(Abs()), model, rated, healthy, now) || got.Got? || got.why.Exhausted?)
      ensures forall k :: k in cutNext ==> k in old(cutNext) && cutNext[k] == old(cutNext)[k]
      ensures forall k :: k in old(cutNext) && k != model ==> k in cutNext
      ensures Abs() == AfterOpen(old(Abs()), model, c.Open?, got, faults)
    {
      hide Chosen, Cooled;
      var cut := if model in cutNext then cutNext[model] else "";
      c := FilterCandidates(model, "", rated, healthy, now);
      OpensIfUsable(Abs(), model, rated, healthy, now, c);
      if c.Open? {
        CoolFaulted(model, faults);
        CoolsOnly(old(Abs()), model, faults);
      }
      if cut != "" && (!c.Open? || got.Got? || got.why.Exhausted?) {
        cutNext := cutNext - {model};
      }
    }

    /**
     A failover to its end. got and faults: what its open answers and which providers fault in it, if it makes one; the
     router tells the model of the session. A request that asked to reopen has a lease just when it found another session
     in the slot that may be leased, or the open got one; that one is then in the slot, serving.
     */
    method FailAndReopen(pool: Pools.Pool, key: string, id: string, keyID: string, reopen: bool, durationSec: int, says: Says,
                         got: Result, faults: seq<Fault>, openedAt: Time, endsAt: Time, now: Time)
      returns (out: Outcome, lease: Option<nat>, ghost f: Failure, walked: bool)
      requires pool.chain(id) == key && !Leases.Named(pool.Abs(), key)
      requires got.Got? ==> pool.chain(got.session) == key
      modifies this`cooling, this`retired, this`cutNext, pool
      ensures f.model == key && f.id == id && f.reopen == reopen && f.durationSec == durationSec && f.now == now
      ensures !f.replaced && id !in old(retired) && f.provider != "" ==> Fits(old(Abs()), f)
      ensures !f.replaced && id !in old(retired) ==> Told(f, old(pool.entries), says)
      ensures out == AfterFailure(old(Abs()), f).1
      ensures f.replaced <==> old(key in pool.entries && now < pool.entries[key].expiresAt && pool.entries[key].sessionID != id)
      ensures out.OpenAgain? <==> !f.replaced && id in old(retired) && reopen
      ensures out.Kept? <==> !f.replaced && id !in old(retired) && (f.provider == "" || !HasAlternate(old(Abs()), f))
      ensures out.Moved? <==> !f.replaced && id !in old(retired) && f.provider != "" && HasAlternate(old(Abs()), f)
      ensures !f.replaced && id in old(retired) && reopen ==>
        (walked <==> HasBid(old(Abs()), key, says.rated, says.healthy, now))
      ensures !f.replaced && reopen && (out.Moved? || id in old(retired)) ==> (lease.Some? <==> walked && got.Got?)
      ensures !f.replaced && reopen && out.Moved? ==> walked
      ensures var m := AfterFailure(old(Abs()), f).0;
        && (out.OpenAgain? ==> Abs() == AfterOpen(m, key, walked, got, faults))
        && (out.Moved? && reopen ==> walked && Abs() == CooledAll(m, key, faults))
        && (!out.OpenAgain? && !(out.Moved? && reopen) ==> !walked && Abs() == m)
      ensures walked && got.Got? ==> lease.Some? && Holding(pool.Abs(), key, got, lease.value)
      ensures lease.Some? <==>
        (walked && got.Got?) || (reopen && old(Leases.Grants(pool.Abs(), Leases.FailoverReuse(key, id, keyID, now))))
      ensures out.Kept? ==> lease.None? && pool.Abs() == old(pool.Abs())
      ensures Leases.Comes(old(pool.Abs()), pool.Abs())
    {
      hide Leases.Comes, Leases.Step, CloseTried, Chosen, AfterFailure, AfterOpen, CooledAll, HasBid, HasAlternate;
      out, lease, f := FailoverCtx(pool, key, id, keyID, reopen, durationSec, says, now);
      OutcomeIs(old(Abs()), f);
      FailureDecides(old(Abs()), f);
      walked := false;
      if out.OpenAgain? {
        var c := OpenAvoidingCooling(key, says.rated, says.healthy, got, faults, now);
        walked := c.Open?;
      } else if out.Moved? && reopen {
        CoolFaulted(key, faults);
        walked := true;
      }
      if walked {
        ghost var t := pool.Abs();
        lease := FinishFailoverOpen(pool, key, keyID, got, durationSec, openedAt, endsAt, now);
        if got.Got? {
          Leases.StepComes(old(pool.Abs()), t, PoolsGot(key, keyID, got, durationSec, openedAt, endsAt, now));
          GotIsHeld(t, key, keyID, got, durationSec, openedAt, endsAt, now);
        }
      }
    }
  }

  /** The failure went by what it was told; a slot that holds the session tells its provider. */
  predicate Told(f: Failure, entries: map<string, Leases.Entry>, says: Says) {
    && f.rated == says.rated && f.healthy == says.healthy
    && (f.provider, f.endsAt) ==
         if f.model in entries && entries[f.model].sessionID == f.id && entries[f.model].provider != ""
         then (entries[f.model].provider, entries[f.model].expiresAt + 90 * SECOND) else (says.provider, says.endsAt)
  }

  lemma OpensIfUsable(m: Memory, model: string, rated: Rated, healthy: Option<set<string>>, now: Time, c: Choice)
    requires Chosen(m, model, "", rated, healthy, now, c)
    ensures c.Open? <==> HasBid(m, model, rated, healthy, now)
  {
    if healthy.Some? {
      CandidatesAreUsable(m, model, "", rated, healthy.value, now, c);
      forall b ensures Offers(m, model, rated, healthy.value, now, b) <==> Usable(m, model, "", Listed(rated), healthy.value, b, now) {
      }
    }
  }

  lemma {:induction false} CoolsOnly(m: Memory, model: string, faults: seq<Fault>)
    ensures CooledAll(m, model, faults) == m.(cooling := CooledAll(m, model, faults).cooling)
  {
    if faults != [] {
      CoolsOnly(m, model, faults[..|faults| - 1]);
    }
  }

  lemma ReuseGrants(s: Leases.State, key: string, id: string, keyID: string, now: Time)
    ensures Leases.Grants(s, Leases.FailoverReuse(key, id, keyID, now)) <==>
      Leases.Step(s, Leases.FailoverReuse(key, id, keyID, now)).leases > s.leases
    ensures Leases.Grants(s, Leases.FailoverReuse(key, id, keyID, now)) ==> Leases.Fresh(s, key, now) && s.entries[key].sessionID != id
  {
    Leases.HandOutGrants(s, Leases.FailoverReuse(key, id, keyID, now));
  }

  /** The section that pools what an open got. */
  function PoolsGot(key: string, keyID: string, got: Result, durationSec: int, openedAt: Time, endsAt: Time, now: Time): (e: Leases.Event)
    requires got.Got?
    ensures e.PoolOpened? && e.key == key && e.e.sessionID == got.session
  {
    var begins := if got.adopted then openedAt else now;
    var ends := if got.adopted then endsAt else now + durationSec * SECOND;
    Leases.PoolOpened(key, Leases.Entry(got.session, ends - EXPIRY_BUFFER, got.provider), begins, ends, keyID, now)
  }

  /** The slot of key holds the session got, which serves, and lease n is live on it. */
  predicate Holding(s: Leases.State, key: string, got: Result, n: nat)
    requires got.Got?
  {
    && key in s.entries && s.entries[key].sessionID == got.session && s.entries[key].provider == got.provider
    && Leases.Serving(s, got.session) && s.sess[got.session].inflight == 1
    && n in s.open && s.open[n] == got.session
  }

  lemma GotIsHeld(s: Leases.State, key: string, keyID: string, got: Result, durationSec: int, openedAt: Time, endsAt: Time, now: Time)
    requires got.Got? && s.chain(got.session) == key
    ensures Holding(Leases.Step(s, PoolsGot(key, keyID, got, durationSec, openedAt, endsAt, now)), key, got, s.leases)
  {
  }

  lemma OutcomeIs(m: Memory, f: Failure)
    ensures AfterFailure(m, f).1.Moved? ==> !f.replaced
    ensures AfterFailure(m, f).1.OpenAgain? ==> !f.replaced && f.reopen
    ensures AfterFailure(m, f).1.Kept? ==> !f.replaced
  {
  }

  lemma {:induction false} SameFilter(s: seq<Bid>, p: Bid -> bool, q: Bid -> bool)
    requires forall b :: p(b) == q(b)
    ensures Filter(s, p) == Filter(s, q)
  {
    if s != [] {
      SameFilter(s[1..], p, q);
    }
  }

  method Keep(s: seq<Bid>, p: Bid -> bool) returns (r: seq<Bid>)
    ensures r == Filter(s, p)
  {
    r := [];
    for i := 0 to |s|
      invariant r + Filter(s[i..], p) == Filter(s, p)
    {
      if p(s[i]) {
        r := r + [s[i]];
      }
    }
  }
}
