/**
 One open operation: candidates' bids walked in order, each POSTed by bid, every answer classified. What the router
 answers, how long it takes and when the caller leaves are arbitrary: a World says them, call by call.
 */
module OpenWalk {
  import opened Basics
  import opened OpenErrors
  import opened Stake

  const MAX_BID_ATTEMPTS := 3
  const TRANSIENT_MAX_RETRIES := 4
  const MAX_WINDOW_RETRIES := 1
  const TRANSIENT_BUDGET: Time := 15 * SECOND
  const OPEN_MIN_POST_TIME: Time := 25 * SECOND
  const RECONCILE_RESERVE: Time := 10 * SECOND
  const READ_CALL_TIMEOUT: Time := 10 * SECOND
  const RECONCILE_POLLS := 3
  const RECONCILE_GAP: Time := 2 * SECOND

  /** A rated bid; its provider in normal form, its price per second in wei if it has one. */
  datatype Bid = Bid(id: string, provider: string, pps: Option<int>)

  datatype Answer = Opened(session: string) | Existing(session: string) | Failed(err: RouterError)

  datatype Kind = DidOpen | Refused | Erred(openClass: OpenClass)
  {
    /** The same bid is tried again. */
    predicate Again() {
      this == Erred(TransientPreSend) || this == Erred(TransientWindow)
    }

    /** The walk moves on to another provider. */
    predicate Next() {
      this == Erred(ProviderFault)
    }

    /** The attempt is not dropped: an open may still land from it. */
    predicate Stays() {
      this == Erred(TransientWindow) || this == Erred(MaybeSent)
    }
  }

  /** One POST of the bid in that row: when it started, how long it took, what came back and what that meant. */
  datatype Post = Post(row: nat, start: Time, elapsed: Time, answer: Answer, kind: Kind)

  datatype Refusal =
    | LimitInvalid
    | InputsUnreadable
    | Cancelled
    | Transient(retryAfter: Time)
    | ChainWait(reason: WaitReason)
    | NeedsFunds
    | OverCap(need: Option<nat>, cap: int)
    | NoneTried
    | Exhausted(tried: nat)

  datatype Result = Got(session: string, provider: string, adopted: bool) | Not(why: Refusal)

  /** A session the router named: it could not be read, the pool may not use it, or it is taken over. */
  datatype Named = Unread | NotUsable | Taken(provider: string)

  datatype Found = Found(session: string, provider: string)

  /**
   What an operation meets: the answer to its k-th POST and how long that takes, what its k-th look at the wallet's
   sessions finds, whether its k-th read of the rated bids is rate-limited, and when its caller leaves.
   */
  datatype World = World(answers: nat -> Answer, takes: nat -> nat, finds: nat -> Option<Found>, names: string -> Named,
                         limits: nat -> bool, leaves: Option<Time>)

  function KindOf(a: Answer, elapsed: Time, windowOK: bool): Kind {
    match a
    case Opened(_) => DidOpen
    case Existing(_) => Refused
    case Failed(err) => Erred(Classify(err, elapsed, windowOK))
  }

  /** What a walk is given: the candidates, the cap and the stake inputs, the session length. */
  datatype Job = Job(alts: seq<Bid>, cap: Option<int>, inputs: Inputs, sec: int)
  {
    function StakeOf(b: Bid): Option<nat> {
      StakeForDurationWei(inputs, b.pps, sec)
    }

    /** May be POSTed: with a cap set, its stake can be computed and is not above it. */
    predicate Affordable(b: Bid) {
      cap.Some? ==> StakeOf(b).Some? && StakeOf(b).value <= cap.value
    }

    /** Row is the first after from that has an untried provider and may be POSTed. */
    ghost predicate IsNext(from: nat, tried: set<string>, row: nat) {
      && from <= row < |alts| && alts[row].provider !in tried && Affordable(alts[row])
      && forall j :: from <= j < row ==> alts[j].provider in tried || !Affordable(alts[j])
    }
  }

  ghost function Tried(job: Job, log: seq<Post>): set<string>
    requires InRange(job, log)
  {
    set k | 0 <= k < |log| :: job.alts[log[k].row].provider
  }

  ghost predicate InRange(job: Job, log: seq<Post>) {
    forall k :: 0 <= k < |log| ==> log[k].row < |job.alts|
  }

  ghost function Faulted(job: Job, log: seq<Post>): set<string>
    requires InRange(job, log)
  {
    set k | 0 <= k < |log| && log[k].kind.Next() :: job.alts[log[k].row].provider
  }

  /** The POSTs whose attempt is not dropped: an open may still land from it. */
  ghost function Staying(log: seq<Post>): set<nat> {
    set k | 0 <= k < |log| && log[k].kind.Stays()
  }

  function Windows(log: seq<Post>): nat {
    if log == [] then 0
    else Windows(log[..|log| - 1]) + if log[|log| - 1].kind == Erred(TransientWindow) then 1 else 0
  }

  /**
   The walk a log must be. The first POST is of the first bid that may be POSTed. After a chain-stage error the same
   bid is POSTed again; after a provider fault the next bid of an untried provider is; after any other answer nothing.
   Every POST leaves time to reconcile before the slot's deadline, and its kind is what its answer means.
   */
  ghost predicate Follows(job: Job, rpc: bool, windows0: nat, deadline: Time, log: seq<Post>)
    decreases |log|
  {
    log == [] ||
    (var n := |log| - 1;
     var before, post := log[..n], log[n];
     && Follows(job, rpc, windows0, deadline, before)
     && MayPost(job, before, post.row)
     && post.start + OPEN_MIN_POST_TIME + RECONCILE_RESERVE <= deadline
     && post.kind == KindOf(post.answer, post.elapsed, rpc && windows0 + Windows(before) < MAX_WINDOW_RETRIES))
  }

  /** The row the walk may POST next. */
  ghost predicate MayPost(job: Job, log: seq<Post>, row: nat) {
    InRange(job, log) && row < |job.alts|
    && if log == [] then job.IsNext(0, {}, row)
       else
         var last := log[|log| - 1];
         if last.kind.Again() then row == last.row else last.kind.Next() && job.IsNext(last.row, Tried(job, log), row)
  }

  lemma PostedOnce(job: Job, rpc: bool, w: nat, deadline: Time, log: seq<Post>, post: Post)
    requires Follows(job, rpc, w, deadline, log) && MayPost(job, log, post.row)
    requires post.start + OPEN_MIN_POST_TIME + RECONCILE_RESERVE <= deadline
    requires post.kind == KindOf(post.answer, post.elapsed, rpc && w + Windows(log) < MAX_WINDOW_RETRIES)
    ensures Follows(job, rpc, w, deadline, log + [post]) && InRange(job, log + [post])
    ensures Windows(log + [post]) == Windows(log) + if post.kind == Erred(TransientWindow) then 1 else 0
    ensures post.kind.Again() ==> MayPost(job, log + [post], post.row)
  {
    hide KindOf, StakeForDurationWei, Tried;
    assert (log + [post])[..|log|] == log;
  }

  lemma StayingNext(log: seq<Post>, post: Post)
    ensures Staying(log + [post]) == Staying(log) + if post.kind.Stays() then {|log|} else {}
    ensures |log| !in Staying(log)
  {
    var more := log + [post];
    assert forall k :: 0 <= k < |log| ==> more[k] == log[k];
  }

  lemma {:induction false} FollowsInRange(job: Job, rpc: bool, w: nat, deadline: Time, log: seq<Post>)
    requires Follows(job, rpc, w, deadline, log)
    ensures InRange(job, log)
    ensures forall k :: 0 <= k < |log| ==> job.Affordable(job.alts[log[k].row])
  {
    hide KindOf, StakeForDurationWei, Tried, Windows;
    if log != [] {
      var n := |log| - 1;
      FollowsInRange(job, rpc, w, deadline, log[..n]);
      forall k | 0 <= k < |log| ensures log[k].row < |job.alts| && job.Affordable(job.alts[log[k].row]) {
        if k < n {
          assert log[..n][k] == log[k];
        } else if n > 0 {
          assert log[..n][n - 1] == log[n - 1];
        }
      }
    }
  }

  lemma NothingPosted(job: Job, rpc: bool, w: nat, deadline: Time)
    ensures Follows(job, rpc, w, deadline, []) && InRange(job, []) && Windows([]) == 0
    ensures Tried(job, []) == {} && Faulted(job, []) == {} && Staying([]) == {}
  {
    hide KindOf;
  }

  /** New POSTs of one row add its provider, and only a fault at the end counts against it. */
  lemma PostedOneBid(job: Job, before: seq<Post>, log: seq<Post>, row: nat)
    requires row < |job.alts| && InRange(job, before) && InRange(job, log) && before <= log
    requires forall k :: |before| <= k < |log| ==> log[k].row == row && (log[k].kind.Next() ==> k == |log| - 1)
    ensures Tried(job, log) == Tried(job, before) + (if |log| > |before| then {job.alts[row].provider} else {})
    ensures Faulted(job, log) == Faulted(job, before)
      + (if |log| > |before| && log[|log| - 1].kind.Next() then {job.alts[row].provider} else {})
  {
    var p := job.alts[row].provider;
    forall x | x in Tried(job, before) ensures x in Tried(job, log) {
      var k :| 0 <= k < |before| && job.alts[before[k].row].provider == x;
      assert log[k] == before[k];
    }
    forall x | x in Faulted(job, before) ensures x in Faulted(job, log) {
      var k :| 0 <= k < |before| && before[k].kind.Next() && job.alts[before[k].row].provider == x;
      assert log[k] == before[k];
    }
    if |log| > |before| {
      assert log[|log| - 1].row == row;
    }
    forall x | x in Tried(job, log) ensures x in Tried(job, before) || (x == p && |log| > |before|) {
      var k :| 0 <= k < |log| && job.alts[log[k].row].provider == x;
      if k < |before| {
        assert before[k] == log[k];
      }
    }
    forall x | x in Faulted(job, log) ensures x in Faulted(job, before) || (x == p && |log| > |before| && log[|log| - 1].kind.Next()) {
      var k :| 0 <= k < |log| && log[k].kind.Next() && job.alts[log[k].row].provider == x;
      if k < |before| {
        assert before[k] == log[k];
      }
    }
  }

  /** Every row before i was tried or may not be POSTed. */
  ghost predicate WalkedTo(job: Job, tried: set<string>, i: nat)
    requires i <= |job.alts|
  {
    forall j :: 0 <= j < i ==> job.alts[j].provider in tried || !job.Affordable(job.alts[j])
  }

  /** need is the stake of one bid passed over, above the cap, and no priced bid of an untried provider needs less. */
  ghost predicate NeedOf(job: Job, tried: set<string>, i: nat, need: Option<nat>)
    requires i <= |job.alts|
  {
    && (need.Some? ==> job.cap.Some? && need.value > job.cap.value
                       && exists j :: 0 <= j < i && job.StakeOf(job.alts[j]) == need)
    && (forall j :: 0 <= j < i && job.alts[j].provider !in tried && job.cap.Some? && job.StakeOf(job.alts[j]).Some? ==>
          need.Some? && need.value <= job.StakeOf(job.alts[j]).value)
  }

  /** Whether some bid before i was passed over for its stake. */
  ghost predicate SkipsOf(job: Job, tried: set<string>, i: nat, skipped: nat)
    requires i <= |job.alts|
  {
    if skipped > 0 then job.cap.Some? && exists j :: 0 <= j < i && !job.Affordable(job.alts[j])
    else forall j :: 0 <= j < i ==> job.alts[j].provider in tried
  }

  /** Where the walk stands before row i. */
  ghost predicate At(job: Job, tried: set<string>, i: nat, skipped: nat, need: Option<nat>) {
    i <= |job.alts| && WalkedTo(job, tried, i) && SkipsOf(job, tried, i, skipped) && NeedOf(job, tried, i, need)
  }

  lemma PassTried(job: Job, tried: set<string>, i: nat, skipped: nat, need: Option<nat>)
    requires i < |job.alts| && At(job, tried, i, skipped, need) && job.alts[i].provider in tried
    ensures At(job, tried, i + 1, skipped, need)
  {
    hide StakeForDurationWei;
    if skipped > 0 {
      var j :| 0 <= j < i && !job.Affordable(job.alts[j]);
      assert 0 <= j < i + 1 && !job.Affordable(job.alts[j]);
    }
  }

  lemma PassDear(job: Job, tried: set<string>, i: nat, skipped: nat, need: Option<nat>)
    requires i < |job.alts| && At(job, tried, i, skipped, need) && !job.Affordable(job.alts[i])
    ensures var st := job.StakeOf(job.alts[i]);
      At(job, tried, i + 1, skipped + 1, if st.Some? && (need.None? || st.value < need.value) then st else need)
  {
    hide StakeForDurationWei;
    var st := job.StakeOf(job.alts[i]);
    assert 0 <= i < i + 1 && !job.Affordable(job.alts[i]);
    if need.Some? {
      var j :| 0 <= j < i && job.StakeOf(job.alts[j]) == need;
      assert 0 <= j < i + 1 && job.StakeOf(job.alts[j]) == need;
    }
  }

  lemma PassPosted(job: Job, tried: set<string>, i: nat, skipped: nat, need: Option<nat>)
    requires i < |job.alts| && At(job, tried, i, skipped, need)
    ensures At(job, tried + {job.alts[i].provider}, i + 1, skipped, need)
  {
    hide StakeForDurationWei;
    var more := tried + {job.alts[i].provider};
    assert At(job, more, i, skipped, need);
    PassTried(job, more, i, skipped, need);
  }

  lemma ReadyToPost(job: Job, log: seq<Post>, i: nat, skipped: nat, need: Option<nat>)
    requires InRange(job, log) && i < |job.alts| && At(job, Tried(job, log), i, skipped, need)
    requires log != [] ==> log[|log| - 1].kind.Next() && log[|log| - 1].row < i
    requires job.alts[i].provider !in Tried(job, log) && job.Affordable(job.alts[i])
    ensures MayPost(job, log, i)
  {
    hide StakeForDurationWei;
    if log == [] {
      assert Tried(job, log) == {};
    }
  }

  lemma TriedNone(job: Job, log: seq<Post>)
    requires InRange(job, log)
    ensures |Tried(job, log)| == 0 <==> log == []
  {
    if log != [] {
      assert job.alts[log[0].row].provider in Tried(job, log);
    }
  }

  lemma AtStart(job: Job)
    ensures At(job, {}, 0, 0, None)
  {
  }

  lemma FinishedAt(job: Job, log: seq<Post>, i: nat, skipped: nat, need: Option<nat>)
    requires InRange(job, log) && At(job, Tried(job, log), i, skipped, need)
    requires i == |job.alts| || |Tried(job, log)| >= MAX_BID_ATTEMPTS
    ensures skipped > 0 ==> job.cap.Some? && Finished(job, log, Not(OverCap(need, job.cap.value)))
    ensures skipped == 0 ==> Finished(job, log, Not(if |Tried(job, log)| == 0 then NoneTried else Exhausted(|Tried(job, log)|)))
  {
    hide StakeForDurationWei;
    if skipped > 0 {
      var j :| 0 <= j < i && !job.Affordable(job.alts[j]);
      assert 0 <= j < |job.alts| && !job.Affordable(job.alts[j]);
      if need.Some? {
        var k :| 0 <= k < i && job.StakeOf(job.alts[k]) == need;
        assert 0 <= k < |job.alts| && job.StakeOf(job.alts[k]) == need;
      }
    } else {
      TriedNone(job, log);
      assert job.alts != [] && i > 0 ==> job.alts[0].provider in Tried(job, log);
    }
  }

  /** A walk with nothing more to try: three providers faulted, or no candidate is left. */
  ghost predicate Finished(job: Job, log: seq<Post>, r: Result)
    requires InRange(job, log)
  {
    var tried := Tried(job, log);
    && r.Not?
    && (|tried| < MAX_BID_ATTEMPTS ==> WalkedTo(job, tried, |job.alts|))
    && match r.why {
      case OverCap(need, cap) =>
        && job.cap == Some(cap)
        && (exists j :: 0 <= j < |job.alts| && !job.Affordable(job.alts[j]))
        && (need.Some? ==> need.value > cap && exists j :: 0 <= j < |job.alts| && job.StakeOf(job.alts[j]) == need)
        && (|tried| < MAX_BID_ATTEMPTS ==> NeedOf(job, tried, |job.alts|, need))
      case NoneTried => job.alts == [] && log == []
      case Exhausted(n) =>
        n == |tried| > 0 && (n < MAX_BID_ATTEMPTS ==> forall j :: 0 <= j < |job.alts| ==> job.alts[j].provider in tried)
      case _ => false
    }
  }

  class OpenOp {
    const start: Time
    const deadline: Time
    const rpc: bool                 // the operator set the router's chain RPC
    const world: World
    var clock: Time
    var retries: nat
    var windowRetries: nat
    var cooling: set<string>
    var asked: nat                  // reads of the rated bids
    var polls: nat                  // looks at the wallet's sessions
    var posts: nat
    var pending: set<nat>           // the POSTs whose attempt is still pending
    ghost var log: seq<Post>

    constructor (start: Time, deadline: Time, rpc: bool, world: World)
      ensures clock == this.start == start && this.deadline == deadline && this.rpc == rpc && this.world == world
      ensures retries == 0 && windowRetries == 0 && cooling == {} && log == [] && asked == 0 && polls == 0 && posts == 0 && pending == {}
    {
      this.start, this.deadline, this.rpc, this.world, clock := start, deadline, rpc, world, start;
      retries, windowRetries, cooling, asked, polls, posts, pending, log := 0, 0, {}, 0, 0, 0, {}, [];
    }

    predicate Left()
      reads this`clock
    {
      world.leaves.Some? && world.leaves.value <= clock
    }

    /** No POST is begun any more: there would be no time left to look for what it opened. */
    predicate OutOfTime()
      reads this`clock
    {
      deadline - clock < 35 * SECOND
    }

    /** No transient error is waited out any more. */
    predicate OutOfRetries()
      reads this`clock, this`retries
    {
      !rpc || Left() || retries >= 4 || clock - start + 4 * SECOND > 15 * SECOND || clock + 4 * SECOND > deadline
    }

    /** Time passes, as long as it likes. */
    method Tick()
      modifies this`clock
      ensures clock >= old(clock)
    {
      var d: int := *;
      if d > 0 {
        clock := clock + d;
      }
    }

    /** Waits at least that long, unless the caller leaves meanwhile. */
    method Sleep(least: Time) returns (ok: bool)
      requires least >= 0
      modifies this`clock
      ensures clock >= old(clock) && (ok ==> clock >= old(clock) + least) && (!ok ==> Left())
    {
      var until := clock + least;
      Tick();
      if Left() {
        return false;
      }
      if clock < until {
        clock := until;
      }
      return true;
    }

    /** Waits before the next transient retry; refused: no operator RPC, no retry or time left, or the caller left. */
    method Backoff() returns (d: Time, ok: bool)
      modifies this`clock, this`retries
      ensures d == Min(Doubled(old(retries)), TRANSIENT_CAP) && clock >= old(clock)
      ensures retries == old(retries) + if ok then 1 else 0
      ensures ok ==> rpc && old(retries) < TRANSIENT_MAX_RETRIES && clock >= old(clock) + d / 2
      ensures ok ==> old(clock) - start + d <= TRANSIENT_BUDGET && old(clock) + d <= deadline
      ensures !ok ==> OutOfRetries()
    {
      d := BackoffStep(retries);
      if !rpc {
        return d, false;
      }
      if retries >= TRANSIENT_MAX_RETRIES || clock - start + d > TRANSIENT_BUDGET || clock + d > deadline || Left() {
        return d, false;
      }
      ok := Sleep(d / 2);
      if ok {
        retries := retries + 1;
      }
    }

    /** Looks for the session of an open that may have been sent. */
    method Reconcile(reason: Option<WaitReason>) returns (r: Result)
      modifies this`clock, this`polls
      ensures old(polls) <= polls <= old(polls) + RECONCILE_POLLS
      ensures forall k: nat :: old(polls) <= k < polls - (if r.Got? then 1 else 0) ==> world.finds(k).None?
      ensures r.Got? ==> r.adopted && polls > old(polls) && world.finds(polls - 1) == Some(Found(r.session, r.provider))
      ensures r.Not? ==> polls == old(polls) + 3 || deadline - clock < 7 * SECOND
      ensures r.Not? ==> r.why == if reason.Some? then ChainWait(reason.value) else Transient(TRANSIENT_CAP)
    {
      var i := 0;
      while i < RECONCILE_POLLS
        invariant polls == old(polls) + i && i <= RECONCILE_POLLS
        invariant forall k: nat :: old(polls) <= k < polls ==> world.finds(k).None?
      {
        if i > 0 {
          if deadline - clock < RECONCILE_GAP + READ_CALL_TIMEOUT / 2 {
            break;
          }
          Tick();
        }
        if deadline - clock <= 0 {
          break;
        }
        Tick();
        var found := world.finds(polls);
        polls := polls + 1;
        if found.Some? {
          return Got(found.value.session, found.value.provider, true);
        }
        i := i + 1;
      }
      return Not(if reason.Some? then ChainWait(reason.value) else Transient(TRANSIENT_CAP));
    }

    /** The session the router named: read, and taken if the pool may use it. */
    method AdoptExisting(session: string) returns (r: Result)
      modifies this`clock
      ensures Adopts(session, r)
      ensures r == Not(Cancelled) ==> Left()
    {
      Tick();
      var named := world.names(session);
      if named.Unread? {
        return Not(if Left() then Cancelled else Transient(TRANSIENT_CAP));
      }
      if named.NotUsable? {
        return Not(Transient(TRANSIENT_CAP));
      }
      return Got(session, named.provider, true);
    }

    predicate Adopts(session: string, r: Result) {
      match world.names(session)
      case Taken(provider) => r == Got(session, provider, true)
      case NotUsable => r == Not(Transient(TRANSIENT_CAP))
      case Unread => r == Not(Transient(TRANSIENT_CAP)) || r == Not(Cancelled)
    }

    /** What the result says of the last POST. */
    ghost predicate Ends(job: Job, r: Result, last: Post)
      requires last.row < |job.alts|
    {
      && (r.Got? && !r.adopted <==> last.kind.DidOpen?)
      && (r.Got? && !r.adopted ==> last.answer == Opened(r.session) && r.provider == job.alts[last.row].provider)
      && (r.Got? && r.adopted ==> last.kind.Refused? || last.kind == Erred(MaybeSent))
      && (last.kind.Refused? ==> last.answer.Existing? && Adopts(last.answer.session, r))
      && (r == Not(NeedsFunds) <==> last.kind == Erred(WalletFunds))
      && (r.Not? && last.kind == Erred(MaybeSent) ==>
            last.answer.Failed?
            && var reason := ChainWaitReason(last.answer.err);
               r.why == if reason.Some? then ChainWait(reason.value) else Transient(TRANSIENT_CAP))
      && (r.Not? && last.kind.Again() ==> r == Not(Cancelled) || (r.why.Transient? && SECOND <= r.why.retryAfter <= TRANSIENT_CAP))
    }

    /** Attempts are pending exactly for the POSTs that stay, but one that was found on chain. */
    ghost predicate PendingFits(r: Result)
      reads this
    {
      && posts == |log|
      && pending == Staying(log) - (if r.Got? && log != [] && log[|log| - 1].kind == Erred(MaybeSent) then {|log| - 1} else {})
    }

    /** Every POST was begun before the caller left; its answer and how long it took are the world's. */
    ghost predicate Heard()
      reads this`log
    {
      forall k: nat :: k < |log| ==>
        log[k].answer == world.answers(k) && log[k].elapsed == world.takes(k)
        && (world.leaves.Some? ==> log[k].start < world.leaves.value)
    }

    /** A last POST that may have been sent was looked for: found, or three looks or the time left did not find it. */
    ghost predicate LookedFor(r: Result)
      reads this
    {
      if log == [] || log[|log| - 1].kind != Erred(MaybeSent) then polls == 0
      else
        && (forall k: nat :: k < polls - (if r.Got? then 1 else 0) ==> world.finds(k).None?)
        && (r.Got? ==> polls > 0 && world.finds(polls - 1) == Some(Found(r.session, r.provider)))
        && (r.Not? ==> polls == 3 || deadline - clock < 7 * SECOND)
    }

    /**
     A walk whose caller is still there gives up before its end only for want of time or retries: else the last POST's
     answer ended it, or no candidate was left to try.
     */
    ghost predicate Answered(job: Job, r: Result)
      requires InRange(job, log)
      reads this
    {
      && (log == [] || log[|log| - 1].kind.Next() ==> OutOfTime() || Finished(job, log, r))
      && (log != [] && log[|log| - 1].kind.Again() ==> OutOfTime() || OutOfRetries())
    }

    lemma NothingHeard()
      requires log == []
      ensures Heard()
    {
    }

    /** There was nothing to look for. */
    lemma NoneSought(r: Result)
      requires polls == 0 && (log == [] || log[|log| - 1].kind.Next() || log[|log| - 1].kind.Again())
      ensures LookedFor(r)
    {
    }

    lemma AnsweredAtEnd(job: Job, r: Result)
      requires InRange(job, log) && Finished(job, log, r) && (log == [] || log[|log| - 1].kind.Next())
      ensures Answered(job, r)
    {
      hide Finished;
    }

    lemma NoneFound(r: Result)
      requires r.Not? && posts == |log| && pending == Staying(log)
      ensures PendingFits(r)
    {
    }

    method DropAttempt(post: nat)
      modifies this`pending
      ensures pending == old(pending) - {post}
    {
      pending := pending - {post};
    }

    /** One POST, and what its answer means. */
    method PostBid(job: Job, row: nat) returns (answer: Answer, kind: Kind)
      requires Windows(log) <= windowRetries && Follows(job, rpc, windowRetries - Windows(log), deadline, log)
      requires MayPost(job, log, row) && deadline - clock >= OPEN_MIN_POST_TIME + RECONCILE_RESERVE
      requires posts == |log| && pending == Staying(log) && Heard() && !Left()
      modifies this`clock, this`log, this`posts, this`pending
      ensures |log| == |old(log)| + 1 && old(log) < log && posts == |log| && Heard()
      ensures var last := log[|log| - 1]; last.start == old(clock) && last.elapsed == clock - last.start
      ensures |old(log)| !in Staying(old(log)) && pending == Staying(old(log)) + {|old(log)|}
      ensures Staying(log) == Staying(old(log)) + (if kind.Stays() then {|old(log)|} else {})
      ensures var last := log[|log| - 1]; last.row == row && last.answer == answer && last.kind == kind
      ensures InRange(job, log) && Follows(job, rpc, windowRetries - Windows(old(log)), deadline, log)
      ensures Windows(log) == Windows(old(log)) + if kind == Erred(TransientWindow) then 1 else 0
      ensures kind.Again() ==> MayPost(job, log, row)
      ensures kind.DidOpen? <==> answer.Opened?
      ensures kind.Refused? <==> answer.Existing?
    {
      hide Follows, MayPost, Classify, Windows, Staying;
      pending, posts := pending + {posts}, posts + 1;
      var start := clock;
      answer := world.answers(posts - 1);
      clock := clock + world.takes(posts - 1);
      var elapsed := clock - start;
      kind := KindOf(answer, elapsed, rpc && windowRetries < MAX_WINDOW_RETRIES);
      PostedOnce(job, rpc, windowRetries - Windows(log), deadline, log, Post(row, start, elapsed, answer, kind));
      StayingNext(log, Post(row, start, elapsed, answer, kind));
      log := log + [Post(row, start, elapsed, answer, kind)];
    }

    /** Reads the rated bids, again after a back-off while the read is rate-limited. */
    method ReadCandidates() returns (refusal: Option<Refusal>)
      modifies this`clock, this`retries, this`asked
      ensures retries >= old(retries) && (retries > old(retries) ==> rpc && retries <= TRANSIENT_MAX_RETRIES)
      ensures old(asked) <= asked <= old(asked) + 1 + retries - old(retries)
      ensures refusal.None? ==> asked > old(asked) && !world.limits(asked - 1)
      ensures forall k: nat :: old(asked) <= k < asked - (if refusal.None? then 1 else 0) ==> world.limits(k)
      ensures refusal.Some? ==>
        (refusal.value == Cancelled || (refusal.value.Transient? && SECOND <= refusal.value.retryAfter <= TRANSIENT_CAP))
      ensures refusal == Some(Cancelled) ==> Left()
      ensures refusal.Some? && !Left() ==> asked > old(asked) && OutOfRetries()
    {
      while true
        invariant retries >= old(retries) && (retries > old(retries) ==> rpc && retries <= TRANSIENT_MAX_RETRIES)
        invariant old(asked) <= asked <= old(asked) + retries - old(retries)
        invariant forall k: nat :: old(asked) <= k < asked ==> world.limits(k)
        decreases TRANSIENT_MAX_RETRIES - retries
      {
        if Left() {
          return Some(Cancelled);
        }
        Tick();
        var limited := world.limits(asked);
        asked := asked + 1;
        if !limited {
          return None;
        }
        var d, ok := Backoff();
        if !ok {
          var retryAfter := ClampTransient(d);
          return Some(if Left() then Cancelled else Transient(retryAfter));
        }
      }
    }

    /** One POST and what follows from its answer, short of a back-off. */
    method TryBid(job: Job, row: nat) returns (kind: Kind, r: Result)
      requires Windows(log) <= windowRetries && Follows(job, rpc, windowRetries - Windows(log), deadline, log)
      requires row < |job.alts| && MayPost(job, log, row) && posts == |log| && pending == Staying(log)
      requires deadline - clock >= OPEN_MIN_POST_TIME + RECONCILE_RESERVE && Heard() && !Left() && polls == 0
      modifies this`clock, this`windowRetries, this`cooling, this`log, this`polls, this`posts, this`pending
      ensures |log| == |old(log)| + 1 && old(log) < log && log[|log| - 1].row == row && log[|log| - 1].kind == kind
      ensures InRange(job, log) && Windows(log) <= windowRetries && windowRetries - Windows(log) == old(windowRetries - Windows(log))
      ensures Follows(job, rpc, windowRetries - Windows(log), deadline, log)
      ensures kind.Again() ==> MayPost(job, log, row)
      ensures cooling == old(cooling) + (if kind.Next() then {job.alts[row].provider} else {})
      ensures r.Not? ==> r.why.ChainWait? || r.why.NeedsFunds? || r.why.Transient? || r.why.Cancelled?
      ensures !kind.Again() && !kind.Next() ==> Ends(job, r, log[|log| - 1])
      ensures PendingFits(r) && (kind.Again() || kind.Next() ==> r.Not?)
      ensures Heard() && LookedFor(r) && (kind.Again() || kind.Next() ==> polls == 0)
      ensures !kind.Again() && !kind.Next() && r == Not(Cancelled) ==> Left()
    {
      hide Follows, MayPost, KindOf, Windows, ChainWaitReason, Staying;
      var b := job.alts[row];
      r := Not(Cancelled);
      var answer;
      answer, kind := PostBid(job, row);
      match kind {
        case DidOpen =>
          DropAttempt(posts - 1);
          r := Got(answer.session, b.provider, false);
        case Refused =>
          DropAttempt(posts - 1);
          r := AdoptExisting(answer.session);
        case Erred(WalletFunds) =>
          DropAttempt(posts - 1);
          r := Not(NeedsFunds);
        case Erred(ProviderFault) =>
          DropAttempt(posts - 1);
          cooling := cooling + {b.provider};
        case Erred(MaybeSent) =>
          r := Reconcile(ChainWaitReason(answer.err));
          if r.Got? {
            DropAttempt(posts - 1);
          }
        case Erred(TransientPreSend) => DropAttempt(posts - 1);
        case Erred(TransientWindow) => windowRetries := windowRetries + 1;
      }
    }

    /** POSTs one bid until its answer ends the operation (done) or blames the provider. */
    method WalkBid(job: Job, row: nat) returns (done: bool, r: Result)
      requires Windows(log) <= windowRetries && Follows(job, rpc, windowRetries - Windows(log), deadline, log)
      requires row < |job.alts| && MayPost(job, log, row) && posts == |log| && pending == Staying(log) && Heard() && polls == 0
      requires log != [] ==> log[|log| - 1].kind.Next()
      modifies this`clock, this`retries, this`windowRetries, this`cooling, this`log, this`polls, this`posts, this`pending
      ensures old(log) <= log && InRange(job, log) && Windows(log) <= windowRetries
      ensures windowRetries - Windows(log) == old(windowRetries - Windows(log))
      ensures Follows(job, rpc, windowRetries - Windows(log), deadline, log)
      ensures retries >= old(retries) && (retries > old(retries) ==> rpc && retries <= TRANSIENT_MAX_RETRIES)
      ensures |log| - |old(log)| <= 1 + retries - old(retries)
      ensures cooling == old(cooling) + (if done then {} else {job.alts[row].provider})
      ensures !done ==> |log| > |old(log)| && log[|log| - 1].kind.Next()
      ensures forall k :: |old(log)| <= k < |log| ==> log[k].row == row && (log[k].kind.Next() ==> !done && k == |log| - 1)
      ensures done && r.Not? ==> r.why.ChainWait? || r.why.NeedsFunds? || r.why.Transient? || r.why.Cancelled?
      ensures done && |log| > |old(log)| ==> Ends(job, r, log[|log| - 1])
      ensures PendingFits(r)
      ensures done && |log| == |old(log)| ==> r == Not(Cancelled) || r == Not(Transient(TRANSIENT_CAP))
      ensures Heard() && LookedFor(r) && (!done ==> polls == 0)
      ensures done && r == Not(Cancelled) ==> Left()
      ensures done && |log| == |old(log)| && !Left() ==> OutOfTime()
      ensures done && |log| > |old(log)| && log[|log| - 1].kind.Again() && !Left() ==> OutOfTime() || OutOfRetries()
    {
      hide Follows, MayPost, Windows, Doubled, Staying, ChainWaitReason, KindOf, Heard, LookedFor, OutOfRetries, Adopts;
      ghost var w0 := windowRetries - Windows(log);
      FollowsInRange(job, rpc, w0, deadline, log);
      while true
        invariant old(log) <= log && Windows(log) <= windowRetries && windowRetries - Windows(log) == w0
        invariant Follows(job, rpc, w0, deadline, log) && InRange(job, log) && MayPost(job, log, row)
        invariant retries >= old(retries) && (retries > old(retries) ==> rpc && retries <= TRANSIENT_MAX_RETRIES)
        invariant |log| - |old(log)| <= retries - old(retries)
        invariant cooling == old(cooling) && posts == |log| && pending == Staying(log) && Heard() && polls == 0
        invariant forall k :: |old(log)| <= k < |log| ==> log[k].row == row && log[k].kind.Again()
        decreases TRANSIENT_MAX_RETRIES - retries
      {
        if Left() {
          NoneSought(Not(Cancelled));
          return true, Not(Cancelled);
        }
        if deadline - clock < OPEN_MIN_POST_TIME + RECONCILE_RESERVE {
          NoneSought(Not(Transient(TRANSIENT_CAP)));
          return true, Not(Transient(TRANSIENT_CAP));
        }
        var kind, got := TryBid(job, row);
        if !kind.Again() {
          return !kind.Next(), got;
        }
        var d, ok := Backoff();
        if !ok {
          var retryAfter := ClampTransient(d);
          r := Not(if Left() then Cancelled else Transient(retryAfter));
          NoneSought(r);
          return true, r;
        }
      }
    }

    /** The same, seen from the whole walk: what was tried, what cooled, and whether the walk may go on. */
    method WalkNext(job: Job, row: nat) returns (done: bool, r: Result)
      requires Windows(log) <= windowRetries && Follows(job, rpc, windowRetries - Windows(log), deadline, log)
      requires row < |job.alts| && MayPost(job, log, row) && InRange(job, log)
      requires log != [] ==> log[|log| - 1].kind.Next()
      requires posts == |log| && pending == Staying(log) && Heard() && polls == 0
      modifies this`clock, this`retries, this`windowRetries, this`cooling, this`log, this`polls, this`posts, this`pending
      ensures InRange(job, log) && Windows(log) <= windowRetries && Follows(job, rpc, windowRetries - Windows(log), deadline, log)
      ensures windowRetries - Windows(log) == old(windowRetries - Windows(log))
      ensures retries >= old(retries) && (retries > old(retries) ==> rpc && retries <= TRANSIENT_MAX_RETRIES)
      ensures |log| - |old(log)| <= 1 + retries - old(retries)
      ensures log == old(log) || Tried(job, log) == Tried(job, old(log)) + {job.alts[row].provider}
      ensures forall c :: old(cooling) == c + Faulted(job, old(log)) ==> cooling == c + Faulted(job, log)
      ensures done ==> log == old(log) || (!log[|log| - 1].kind.Next() && Ends(job, r, log[|log| - 1]))
      ensures done && r.Not? ==> r.why.ChainWait? || r.why.NeedsFunds? || r.why.Transient? || r.why.Cancelled?
      ensures PendingFits(r) && (!done ==> posts == |log| && pending == Staying(log))
      ensures done && log == old(log) ==> r == Not(Cancelled) || r == Not(Transient(TRANSIENT_CAP))
      ensures !done ==> log != old(log) && log != [] && log[|log| - 1].kind.Next() && log[|log| - 1].row == row
      ensures Heard() && LookedFor(r) && (!done ==> polls == 0)
      ensures done && r == Not(Cancelled) ==> Left()
      ensures done && !Left() ==> Answered(job, r)
    {
      hide Follows, Ends, Windows, MayPost, Staying, Heard, LookedFor, OutOfTime, OutOfRetries, Finished;
      done, r := WalkBid(job, row);
      PostedOneBid(job, old(log), log, row);
      assert |log| == |old(log)| ==> log == old(log);
    }

    method WalkAll(job: Job) returns (r: Result)
      requires log == [] && polls == 0 && posts == 0 && pending == {}
      modifies this`clock, this`retries, this`windowRetries, this`cooling, this`log, this`polls, this`posts, this`pending
      ensures Follows(job, rpc, old(windowRetries), deadline, log) && InRange(job, log)
      ensures retries >= old(retries) && (retries > old(retries) ==> rpc && retries <= TRANSIENT_MAX_RETRIES)
      ensures |Tried(job, log)| <= MAX_BID_ATTEMPTS && |log| <= |Tried(job, log)| + retries - old(retries)
      ensures cooling == old(cooling) + Faulted(job, log) && PendingFits(r)
      ensures r != Not(LimitInvalid) && r != Not(InputsUnreadable)
      ensures log != [] && !log[|log| - 1].kind.Next() ==> Ends(job, r, log[|log| - 1])
      ensures log == [] || log[|log| - 1].kind.Next() ==>
        (r == Not(Cancelled) || r == Not(Transient(TRANSIENT_CAP)) || Finished(job, log, r))
      ensures Heard() && LookedFor(r) && (r == Not(Cancelled) ==> Left()) && (!Left() ==> Answered(job, r))
    {
      hide Follows, Ends, Windows, At, Finished, MayPost, Faulted, Tried, InRange, StakeForDurationWei, KindOf, Staying, PendingFits,
           Heard, LookedFor, OutOfTime, OutOfRetries, Answered, Kind.Next, Kind.Again;
      NothingHeard();
      NothingPosted(job, rpc, windowRetries, deadline);
      AtStart(job);
      var alts := job.alts;
      var i, attempts, skipped, tried: set<string>, need: Option<nat> := 0, 0, 0, {}, None;
      while i < |alts| && attempts < MAX_BID_ATTEMPTS
        invariant 0 <= i <= |alts| && attempts <= MAX_BID_ATTEMPTS
        invariant Windows(log) <= windowRetries && windowRetries - Windows(log) == old(windowRetries)
        invariant Follows(job, rpc, old(windowRetries), deadline, log) && InRange(job, log)
        invariant tried == Tried(job, log) && |tried| == attempts
        invariant log != [] ==> log[|log| - 1].kind.Next() && log[|log| - 1].row < i
        invariant At(job, tried, i, skipped, need)
        invariant retries >= old(retries) && (retries > old(retries) ==> rpc && retries <= TRANSIENT_MAX_RETRIES)
        invariant |log| <= attempts + retries - old(retries)
        invariant cooling == old(cooling) + Faulted(job, log) && posts == |log| && pending == Staying(log) && Heard() && polls == 0
      {
        var b := alts[i];
        if b.provider in tried {
          PassTried(job, tried, i, skipped, need);
          i := i + 1;
          continue;
        }
        if job.cap.Some? {
          var st := job.StakeOf(b);
          if st.None? || st.value > job.cap.value {
            PassDear(job, tried, i, skipped, need);
            skipped := skipped + 1;
            if st.Some? && (need.None? || st.value < need.value) {
              need := st;
            }
            i := i + 1;
            continue;
          }
        }
        ReadyToPost(job, log, i, skipped, need);
        PassPosted(job, tried, i, skipped, need);
        tried := tried + {b.provider};
        attempts := attempts + 1;
        var done, got := WalkNext(job, i);
        if done {
          return got;
        }
        i := i + 1;
      }
      FinishedAt(job, log, i, skipped, need);
      r := if skipped > 0 then Not(OverCap(need, job.cap.value))
        else if attempts == 0 then Not(NoneTried)
        else Not(Exhausted(attempts));
      NoneFound(r);
      NoneSought(r);
      AnsweredAtEnd(job, r);
    }

    /**
     Walks the candidates until one opens, one may have been sent, or no more may be tried. capInvalid: the saved cap
     does not parse. inputsRead: supply and budget could be read, which only a cap needs.
     */
    method OpenExcluding(job: Job, capInvalid: bool, inputsRead: bool) returns (r: Result)
      requires log == [] && polls == 0 && posts == 0 && pending == {}
      modifies this`clock, this`retries, this`windowRetries, this`cooling, this`log, this`polls, this`posts, this`pending
      ensures Follows(job, rpc, old(windowRetries), deadline, log) && InRange(job, log)
      ensures retries >= old(retries) && (retries > old(retries) ==> rpc && retries <= TRANSIENT_MAX_RETRIES)
      ensures |Tried(job, log)| <= MAX_BID_ATTEMPTS && |log| <= |Tried(job, log)| + retries - old(retries)
      ensures |log| <= MAX_BID_ATTEMPTS + (if rpc then TRANSIENT_MAX_RETRIES else 0)
      ensures cooling == old(cooling) + Faulted(job, log) && PendingFits(r)
      ensures r == Not(LimitInvalid) <==> capInvalid
      ensures r == Not(InputsUnreadable) <==> !capInvalid && job.cap.Some? && !inputsRead
      ensures capInvalid || (job.cap.Some? && !inputsRead) ==> log == []
      ensures log != [] && !log[|log| - 1].kind.Next() ==> Ends(job, r, log[|log| - 1])
      ensures (log == [] || log[|log| - 1].kind.Next()) && !capInvalid && (job.cap.Some? ==> inputsRead) ==>
        (r == Not(Cancelled) || r == Not(Transient(TRANSIENT_CAP)) || Finished(job, log, r))
      ensures Heard() && LookedFor(r) && (r == Not(Cancelled) ==> Left())
      ensures !Left() && !capInvalid && (job.cap.Some? ==> inputsRead) ==> Answered(job, r)
    {
      hide Follows, Ends, Windows, Finished, Faulted, Tried, InRange, Staying, Heard, LookedFor;
      NothingPosted(job, rpc, windowRetries, deadline);
      NothingHeard();
      NoneSought(Not(LimitInvalid));
      NoneSought(Not(InputsUnreadable));
      if capInvalid {
        return Not(LimitInvalid);
      }
      if job.cap.Some? && !inputsRead {
        return Not(InputsUnreadable);
      }
      r := WalkAll(job);
    }
  }
}
