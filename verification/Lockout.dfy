/** Lockout after failed sign-ins: per address, and for passwords a global trip. Bearer failures are kept apart. */
module Lockout {
  import opened Basics

  const MAX_TRACKED := 10000
  const LOOK := 64
  const WINDOW: Time := 15 * MINUTE
  const MAX_BACKOFF: Time := 15 * MINUTE

  /** None: never. */
  type When = Option<Time>

  predicate Before(now: Time, t: When) {
    t.Some? && now < t.value
  }

  predicate After(now: Time, t: When) {
    t.Some? ==> now > t.value
  }

  datatype Ip = Ip(failures: nat, lockedUntil: When, lastFail: Time)

  type Ips = map<string, Ip>

  datatype State = State(perIP: Ips, bearerIP: Ips, global: seq<Time>, globalUntil: When, globalBackoff: Time, lastTrip: When)

  datatype Answer = Answer(ok: bool, retryAfter: Time)

  function Pow2(n: nat): nat {
    if n == 0 then 1 else 2 * Pow2(n - 1)
  }

  /** How long the n-th failure locks an address. */
  function Delay(n: nat): Time {
    if n <= 5 then 0 else Min(SECOND * Pow2(if n - 5 > 10 then 10 else n - 5), 15 * MINUTE)
  }

  lemma {:induction false} Pow2Grows(n: nat, m: nat)
    requires n <= m
    ensures 1 <= Pow2(n) <= Pow2(m)
  {
    if m > 0 {
      if n == m {
        Pow2Grows(n - 1, m - 1);
      } else {
        Pow2Grows(n, m - 1);
      }
    }
  }

  /** Five failures are free; the n-th after that locks for 2^(n-5) seconds, at most 15 minutes, and never for less than before. */
  lemma DelayIs(n: nat, m: nat)
    ensures n > 5 ==> Delay(n) == Min(SECOND * Pow2(n - 5), 15 * MINUTE)
    ensures n <= m ==> Delay(n) <= Delay(m)
    ensures 0 <= Delay(n) <= 15 * MINUTE && (Delay(n) > 0 <==> n > 5)
  {
    assert Pow2(10) == 1024;
    if n > 15 {
      Pow2Grows(10, n - 5);
    }
    if 5 < n <= m {
      Pow2Grows(if n - 5 > 10 then 10 else n - 5, if m - 5 > 10 then 10 else m - 5);
    }
    if n > 5 {
      Pow2Grows(0, if n - 5 > 10 then 10 else n - 5);
    }
    if m > 5 {
      Pow2Grows(0, if m - 5 > 10 then 10 else m - 5);
    }
  }

  predicate Clean(st: Ip, now: Time) {
    st.failures > 0 && now - st.lastFail >= HOUR && After(now, st.lockedUntil)
  }

  predicate Unlocked(st: Ip, now: Time) {
    After(now, st.lockedUntil)
  }

  /** Which entry makes room for a new address: any that is not locked, none if all are. */
  predicate Evicts(m: Ips, ip: string, now: Time, out: Option<string>) {
    if ip in m || |m| < MAX_TRACKED then out.None?
    else if out.Some? then out.value in m && Unlocked(m[out.value], now)
    else forall k :: k in m ==> !Unlocked(m[k], now)
  }

  function Ensured(m: Ips, ip: string, now: Time, out: Option<string>): Ips {
    var room := if out.Some? then m - {out.value} else m;
    if ip !in m then room[ip := Ip(0, None, 0)]
    else if Clean(m[ip], now) then m[ip := m[ip].(failures := 0, lockedUntil := None)]
    else m
  }

  /** One more failure of the address; with lock, it may lock. */
  function Counted(m: Ips, ip: string, now: Time, out: Option<string>, lock: bool): Ips {
    var e := Ensured(m, ip, now, out);
    var n := e[ip].failures + 1;
    e[ip := Ip(n, if lock && n > 5 then Some(now + Delay(n)) else e[ip].lockedUntil, now)]
  }

  function Asked(m: Ips, ip: string, now: Time): (Ips, Answer) {
    if ip !in m then (m, Answer(true, 0))
    else if Clean(m[ip], now) then (m - {ip}, Answer(true, 0))
    else if Before(now, m[ip].lockedUntil) then (m, Answer(false, m[ip].lockedUntil.value - now))
    else (m, Answer(true, 0))
  }

  datatype Event =
    | Allow(ip: string, now: Time)
    | Failure(ip: string, now: Time, out: Option<string>)
    | Success(ip: string)
    | AllowBearer(ip: string, now: Time)
    | FailureBearer(ip: string, now: Time, out: Option<string>)
    | SuccessBearer(ip: string)
    | Reset

  predicate Bearer(e: Event) {
    e.AllowBearer? || e.FailureBearer? || e.SuccessBearer?
  }

  predicate Timed(e: Event) {
    e.Allow? || e.Failure? || e.AllowBearer? || e.FailureBearer?
  }

  predicate Enabled(s: State, e: Event) {
    (e.Failure? ==> Evicts(s.perIP, e.ip, e.now, e.out)) && (e.FailureBearer? ==> Evicts(s.bearerIP, e.ip, e.now, e.out))
  }

  function Recent(global: seq<Time>, now: Time): seq<Time> {
    Filter(global, (t: Time) => t > now - WINDOW)
  }

  /** The back-off as a failure finds it: back to a minute after an hour without a trip. */
  function Decayed(s: State, now: Time): State {
    if s.lastTrip.Some? && now - s.lastTrip.value >= HOUR then s.(globalBackoff := MINUTE, lastTrip := None) else s
  }

  predicate Trips(s: State, now: Time) {
    |Recent(s.global, now)| >= 20
  }

  function Tripped(s: State, now: Time): State {
    var b := Max(s.globalBackoff, MINUTE);
    s.(globalUntil := Some(now + b), lastTrip := Some(now), globalBackoff := if b < MAX_BACKOFF then Min(2 * b, MAX_BACKOFF) else b)
  }

  function AfterFailure(s: State, ip: string, now: Time, out: Option<string>): State {
    var t := Decayed(s, now).(global := Recent(s.global, now) + [now], perIP := Counted(s.perIP, ip, now, out, !Trips(s, now)));
    if Trips(s, now) then Tripped(t, now) else t
  }

  function Step(s: State, e: Event): State {
    match e
    case Allow(ip, now) => if Before(now, s.globalUntil) then s else s.(perIP := Asked(s.perIP, ip, now).0)
    case Failure(ip, now, out) => AfterFailure(s, ip, now, out)
    case Success(ip) => s.(perIP := s.perIP - {ip})
    case AllowBearer(ip, now) => s.(bearerIP := Asked(s.bearerIP, ip, now).0)
    case FailureBearer(ip, now, out) => s.(bearerIP := Counted(s.bearerIP, ip, now, out, true))
    case SuccessBearer(ip) => s.(bearerIP := s.bearerIP - {ip})
    case Reset => State(map[], map[], [], None, MINUTE, s.lastTrip)
  }

  function PasswordAnswer(s: State, ip: string, now: Time): Answer {
    if Before(now, s.globalUntil) then Answer(false, s.globalUntil.value - now) else Asked(s.perIP, ip, now).1
  }

  const START := State(map[], map[], [], None, MINUTE, None)

  /** Events on a clock that does not go back, from clock on. */
  ghost predicate Run(s: State, clock: Time, es: seq<Event>, s': State)
    decreases |es|
  {
    if es == [] then s == s'
    else
      var e := es[0];
      Enabled(s, e) && (Timed(e) ==> clock <= e.now) && Run(Step(s, e), if Timed(e) then e.now else clock, es[1..], s')
  }

  ghost predicate IpsInv(m: Ips, clock: Time) {
    forall k :: k in m ==>
      m[k].failures > 0 && m[k].lastFail <= clock
      && (m[k].lockedUntil.Some? ==> m[k].lockedUntil.value <= m[k].lastFail + Delay(m[k].failures))
  }

  ghost predicate Inv(s: State, clock: Time) {
    IpsInv(s.perIP, clock) && IpsInv(s.bearerIP, clock) && MINUTE <= s.globalBackoff <= MAX_BACKOFF
  }

  function Later(clock: Time, e: Event): Time {
    if Timed(e) then e.now else clock
  }

  lemma CountedKeeps(m: Ips, clock: Time, ip: string, now: Time, out: Option<string>, lock: bool)
    requires IpsInv(m, clock) && clock <= now && Evicts(m, ip, now, out)
    ensures IpsInv(Counted(m, ip, now, out, lock), now)
  {
    hide Delay;
    var e := Ensured(m, ip, now, out);
    DelayIs(e[ip].failures, e[ip].failures + 1);
  }

  lemma FailureKeepsInv(s: State, clock: Time, ip: string, now: Time, out: Option<string>)
    requires Inv(s, clock) && clock <= now && Evicts(s.perIP, ip, now, out)
    ensures Inv(AfterFailure(s, ip, now, out), now)
  {
    hide Delay, Counted, Recent;
    CountedKeeps(s.perIP, clock, ip, now, out, !Trips(s, now));
  }

  lemma AskedKeeps(m: Ips, clock: Time, ip: string, now: Time)
    requires IpsInv(m, clock) && clock <= now
    ensures IpsInv(Asked(m, ip, now).0, now)
  {
    hide Delay;
  }

  lemma StepKeepsInv(s: State, clock: Time, e: Event)
    requires Inv(s, clock) && Enabled(s, e) && (Timed(e) ==> clock <= e.now)
    ensures Inv(Step(s, e), Later(clock, e))
  {
    hide Delay, Counted, AfterFailure, Asked;
    match e
    case Failure(ip, now, out) => FailureKeepsInv(s, clock, ip, now, out);
    case FailureBearer(ip, now, out) => CountedKeeps(s.bearerIP, clock, ip, now, out, true);
    case Allow(ip, now) => AskedKeeps(s.perIP, clock, ip, now);
    case AllowBearer(ip, now) => AskedKeeps(s.bearerIP, clock, ip, now);
    case Success(_) =>
    case SuccessBearer(_) =>
    case Reset =>
  }

  /** In every run the global back-off stays within 1 to 15 minutes, and a lock within its failure's delay. */
  lemma {:induction false} RunKeepsInv(s: State, clock: Time, es: seq<Event>, s': State) returns (end: Time)
    requires Inv(s, clock) && Run(s, clock, es, s')
    ensures Inv(s', end) && end >= clock
    decreases |es|
  {
    end := clock;
    if es != [] {
      StepKeepsInv(s, clock, es[0]);
      end := RunKeepsInv(Step(s, es[0]), Later(clock, es[0]), es[1..], s');
    }
  }

  // The global lock.

  function End(clock: Time, es: seq<Event>): Time
    decreases |es|
  {
    if es == [] then clock else End(Later(clock, es[0]), es[1..])
  }

  /** The lock a trip set ends within that trip's back-off, or is over. */
  ghost predicate GlobalInv(s: State, clock: Time) {
    && MINUTE <= s.globalBackoff <= MAX_BACKOFF
    && (s.lastTrip.Some? ==> s.lastTrip.value <= clock)
    && (s.globalUntil.Some? ==>
          s.globalUntil.value <= clock || (s.lastTrip.Some? && s.globalUntil.value <= s.lastTrip.value + s.globalBackoff))
  }

  lemma StepKeepsGlobal(s: State, clock: Time, e: Event)
    requires GlobalInv(s, clock) && (Timed(e) ==> clock <= e.now)
    ensures GlobalInv(Step(s, e), Later(clock, e))
    ensures s.globalUntil.Some? && !e.Reset? ==>
      Step(s, e).globalUntil.Some? && Step(s, e).globalUntil.value >= s.globalUntil.value
  {
    hide Counted, Asked, Recent;
  }

  lemma {:induction false} RunKeepsGlobal(s: State, clock: Time, es: seq<Event>, s': State)
    requires GlobalInv(s, clock) && Run(s, clock, es, s')
    ensures GlobalInv(s', End(clock, es))
    ensures s.globalUntil.Some? && (forall i :: 0 <= i < |es| ==> !es[i].Reset?) ==>
      s'.globalUntil.Some? && s'.globalUntil.value >= s.globalUntil.value
    decreases |es|
  {
    hide Step;
    if es != [] {
      StepKeepsGlobal(s, clock, es[0]);
      RunKeepsGlobal(Step(s, es[0]), Later(clock, es[0]), es[1..], s');
      if forall i :: 0 <= i < |es| ==> !es[i].Reset? {
        assert !es[0].Reset?;
      }
    }
  }

  /**
   In every run a global lock, once set, is never shortened but by a reset: until its end every password sign-in is
   refused, from any address, whatever else happens.
   */
  lemma GlobalLockHolds(clock: Time, es: seq<Event>, s: State, more: seq<Event>, s': State, ip: string, now: Time)
    requires Run(START, clock, es, s) && s.globalUntil.Some? && now < s.globalUntil.value
    requires Run(s, End(clock, es), more, s') && forall i :: 0 <= i < |more| ==> !more[i].Reset?
    ensures s'.globalUntil.Some? && s'.globalUntil.value >= s.globalUntil.value
    ensures !PasswordAnswer(s', ip, now).ok && PasswordAnswer(s', ip, now).retryAfter >= s.globalUntil.value - now
  {
    RunKeepsGlobal(START, clock, es, s);
    RunKeepsGlobal(s, End(clock, es), more, s');
  }

  // Locks hold.

  predicate LockedTo(m: Ips, ip: string, until: Time) {
    ip in m && m[ip].lockedUntil.Some? && m[ip].lockedUntil.value >= until
  }

  lemma CountedHolds(m: Ips, clock: Time, ip: string, now: Time, out: Option<string>, lock: bool, x: string, until: Time)
    requires IpsInv(m, clock) && clock <= now < until && Evicts(m, ip, now, out) && LockedTo(m, x, until)
    ensures LockedTo(Counted(m, ip, now, out, lock), x, until)
  {
    hide Delay;
    if x == ip {
      DelayIs(m[ip].failures, m[ip].failures + 1);
    }
  }

  lemma AskedHolds(m: Ips, ip: string, now: Time, x: string, until: Time)
    requires now < until && LockedTo(m, x, until)
    ensures LockedTo(Asked(m, ip, now).0, x, until)
    ensures x == ip ==> !Asked(m, ip, now).1.ok && Asked(m, ip, now).1.retryAfter >= until - now
  {
  }

  function Side(s: State, bearer: bool): Ips {
    if bearer then s.bearerIP else s.perIP
  }

  function AnswerOf(s: State, bearer: bool, ip: string, now: Time): Answer {
    if bearer then Asked(s.bearerIP, ip, now).1 else PasswordAnswer(s, ip, now)
  }

  /** Neither the address's own success nor a reset, and before until. */
  predicate Spares(e: Event, bearer: bool, x: string, until: Time) {
    e != (if bearer then SuccessBearer(x) else Success(x)) && !e.Reset? && (Timed(e) ==> e.now < until)
  }

  lemma StepHolds(s: State, clock: Time, e: Event, bearer: bool, x: string, until: Time)
    requires Inv(s, clock) && Enabled(s, e) && (Timed(e) ==> clock <= e.now)
    requires LockedTo(Side(s, bearer), x, until) && Spares(e, bearer, x, until)
    ensures LockedTo(Side(Step(s, e), bearer), x, until)
  {
    hide Delay, Counted, Asked;
    match e
    case Failure(ip, now, out) =>
      if !bearer {
        CountedHolds(s.perIP, clock, ip, now, out, !Trips(s, now), x, until);
      }
    case FailureBearer(ip, now, out) =>
      if bearer {
        CountedHolds(s.bearerIP, clock, ip, now, out, true, x, until);
      }
    case Allow(ip, now) =>
      if !bearer {
        AskedHolds(s.perIP, ip, now, x, until);
      }
    case AllowBearer(ip, now) =>
      if bearer {
        AskedHolds(s.bearerIP, ip, now, x, until);
      }
    case Success(_) =>
    case SuccessBearer(_) =>
  }

  /**
   A locked address is refused until its recorded time, whatever happens meanwhile: later failures never shorten the
   lock, no other address pushes it out. So for passwords and for the Bearer, each on its own map.
   */
  lemma {:induction false} LockHolds(s: State, clock: Time, es: seq<Event>, s': State, bearer: bool, x: string, until: Time, now: Time)
    requires Inv(s, clock) && Run(s, clock, es, s') && LockedTo(Side(s, bearer), x, until)
    requires (forall i :: 0 <= i < |es| ==> Spares(es[i], bearer, x, until)) && now < until
    ensures LockedTo(Side(s', bearer), x, until) && !AnswerOf(s', bearer, x, now).ok
    decreases |es|
  {
    hide Step, Asked;
    if es == [] {
      AskedHolds(Side(s, bearer), x, now, x, until);
    } else {
      StepHolds(s, clock, es[0], bearer, x, until);
      StepKeepsInv(s, clock, es[0]);
      LockHolds(Step(s, es[0]), Later(clock, es[0]), es[1..], s', bearer, x, until, now);
    }
  }

  /** A failure that does not trip the global lock locks its address just when it is the sixth or later, for that delay. */
  lemma FailureLocks(s: State, clock: Time, ip: string, now: Time, out: Option<string>)
    requires Inv(s, clock) && clock <= now && Evicts(s.perIP, ip, now, out) && !Trips(s, now)
    ensures var st := AfterFailure(s, ip, now, out).perIP[ip];
      && st.failures == 1 + (if ip in s.perIP && !Clean(s.perIP[ip], now) then s.perIP[ip].failures else 0)
      && (st.failures > 5 ==> st.lockedUntil == Some(now + Delay(st.failures)))
      && (st.failures > 5 <==> Before(now, st.lockedUntil))
  {
    hide Delay;
    var e := Ensured(s.perIP, ip, now, out);
    DelayIs(e[ip].failures + 1, e[ip].failures);
    DelayIs(e[ip].failures, e[ip].failures);
    if ip in s.perIP && s.perIP[ip].failures <= 5 {
      DelayIs(s.perIP[ip].failures, 0);
    }
  }

  // The global trip.

  lemma {:induction false} RecentOfRecent(h: seq<Time>, a: Time, b: Time)
    requires a <= b
    ensures Recent(Recent(h, a), b) == Recent(h, b)
  {
    if h != [] {
      RecentOfRecent(h[1..], a, b);
      if h[0] > a - WINDOW {
        assert Recent(h, a)[0] == h[0] && Recent(h, a)[1..] == Recent(h[1..], a);
      }
    }
  }

  lemma {:induction false} RecentJoins(a: seq<Time>, b: seq<Time>, now: Time)
    ensures Recent(a + b, now) == Recent(a, now) + Recent(b, now)
  {
    if a == [] {
      assert a + b == b;
    } else {
      RecentJoins(a[1..], b, now);
      assert (a + b)[1..] == a[1..] + b;
    }
  }

  lemma RecentWithOne(h: seq<Time>, a: Time, b: Time)
    requires a <= b
    ensures Recent(Recent(h, a), b) + [b] == Recent(h + [b], b)
  {
    RecentOfRecent(h, a, b);
    RecentJoins(h, [b], b);
    assert Recent([b], b) == [b];
  }

  lemma RecentOfNone(now: Time)
    ensures Recent([], now) == []
  {
  }

  /** The times of the password failures since the start or the last reset. */
  function Failures(h: seq<Time>, es: seq<Event>): seq<Time>
    decreases |es|
  {
    if es == [] then h
    else Failures(if es[0].Reset? then [] else if es[0].Failure? then h + [es[0].now] else h, es[1..])
  }

  /**
   The global lock trips at a failure exactly when it is at least the twenty-first within 15 minutes, however the list
   was trimmed before.
   */
  lemma {:induction false} TripCountsTheWindow(s: State, clock: Time, es: seq<Event>, s': State, h: seq<Time>, last: Time, now: Time)
    requires Run(s, clock, es, s') && s.global == Recent(h, last) && last <= clock
    requires forall i :: 0 <= i < |es| && Timed(es[i]) ==> es[i].now <= now
    requires clock <= now
    ensures Trips(s', now) <==> |Recent(Failures(h, es), now)| >= 20
    decreases |es|
  {
    hide Counted, Asked, Recent, Enabled;
    if es == [] {
      RecentOfRecent(h, last, now);
    } else {
      var e := es[0];
      assert Timed(e) ==> e.now <= now;
      if e.Failure? {
        RecentWithOne(h, last, e.now);
        TripCountsTheWindow(Step(s, e), e.now, es[1..], s', h + [e.now], e.now, now);
      } else if e.Reset? {
        RecentOfNone(last);
        TripCountsTheWindow(Step(s, e), clock, es[1..], s', [], last, now);
      } else {
        TripCountsTheWindow(Step(s, e), Later(clock, e), es[1..], s', h, last, now);
      }
    }
  }

  // Bearer and password do not touch.

  function Only(es: seq<Event>, bearer: bool): seq<Event> {
    Filter(es, (e: Event) => e.Reset? || Bearer(e) == bearer)
  }

  predicate Agree(s: State, t: State, bearer: bool) {
    if bearer then s.bearerIP == t.bearerIP
    else s.(bearerIP := map[]) == t.(bearerIP := map[])
  }

  lemma StepAgrees(s: State, t: State, e: Event, bearer: bool)
    requires Agree(s, t, bearer)
    ensures e.Reset? || Bearer(e) == bearer ==> Agree(Step(s, e), Step(t, e), bearer) && Enabled(s, e) == Enabled(t, e)
    ensures !e.Reset? && Bearer(e) != bearer ==> Agree(Step(s, e), t, bearer)
  {
    hide Counted, Asked, Recent, Evicts;
    if !bearer {
      assert t.(bearerIP := s.bearerIP) == s;
    }
  }

  lemma SidesAnswerAlike(s: State, t: State, ip: string, now: Time)
    ensures Agree(s, t, true) ==> Asked(s.bearerIP, ip, now) == Asked(t.bearerIP, ip, now)
    ensures Agree(s, t, false) ==> PasswordAnswer(s, ip, now) == PasswordAnswer(t, ip, now)
  {
  }

  /**
   What one side answers is what it would answer had the other side never been called: dropping every bearer call, or
   every password call, from a run is a run that agrees on the side kept.
   */
  lemma {:induction false} SidesAreApart(s: State, t: State, clock: Time, early: Time, es: seq<Event>, s': State, bearer: bool)
    returns (t': State)
    requires Run(s, clock, es, s') && Agree(s, t, bearer) && early <= clock
    ensures Run(t, early, Only(es, bearer), t') && Agree(s', t', bearer)
    ensures forall ip, now :: AnswerOf(s', bearer, ip, now) == AnswerOf(t', bearer, ip, now)
    decreases |es|
  {
    hide Step, Agree, Enabled;
    t' := t;
    if es != [] {
      var e := es[0];
      StepAgrees(s, t, e, bearer);
      if e.Reset? || Bearer(e) == bearer {
        assert Only(es, bearer)[0] == e && Only(es, bearer)[1..] == Only(es[1..], bearer);
        t' := SidesAreApart(Step(s, e), Step(t, e), Later(clock, e), Later(early, e), es[1..], s', bearer);
      } else {
        t' := SidesAreApart(Step(s, e), t, Later(clock, e), early, es[1..], s', bearer);
      }
    }
    forall ip, now ensures AnswerOf(s', bearer, ip, now) == AnswerOf(t', bearer, ip, now) {
      SidesAnswerAlike(s', t', ip, now);
    }
  }

  predicate Stale(st: Ip, now: Time) {
    st.failures == 0 || now - st.lastFail >= HOUR
  }

  /**
   Makes room by dropping one unlocked entry: a stale one among the first looked at, else the first unlocked. looked:
   the entries it looked at, at least LOOK of them unless one was stale or all were looked at.
   */
  method EvictOne(m: Ips, now: Time) returns (rest: Ips, ghost out: Option<string>, ghost looked: set<string>)
    ensures looked <= m.Keys && (out.Some? ==> out.value in looked)
    ensures out.Some? && !Stale(m[out.value], now) ==>
      (|looked| >= LOOK || looked == m.Keys) && forall k :: k in looked && Unlocked(m[k], now) ==> !Stale(m[k], now)
    ensures rest == m || exists k :: k in m && Unlocked(m[k], now) && rest == m - {k}
    ensures rest == m <==> forall k :: k in m ==> !Unlocked(m[k], now)
    ensures rest == if out.Some? then m - {out.value} else m
    ensures if out.Some? then out.value in m && Unlocked(m[out.value], now) else forall k :: k in m ==> !Unlocked(m[k], now)
  {
    looked := {};
    var left, unlocked: Option<string>, i := m.Keys, None, 0;
    while left != {}
      invariant left <= m.Keys && looked == m.Keys - left && |looked| == i
      invariant unlocked.Some? ==> unlocked.value in looked && !Stale(m[unlocked.value], now)
      invariant forall k :: k in looked && Unlocked(m[k], now) ==> !Stale(m[k], now)
      invariant unlocked.Some? ==> unlocked.value in m && Unlocked(m[unlocked.value], now)
      invariant unlocked.None? ==> forall k :: k in m && k !in left ==> !Unlocked(m[k], now)
      decreases |left|
    {
      var k :| k in left;
      left := left - {k};
      assert k !in looked;
      looked := looked + {k};
      if After(now, m[k].lockedUntil) {
        if m[k].failures == 0 || now - m[k].lastFail >= HOUR {
          return m - {k}, Some(k), looked;
        }
        if unlocked.None? {
          unlocked := Some(k);
        }
      }
      i := i + 1;
      if i >= LOOK && unlocked.Some? {
        break;
      }
    }
    if unlocked.Some? {
      return m - {unlocked.value}, unlocked, looked;
    }
    return m, None, looked;
  }

  method EnsureIn(m: Ips, ip: string, now: Time) returns (r: Ips, ghost out: Option<string>)
    ensures Evicts(m, ip, now, out) && r == Ensured(m, ip, now, out) && ip in r
  {
    r, out := m, None;
    if ip !in m {
      if |m| >= MAX_TRACKED {
        ghost var looked;
        r, out, looked := EvictOne(m, now);
      }
      r := r[ip := Ip(0, None, 0)];
    }
    var st := r[ip];
    if st.failures > 0 && now - st.lastFail >= HOUR && After(now, st.lockedUntil) {
      r := r[ip := st.(failures := 0, lockedUntil := None)];
    }
  }

  /** One more failure of an address: five are free, the next ones lock it for longer and longer. */
  method Count(m: Ips, ip: string, now: Time) returns (d: Time, r: Ips, ghost out: Option<string>)
    ensures Evicts(m, ip, now, out) && r == Counted(m, ip, now, out, true)
    ensures d == Delay(r[ip].failures) && (d > 0 ==> r[ip].lockedUntil == Some(now + d))
  {
    hide Evicts;
    r, out := EnsureIn(m, ip, now);
    var st := r[ip].(failures := r[ip].failures + 1, lastFail := now);
    r := r[ip := st];
    DelayIs(st.failures, st.failures);
    if st.failures <= 5 {
      return 0, r, out;
    }
    d := SECOND * Pow2(if st.failures - 5 > 10 then 10 else st.failures - 5);
    if d > 15 * MINUTE {
      d := 15 * MINUTE;
    }
    r := r[ip := st.(lockedUntil := Some(now + d))];
  }

  lemma EnsuredSize(m: Ips, ip: string, now: Time, out: Option<string>)
    requires out.Some? ==> out.value in m && ip !in m
    ensures |Ensured(m, ip, now, out)| == if ip in m || out.Some? then |m| else |m| + 1
  {
    hide Clean;
    var e := Ensured(m, ip, now, out);
    if ip in m {
      assert e.Keys == m.Keys;
    } else if out.Some? {
      assert e.Keys == m.Keys - {out.value} + {ip};
    } else {
      assert e.Keys == m.Keys + {ip};
    }
  }

  /** A new address takes a place more just below the bound or while every entry is locked, a known one never does. */
  lemma GrowsOnlyWhenLocked(m: Ips, ip: string, now: Time, out: Option<string>)
    requires Evicts(m, ip, now, out)
    ensures var n := |Ensured(m, ip, now, out)|;
      && (n == |m| || n == |m| + 1)
      && (n == |m| + 1 <==> ip !in m && (|m| < MAX_TRACKED || forall k :: k in m ==> !Unlocked(m[k], now)))
  {
    hide Unlocked;
    EnsuredSize(m, ip, now, out);
  }

  // It can grow without bound: addresses that are all locked.

  function Name(n: nat): string {
    seq(n, _ => 'a')
  }

  /** n addresses, each just locked by its sixth failure. */
  function AllLocked(n: nat): Ips {
    if n == 0 then map[] else AllLocked(n - 1)[Name(n - 1) := Ip(6, Some(2 * SECOND), 0)]
  }

  function SixEach(n: nat): seq<Event> {
    if n == 0 then [] else SixEach(n - 1) + Fails(Name(n - 1), 6)
  }

  /** k failed Bearer calls from one address at time 0. */
  function Fails(ip: string, k: nat): seq<Event> {
    if k == 0 then [] else Fails(ip, k - 1) + [FailureBearer(ip, 0, None)]
  }

  lemma {:induction false} AllLockedIs(n: nat)
    ensures |AllLocked(n)| == n
    ensures forall k :: k in AllLocked(n) ==> |k| < n && !Unlocked(AllLocked(n)[k], 0)
  {
    if n > 0 {
      AllLockedIs(n - 1);
      assert Name(n - 1) !in AllLocked(n - 1);
      assert AllLocked(n).Keys == AllLocked(n - 1).Keys + {Name(n - 1)};
    }
  }

  lemma {:induction false} RunThen(s: State, clock: Time, es: seq<Event>, s': State, e: Event)
    requires Run(s, clock, es, s') && Enabled(s', e) && (Timed(e) ==> End(clock, es) <= e.now)
    ensures Run(s, clock, es + [e], Step(s', e)) && End(clock, es + [e]) == Later(End(clock, es), e)
    decreases |es|
  {
    hide Step, Enabled;
    if es == [] {
      assert es + [e] == [e] && [e][1..] == [];
    } else {
      RunThen(Step(s, es[0]), Later(clock, es[0]), es[1..], s', e);
      assert (es + [e])[1..] == es[1..] + [e];
    }
  }

  /** k failures of a new address while all others are locked leave every other entry. */
  lemma {:induction false} FailsRun(es: seq<Event>, m: Ips, ip: string, k: nat)
    requires Run(START, 0, es, START.(bearerIP := m)) && End(0, es) == 0
    requires ip !in m && (forall x :: x in m ==> !Unlocked(m[x], 0)) && 0 < k <= 6
    ensures var t := START.(bearerIP := m[ip := Ip(k, if k == 6 then Some(2 * SECOND) else None, 0)]);
      Run(START, 0, es + Fails(ip, k), t) && End(0, es + Fails(ip, k)) == 0
  {
    hide Run, End;
    var e := FailureBearer(ip, 0, None);
    var before := if k == 1 then m else m[ip := Ip(k - 1, None, 0)];
    if k == 1 {
      assert Fails(ip, 0) == [] && es + [] == es;
    } else {
      FailsRun(es, m, ip, k - 1);
    }
    assert es + Fails(ip, k) == es + Fails(ip, k - 1) + [e];
    RunThen(START, 0, es + Fails(ip, k - 1), START.(bearerIP := before), e);
    FailsOnce(m, ip, k);
  }

  lemma FailsOnce(m: Ips, ip: string, k: nat)
    requires ip !in m && 0 < k <= 6
    ensures var before := if k == 1 then m else m[ip := Ip(k - 1, None, 0)];
      Counted(before, ip, 0, None, true) == m[ip := Ip(k, if k == 6 then Some(2 * SECOND) else None, 0)]
  {
    assert Pow2(1) == 2;
  }

  /** For every n a run after which n addresses are tracked: six failed calls from each of n addresses, one after the other. */
  lemma {:induction false} MapMayPassItsBound(n: nat)
    ensures Run(START, 0, SixEach(n), START.(bearerIP := AllLocked(n))) && End(0, SixEach(n)) == 0 && |AllLocked(n)| == n
  {
    hide Run, End;
    AllLockedIs(n);
    if n == 0 {
      NothingRun();
    } else {
      MapMayPassItsBound(n - 1);
      AllLockedIs(n - 1);
      FailsRun(SixEach(n - 1), AllLocked(n - 1), Name(n - 1), 6);
    }
  }

  lemma NothingRun()
    ensures Run(START, 0, [], START.(bearerIP := map[])) && End(0, []) == 0
  {
  }

  /** A lock until t still holds at now. */
  predicate LocksAt(t: When, now: Time) {
    t.Some? && now < t.value
  }

  /** Its last failure is an hour old and its lock is over: it starts from nothing. */
  predicate Forgiven(st: Ip, now: Time) {
    st.failures > 0 && now - st.lastFail >= HOUR && (st.lockedUntil.None? || st.lockedUntil.value < now)
  }

  /** The back-off a trip starts: a minute after an hour without one, else what the last trip left, a minute at least. */
  function BackoffNow(backoff: Time, lastTrip: When, now: Time): Time {
    if lastTrip.Some? && now - lastTrip.value >= HOUR then MINUTE else Max(backoff, MINUTE)
  }

  /** The places in h of what came in the last 15 minutes. */
  function After15(h: seq<Time>, now: Time): set<int> {
    set i | 0 <= i < |h| && h[i] > now - 15 * MINUTE
  }

  /** The window's failures are those of the last 15 minutes. */
  lemma {:induction false} RecentAre(h: seq<Time>, now: Time)
    ensures |Recent(h, now)| == |After15(h, now)|
    decreases |h|
  {
    if h == [] {
      assert After15(h, now) == {};
      RecentOfNone(now);
    } else {
      hide Recent;
      var n := |h| - 1;
      RecentAre(h[..n], now);
      RecentJoins(h[..n], [h[n]], now);
      RecentOfOne(h[n], now);
      assert h == h[..n] + [h[n]];
      assert n !in After15(h[..n], now);
      assert After15(h, now) == After15(h[..n], now) + (if h[n] > now - 15 * MINUTE then {n} else {});
    }
  }

  lemma RecentOfOne(t: Time, now: Time)
    ensures |Recent([t], now)| == if t > now - 15 * MINUTE then 1 else 0
  {
  }

  class Tracker {
    var perIP: Ips
    var bearerIP: Ips
    var global: seq<Time>
    var globalUntil: When
    var globalBackoff: Time
    var globalLastTrip: When

    ghost function Abs(): State
      reads this
    {
      State(perIP, bearerIP, global, globalUntil, globalBackoff, globalLastTrip)
    }

    constructor ()
      ensures Abs() == START
    {
      perIP, bearerIP, global, globalUntil, globalBackoff, globalLastTrip := map[], map[], [], None, MINUTE, None;
    }

    method Allow(ip: string, now: Time) returns (a: Answer)
      modifies this`perIP
      ensures Abs() == Step(old(Abs()), Event.Allow(ip, now)) && a == PasswordAnswer(old(Abs()), ip, now)
      ensures a.ok <==> !LocksAt(globalUntil, now) && !(ip in old(perIP) && LocksAt(old(perIP)[ip].lockedUntil, now))
      ensures !a.ok ==> a.retryAfter == (if LocksAt(globalUntil, now) then globalUntil else old(perIP)[ip].lockedUntil).value - now
      ensures forall k :: k in perIP <==> k in old(perIP) && !(k == ip && a.ok && Forgiven(old(perIP)[ip], now))
      ensures forall k :: k in perIP ==> perIP[k] == old(perIP)[k]
    {
      if Before(now, globalUntil) {
        return Answer(false, globalUntil.value - now);
      }
      if ip !in perIP {
        return Answer(true, 0);
      }
      var st := perIP[ip];
      if st.failures > 0 && now - st.lastFail >= HOUR && After(now, st.lockedUntil) {
        perIP := perIP - {ip};
        return Answer(true, 0);
      }
      if Before(now, st.lockedUntil) {
        return Answer(false, st.lockedUntil.value - now);
      }
      return Answer(true, 0);
    }

    method NoteFailureTime(now: Time)
      modifies this`global
      ensures global == Recent(old(global), now) + [now]
    {
      var trimmed: seq<Time> := [];
      for i := 0 to |global|
        invariant trimmed + Recent(global[i..], now) == Recent(global, now)
        invariant global == old(global)
      {
        if global[i] > now - WINDOW {
          trimmed := trimmed + [global[i]];
        }
      }
      RecentOfNone(now);
      assert trimmed + [] == trimmed;
      global := trimmed + [now];
    }

    /** Starts the global back-off and doubles the next one. */
    method Trip(now: Time) returns (d: Time)
      modifies this`globalBackoff, this`globalUntil, this`globalLastTrip
      ensures Abs() == Tripped(old(Abs()), now) && globalUntil == Some(now + d)
      ensures d == Max(old(globalBackoff), MINUTE) && globalLastTrip == Some(now)
      ensures globalBackoff == if d < 15 * MINUTE then Min(2 * d, 15 * MINUTE) else d
    {
      if globalBackoff < MINUTE {
        globalBackoff := MINUTE;
      }
      globalUntil, globalLastTrip, d := Some(now + globalBackoff), Some(now), globalBackoff;
      if globalBackoff < MAX_BACKOFF {
        globalBackoff := 2 * globalBackoff;
        if globalBackoff > MAX_BACKOFF {
          globalBackoff := MAX_BACKOFF;
        }
      }
    }

    /** A failed password, code or recovery attempt; d is the back-off it starts, if any. */
    method Failure(ip: string, now: Time) returns (d: Time, ghost out: Option<string>)
      modifies this
      ensures Evicts(old(perIP), ip, now, out) && Abs() == Step(old(Abs()), Event.Failure(ip, now, out))
      ensures old(Trips(Abs(), now)) ==> globalUntil == Some(now + d)
      ensures ip in perIP && perIP[ip].lastFail == now
      ensures perIP[ip].failures == 1 + if ip in old(perIP) && !Forgiven(old(perIP)[ip], now) then old(perIP)[ip].failures else 0
      ensures old(Trips(Abs(), now)) ==>
        d == BackoffNow(old(globalBackoff), old(globalLastTrip), now)
        && globalBackoff == (if d < 15 * MINUTE then Min(2 * d, 15 * MINUTE) else d) && globalLastTrip == Some(now)
      ensures !old(Trips(Abs(), now)) ==> globalUntil == old(globalUntil)
      ensures !old(Trips(Abs(), now)) ==> d == Delay(perIP[ip].failures) && (d > 0 ==> perIP[ip].lockedUntil == Some(now + d))
    {
      hide Recent, Evicts, Delay;
      NoteFailureTime(now);
      if globalLastTrip.Some? && now - globalLastTrip.value >= HOUR {
        globalBackoff, globalLastTrip := MINUTE, None;
      }
      if |global| > 20 {
        d := Trip(now);
        var m;
        m, out := EnsureIn(perIP, ip, now);
        perIP := m[ip := m[ip].(failures := m[ip].failures + 1, lastFail := now)];
        return;
      }
      d, perIP, out := Count(perIP, ip, now);
    }

    method Success(ip: string)
      modifies this`perIP
      ensures Abs() == Step(old(Abs()), Event.Success(ip))
      ensures perIP == old(perIP) - {ip}
    {
      perIP := perIP - {ip};
    }

    method AllowBearer(ip: string, now: Time) returns (a: Answer)
      modifies this`bearerIP
      ensures Abs() == Step(old(Abs()), Event.AllowBearer(ip, now)) && a == Asked(old(bearerIP), ip, now).1
      ensures a.ok <==> !(ip in old(bearerIP) && LocksAt(old(bearerIP)[ip].lockedUntil, now))
      ensures !a.ok ==> a.retryAfter == old(bearerIP)[ip].lockedUntil.value - now
    {
      if ip !in bearerIP {
        return Answer(true, 0);
      }
      var st := bearerIP[ip];
      if st.failures > 0 && now - st.lastFail >= HOUR && After(now, st.lockedUntil) {
        bearerIP := bearerIP - {ip};
        return Answer(true, 0);
      }
      if Before(now, st.lockedUntil) {
        return Answer(false, st.lockedUntil.value - now);
      }
      return Answer(true, 0);
    }

    method FailureBearer(ip: string, now: Time) returns (d: Time, ghost out: Option<string>)
      modifies this`bearerIP
      ensures Evicts(old(bearerIP), ip, now, out) && Abs() == Step(old(Abs()), Event.FailureBearer(ip, now, out))
      ensures d == Delay(bearerIP[ip].failures)
      ensures ip in bearerIP && bearerIP[ip].lastFail == now && (d > 0 ==> bearerIP[ip].lockedUntil == Some(now + d))
      ensures bearerIP[ip].failures
        == 1 + if ip in old(bearerIP) && !Forgiven(old(bearerIP)[ip], now) then old(bearerIP)[ip].failures else 0
    {
      d, bearerIP, out := Count(bearerIP, ip, now);
    }

    method SuccessBearer(ip: string)
      modifies this`bearerIP
      ensures Abs() == Step(old(Abs()), Event.SuccessBearer(ip))
      ensures bearerIP == old(bearerIP) - {ip}
    {
      bearerIP := bearerIP - {ip};
    }

    /** Break-glass. It keeps when the last trip was. */
    method Reset()
      modifies this
      ensures Abs() == Step(old(Abs()), Event.Reset)
      ensures perIP == bearerIP == map[] && global == [] && globalUntil == None && globalBackoff == MINUTE
    {
      perIP, bearerIP, global, globalUntil, globalBackoff := map[], map[], [], None, MINUTE;
    }
  }
}
