/**
 The wallet slot: a queueing mutex with cancel, timeout and direct hand-off.

 `State` and `Step` describe its atomic steps: what runs under the slot's mutex, the compare-and-swap on a
 token's released flag, and a waiter's receive from its channel. A run is any interleaving of them. `WalletSlot`
 is the slot itself; each method is tied to the step it performs.
 */
module Slot {
  import opened Basics

  const MAX_QUEUED_PER_KEY := 2

  datatype Waiter = Waiter(id: nat, key: string)

  /** Tokens are numbered from 1 in the order they are granted, waiters from 0 in the order they queue. */
  datatype State = State(
    holder: Option<nat>,
    queue: seq<Waiter>,
    granted: nat,           // tokens ever granted; the newest token's number
    enqueued: nat,          // waiters ever queued
    chans: map<nat, nat>,   // waiter -> the token in its channel, not yet received
    released: set<nat>,     // tokens whose released flag is set
    finishing: set<nat>,    // flag set, the rest of that release not yet run
    inHand: set<nat>,       // tokens some goroutine has been given
    handed: seq<nat>,       // waiters given the slot, in order
    left: set<nat>,         // waiters that left the queue without it
    held: int,
    maxHeld: int)

  const Free := State(None, [], 0, 0, map[], {}, {}, {}, [], {}, 0, 0)

  datatype Event =
    | TryAcquire(key: string)
    | Acquire(key: string)
    | Receive(waiter: nat)        // a waiter takes the token from its channel
    | Leave(waiter: nat)          // its context ended or its timer fired
    | FlagReleased(token: nat)    // release: the compare-and-swap
    | FinishRelease(token: nat)   // release: the part under the mutex

  function CountKey(queue: seq<Waiter>, key: string): nat {
    if queue == [] then 0
    else (if queue[0].key == key then 1 else 0) + CountKey(queue[1..], key)
  }

  function Ids(queue: seq<Waiter>): set<nat> {
    set w | w in queue :: w.id
  }

  function Without(queue: seq<Waiter>, id: nat): seq<Waiter> {
    Filter(queue, (w: Waiter) => w.id != id)
  }

  function Grant(s: State): State {
    s.(holder := Some(s.granted + 1), granted := s.granted + 1, held := s.held + 1, maxHeld := Max(s.maxHeld, s.held + 1))
  }

  function GrantTo(s: State): State {
    Grant(s).(inHand := s.inHand + {s.granted + 1})
  }

  function HandToFront(s: State): State
    requires s.queue != []
  {
    var w := s.queue[0];
    Grant(s).(queue := s.queue[1..], handed := s.handed + [w.id], chans := s.chans[w.id := s.granted + 1])
  }

  predicate Idle(s: State) {
    s.holder.None? && s.queue == []
  }

  predicate Enabled(s: State, e: Event) {
    match e
    case TryAcquire(_) => true
    case Acquire(_) => true
    case Receive(w) => w in s.chans
    case Leave(w) => w in s.chans || w in Ids(s.queue)
    case FlagReleased(t) => t in s.inHand
    case FinishRelease(t) => t in s.finishing
  }

  function Step(s: State, e: Event): State
    requires Enabled(s, e)
  {
    match e
    case TryAcquire(_) => if Idle(s) then GrantTo(s) else s
    case Acquire(key) =>
      if Idle(s) then GrantTo(s)
      else if key != "" && CountKey(s.queue, key) >= MAX_QUEUED_PER_KEY then s
      else s.(queue := s.queue + [Waiter(s.enqueued, key)], enqueued := s.enqueued + 1)
    case Receive(w) => s.(chans := s.chans - {w}, inHand := s.inHand + {s.chans[w]})
    case Leave(w) =>
      if w in s.chans then s.(chans := s.chans - {w}, inHand := s.inHand + {s.chans[w]})
      else s.(queue := Without(s.queue, w), left := s.left + {w})
    case FlagReleased(t) =>
      if t in s.released then s else s.(released := s.released + {t}, finishing := s.finishing + {t})
    case FinishRelease(t) =>
      var s' := s.(finishing := s.finishing - {t});
      if s.holder != Some(t) then s'
      else
        var s'' := s'.(holder := None, held := s.held - 1);
        if s.queue == [] then s'' else HandToFront(s'')
  }

  /** s' is reached from s by the events es, each enabled when it happens. */
  ghost predicate Run(s: State, es: seq<Event>, s': State)
    decreases |es|
  {
    if es == [] then s == s' else Enabled(s, es[0]) && Run(Step(s, es[0]), es[1..], s')
  }

  ghost predicate Increasing(s: seq<nat>) {
    forall i, j :: 0 <= i < j < |s| ==> s[i] < s[j]
  }

  /** Who may still use which token. */
  ghost predicate TokensInv(s: State) {
    && (s.holder.None? ==> s.queue == [] && forall w :: w !in s.chans)
    && (s.holder.Some? ==> s.holder.value == s.granted && 0 < s.granted)
    && (forall t :: t in s.released ==> 1 <= t <= s.granted)
    && (forall t :: t in s.inHand ==> 1 <= t <= s.granted)
    && (forall t :: t in s.finishing ==> s.holder == Some(t))
    && (forall t :: 1 <= t <= s.granted && s.holder != Some(t) ==> t in s.released)
    && (s.holder.Some? ==> (s.granted in s.released <==> s.granted in s.finishing))
    && (s.holder.Some? ==> (s.granted in s.inHand <==> forall w :: w !in s.chans))
    && (forall w :: w in s.chans ==> s.chans[w] == s.granted && s.granted !in s.released)
    && (forall v, w :: v in s.chans && w in s.chans ==> v == w)
    && s.held == (if s.holder.Some? then 1 else 0)
    && (s.maxHeld == if s.granted == 0 then 0 else 1)
  }

  ghost predicate Ordered(queue: seq<Waiter>) {
    forall i, j :: 0 <= i < j < |queue| ==> queue[i].id < queue[j].id
  }

  /** Every waiter ever queued is in exactly one of three places, and the served and the waiting keep queue order. */
  ghost predicate QueueInv(s: State) {
    && Increasing(s.handed)
    && Ordered(s.queue)
    && (forall h, w :: h in s.handed && w in s.queue ==> h < w.id)
    && (forall w: nat :: w < s.enqueued <==> w in s.handed || w in Ids(s.queue) || w in s.left)
    && (forall w :: w in s.left ==> w !in s.handed && w !in Ids(s.queue))
    && (forall w :: w in s.chans ==> w in s.handed)
    && (forall key :: key != "" ==> CountKey(s.queue, key) <= MAX_QUEUED_PER_KEY)
  }

  ghost predicate Inv(s: State) {
    TokensInv(s) && QueueInv(s)
  }

  lemma {:induction false} CountAppend(q: seq<Waiter>, w: Waiter, key: string)
    ensures CountKey(q + [w], key) == CountKey(q, key) + (if w.key == key then 1 else 0)
  {
    if q != [] {
      assert (q + [w])[1..] == q[1..] + [w];
      CountAppend(q[1..], w, key);
    }
  }

  lemma {:induction false} CountWithout(q: seq<Waiter>, id: nat, key: string)
    ensures CountKey(Without(q, id), key) <= CountKey(q, key)
  {
    if q != [] {
      CountWithout(q[1..], id, key);
      var r := Filter(q[1..], (w: Waiter) => w.id != id);
      assert ([q[0]] + r)[1..] == r;
    }
  }

  /** Leaving the queue keeps the order of the rest. */
  lemma {:induction false} WithoutKeepsOrder(q: seq<Waiter>, id: nat)
    requires Ordered(q)
    ensures Ordered(Without(q, id))
  {
    if q != [] {
      assert Ordered(q[1..]);
      WithoutKeepsOrder(q[1..], id);
      assert forall w :: w in q[1..] ==> q[0].id < w.id;
    }
  }

  lemma LeaveKeepsQueue(s: State, w: nat)
    requires Inv(s) && Enabled(s, Leave(w)) && w !in s.chans
    ensures QueueInv(Step(s, Leave(w)))
  {
    var q := Without(s.queue, w);
    WithoutKeepsOrder(s.queue, w);
    forall k | k != "" ensures CountKey(q, k) <= MAX_QUEUED_PER_KEY {
      CountWithout(s.queue, w, k);
    }
    assert forall x :: x in q <==> x in s.queue && x.id != w;
    assert Ids(q) == Ids(s.queue) - {w};
  }

  lemma AcquireKeepsQueue(s: State, key: string)
    requires Inv(s)
    ensures QueueInv(Step(s, Acquire(key)))
  {
    var s' := Step(s, Acquire(key));
    if s'.queue != s.queue {
      var w := Waiter(s.enqueued, key);
      assert Ids(s'.queue) == Ids(s.queue) + {w.id};
      forall x | x in s.queue ensures x.id < s.enqueued {
        assert x.id in Ids(s.queue);
      }
      forall k | k != "" ensures CountKey(s'.queue, k) <= MAX_QUEUED_PER_KEY {
        CountAppend(s.queue, w, k);
      }
    }
  }

  lemma HandOverKeepsQueue(s: State)
    requires QueueInv(s) && s.queue != []
    ensures QueueInv(HandToFront(s))
  {
    var w, rest := s.queue[0], s.queue[1..];
    assert s.queue == [w] + rest;
    assert Ids(s.queue) == {w.id} + Ids(rest);
    assert w.id !in Ids(rest);
    forall i | 0 <= i < |s.handed| ensures s.handed[i] < w.id {
      assert s.handed[i] in s.handed;
    }
    assert Increasing(s.handed + [w.id]);
    forall x | x in rest ensures w.id < x.id {}
    forall k | k != "" ensures CountKey(rest, k) <= MAX_QUEUED_PER_KEY {
      assert CountKey(rest, k) <= CountKey(s.queue, k);
    }
  }

  lemma FinishKeepsQueue(s: State, t: nat)
    requires Inv(s) && t in s.finishing
    ensures QueueInv(Step(s, FinishRelease(t)))
  {
    if s.queue != [] {
      HandOverKeepsQueue(s.(finishing := s.finishing - {t}, holder := None, held := s.held - 1));
    }
  }

  lemma StepKeepsInv(s: State, e: Event)
    requires Inv(s) && Enabled(s, e)
    ensures Inv(Step(s, e))
  {
    match e
    case TryAcquire(_) =>
    case Acquire(key) => AcquireKeepsQueue(s, key);
    case Receive(_) =>
    case FlagReleased(_) =>
    case FinishRelease(t) =>
      FinishKeepsQueue(s, t);
      assert s.queue != [] ==> s.queue[0].id in Step(s, e).chans;
    case Leave(w) =>
      if w !in s.chans {
        LeaveKeepsQueue(s, w);
      }
  }

  /** The invariant holds after every interleaving of acquires, receives, cancels, time-outs and releases. */
  lemma {:induction false} RunKeepsInv(s: State, es: seq<Event>, s': State)
    requires Inv(s) && Run(s, es, s')
    ensures Inv(s')
    decreases |es|
  {
    if es != [] {
      StepKeepsInv(s, es[0]);
      RunKeepsInv(Step(s, es[0]), es[1..], s');
    }
  }

  lemma Reachable(es: seq<Event>, s: State)
    requires Run(Free, es, s)
    ensures Inv(s)
  {
    RunKeepsInv(Free, es, s);
  }

  /** At most one hold: two granted tokens whose release has not finished are the same token, and it is the holder. */
  lemma MutualExclusion(es: seq<Event>, s: State, t: nat, u: nat)
    requires Run(Free, es, s)
    requires 1 <= t <= s.granted && (t !in s.released || t in s.finishing)
    requires 1 <= u <= s.granted && (u !in s.released || u in s.finishing)
    ensures t == u && s.holder == Some(t) && s.maxHeld == 1
  {
    Reachable(es, s);
  }

  /** Nobody queues for a free slot, and a held slot is in one hand: a caller's, or one waiter's channel. */
  lemma NoIdleWait(es: seq<Event>, s: State)
    requires Run(Free, es, s)
    ensures s.queue != [] ==> s.holder.Some?
    ensures s.holder.None? ==> s.chans == map[]
    ensures s.holder.Some? ==> (s.holder.value in s.inHand <==> forall w :: w !in s.chans)
    ensures s.holder.Some? ==> forall w :: w in s.chans ==> s.chans == map[w := s.holder.value]
  {
    Reachable(es, s);
  }

  /** Served in the order they queued: a waiter is passed over only if it left. */
  lemma FirstComeFirstServed(es: seq<Event>, s: State, early: nat, late: nat)
    requires Run(Free, es, s)
    requires early < late && late in s.handed
    ensures early in s.handed || early in s.left
    ensures forall i, j :: 0 <= i < |s.handed| && 0 <= j < |s.handed| && s.handed[i] == early && s.handed[j] == late ==> i < j
  {
    Reachable(es, s);
  }

  /** Releasing a token whose hold has ended changes nothing, so it never ends another hold. */
  lemma OldReleaseIsHarmless(es: seq<Event>, s: State, t: nat)
    requires Run(Free, es, s) && t in s.inHand && s.holder != Some(t)
    ensures Step(s, FlagReleased(t)) == s && !Enabled(s, FinishRelease(t))
  {
    Reachable(es, s);
  }

  /** From s, whose holder is t, the slot went to the head of the queue, or is free if nobody queued. */
  ghost predicate PassedOn(s: State, t: nat, s': State) {
    if s.queue == [] then Idle(s') && s'.chans == map[]
    else s'.holder == Some(t + 1) && s'.chans == map[s.queue[0].id := t + 1] && s'.queue == s.queue[1..]
  }

  /** Steps of other callers: none releases token t. */
  predicate Others(es: seq<Event>, t: nat) {
    forall i :: 0 <= i < |es| ==> es[i] != FlagReleased(t) && es[i] != FinishRelease(t)
  }

  ghost predicate InOneHand(s: State, t: nat) {
    Inv(s) && s.holder == Some(t) && t in s.inHand && s.chans == map[]
  }

  /** A token in a caller's hand stays there, whatever the others do, until that caller releases it. */
  lemma {:induction false} OthersLeaveTheHand(s: State, t: nat, es: seq<Event>, s': State)
    requires InOneHand(s, t) && Run(s, es, s') && Others(es, t)
    ensures InOneHand(s', t) && (t in s'.finishing <==> t in s.finishing)
    decreases |es|
  {
    if es != [] {
      assert es[0] != FlagReleased(t) && es[0] != FinishRelease(t);
      StepKeepsInv(s, es[0]);
      OthersLeaveTheHand(Step(s, es[0]), t, es[1..], s');
    }
  }

  /**
   A hand-off that meets its waiter's cancel is passed on: whatever others do between the waiter's leaving, its
   release and the end of that release, the slot goes to who is then next in line, or becomes free.
   */
  lemma RacingHandOffIsPassedOn(es: seq<Event>, s: State, w: nat, xs: seq<Event>, s2: State)
    requires Run(Free, es, s) && w in s.chans
    requires Run(Step(s, Leave(w)), xs, s2) && Others(xs, s.chans[w])
    ensures Enabled(s2, FlagReleased(s.chans[w]))
    ensures forall ys, s3 :: Run(Step(s2, FlagReleased(s.chans[w])), ys, s3) && Others(ys, s.chans[w]) ==>
      Enabled(s3, FinishRelease(s.chans[w])) && PassedOn(s3, s.chans[w], Step(s3, FinishRelease(s.chans[w])))
  {
    var t := s.chans[w];
    Reachable(es, s);
    StepKeepsInv(s, Leave(w));
    assert s.chans - {w} == map[];
    OthersLeaveTheHand(Step(s, Leave(w)), t, xs, s2);
    var flagged := Step(s2, FlagReleased(t));
    StepKeepsInv(s2, FlagReleased(t));
    forall ys, s3 | Run(flagged, ys, s3) && Others(ys, t)
      ensures Enabled(s3, FinishRelease(t)) && PassedOn(s3, t, Step(s3, FinishRelease(t)))
    {
      OthersLeaveTheHand(flagged, t, ys, s3);
      PassedNext(s3, t);
    }
  }

  lemma PassedNext(s: State, t: nat)
    requires InOneHand(s, t) && t in s.finishing
    ensures PassedOn(s, t, Step(s, FinishRelease(t)))
  {
  }

  /** The count of a key is how many places of the queue hold it. */
  lemma {:induction false} CountIsSize(q: seq<Waiter>, key: string)
    ensures CountKey(q, key) == |set i | 0 <= i < |q| && q[i].key == key|
  {
    var places := set i | 0 <= i < |q| && q[i].key == key;
    if q == [] {
      assert places == {};
    } else {
      hide CountKey;
      var n := |q| - 1;
      var front := q[..n];
      CountIsSize(front, key);
      CountAppend(front, q[n], key);
      assert q == front + [q[n]];
      var before := set i | 0 <= i < |front| && front[i].key == key;
      assert n !in before;
      assert places == before + (if q[n].key == key then {n} else {});
    }
  }

  /** One caller takes the free slot, a second queues behind it, and is handed the slot when the first releases. */
  lemma SecondIsServed(key: string) returns (es: seq<Event>, s: State)
    ensures Run(Free, es, s) && s.holder == Some(1) && s.queue == [Waiter(0, key)]
    ensures Enabled(s, FlagReleased(1)) && Enabled(Step(s, FlagReleased(1)), FinishRelease(1))
    ensures var t := Step(Step(s, FlagReleased(1)), FinishRelease(1));
      && t.holder == Some(2) && t.queue == [] && t.chans == map[0 := 2] && t.handed == [0]
      && Enabled(t, Receive(0)) && 2 in Step(t, Receive(0)).inHand
  {
    var a := Acquire(key);
    var s1 := Step(Free, a);
    s := Step(s1, a);
    es := [a, a];
    assert es[1..] == [a] && es[1..][1..] == [];
    assert Run(s1, [a], s);
  }

  datatype Admission = Granted(token: nat) | Busy | Queued(waiter: nat)

  class WalletSlot {
    var holder: Option<nat>
    var waiters: seq<Waiter>
    var nextID: nat
    var chans: map<nat, nat>
    var nextWaiter: nat
    var released: set<nat>
    var held: int
    var maxHeld: int
    ghost var finishing: set<nat>
    ghost var inHand: set<nat>
    ghost var handed: seq<nat>
    ghost var left: set<nat>

    ghost function Abs(): State
      reads this
    {
      State(holder, waiters, nextID, nextWaiter, chans, released, finishing, inHand, handed, left, held, maxHeld)
    }

    constructor ()
      ensures Abs() == Free
    {
      holder, waiters, nextID, chans, released, held, maxHeld := None, [], 0, map[], {}, 0, 0;
      finishing, inHand, handed, left, nextWaiter := {}, {}, [], {}, 0;
    }

    method GrantLocked() returns (tok: nat)
      modifies this
      ensures Abs() == Grant(old(Abs())) && tok == nextID
    {
      nextID := nextID + 1;
      tok := nextID;
      holder := Some(tok);
      held := held + 1;
      if held > maxHeld {
        maxHeld := held;
      }
    }

    method TryAcquire(key: string) returns (tok: Option<nat>)
      modifies this
      ensures Abs() == Step(old(Abs()), Event.TryAcquire(key))
      ensures tok.Some? <==> old(holder).None? && old(waiters) == []
      ensures tok.Some? ==> tok == holder == Some(old(nextID) + 1) && tok.value in inHand
      ensures tok.None? ==> Abs() == old(Abs())
    {
      if holder.Some? || |waiters| > 0 {
        return None;
      }
      var t := GrantLocked();
      inHand := inHand + {t};
      return Some(t);
    }

    /** The part of acquire under the mutex; a queued caller then waits (Receive or Leave). */
    method Acquire(key: string) returns (r: Admission)
      modifies this
      ensures Abs() == Step(old(Abs()), Event.Acquire(key))
      ensures r.Granted? <==> old(holder).None? && old(waiters) == []
      ensures r.Granted? ==> r.token == old(nextID) + 1 && holder == Some(r.token) && r.token in inHand && waiters == []
      ensures !r.Granted? ==> (r.Busy? <==> key != "" && |set i | 0 <= i < |old(waiters)| && old(waiters)[i].key == key| >= 2)
      ensures r.Queued? ==> r.waiter == old(nextWaiter) && waiters == old(waiters) + [Waiter(r.waiter, key)]
      ensures r.Queued? ==> holder == old(holder) && chans == old(chans) && inHand == old(inHand) && nextID == old(nextID)
      ensures r.Busy? ==> Abs() == old(Abs())
    {
      CountIsSize(waiters, key);
      if holder.None? && |waiters| == 0 {
        var t := GrantLocked();
        inHand := inHand + {t};
        return Granted(t);
      }
      if key != "" {
        var n, i := 0, 0;
        while i < |waiters|
          invariant 0 <= i <= |waiters|
          invariant n + CountKey(waiters[i..], key) == CountKey(waiters, key)
        {
          if waiters[i].key == key {
            n := n + 1;
          }
          assert waiters[i..][1..] == waiters[i + 1..];
          i := i + 1;
        }
        if n >= MAX_QUEUED_PER_KEY {
          return Busy;
        }
      }
      r := Queued(nextWaiter);
      waiters := waiters + [Waiter(nextWaiter, key)];
      nextWaiter := nextWaiter + 1;
    }

    method Receive(w: nat) returns (tok: nat)
      requires w in chans
      modifies this
      ensures Abs() == Step(old(Abs()), Event.Receive(w)) && tok == old(chans)[w]
      ensures tok in inHand && chans == old(chans) - {w} && holder == old(holder) && waiters == old(waiters)
    {
      tok := chans[w];
      chans := chans - {w};
      inHand := inHand + {tok};
    }

    /** A waiter's context or timer ended first. A token that arrived at the same moment is the caller's to release. */
    method Leave(w: nat) returns (passOn: Option<nat>)
      requires w in chans || w in Ids(waiters)
      modifies this
      ensures Abs() == Step(old(Abs()), Event.Leave(w))
      ensures passOn == if w in old(chans) then Some(old(chans)[w]) else None
      ensures passOn.Some? ==> passOn.value in inHand && w !in chans && waiters == old(waiters)
      ensures passOn.None? ==> chans == old(chans) && (forall x :: x in waiters <==> x in old(waiters) && x.id != w)
      ensures holder == old(holder) && nextID == old(nextID)
    {
      if w in chans {
        passOn := Some(chans[w]);
        inHand := inHand + {chans[w]};
        chans := chans - {w};
      } else {
        passOn := None;
        waiters := Without(waiters, w);
        left := left + {w};
      }
    }

    method FlagReleased(tok: nat) returns (first: bool)
      requires tok in inHand
      modifies this
      ensures Abs() == Step(old(Abs()), Event.FlagReleased(tok)) && first == (tok !in old(released))
    {
      first := tok !in released;
      if first {
        released := released + {tok};
        finishing := finishing + {tok};
      }
    }

    method FinishRelease(tok: nat)
      requires tok in finishing
      modifies this
      ensures Abs() == Step(old(Abs()), Event.FinishRelease(tok))
    {
      finishing := finishing - {tok};
      if holder != Some(tok) {
        return;
      }
      held := held - 1;
      holder := None;
      if |waiters| > 0 {
        var w := waiters[0];
        waiters := waiters[1..];
        var t := GrantLocked();
        chans := chans[w.id := t];
        handed := handed + [w.id];
      }
    }

    /** release with nothing in between: idempotent, and the head waiter gets the slot. */
    method Release(tok: nat)
      requires tok in inHand
      modifies this
      ensures tok in old(released) ==> Abs() == old(Abs())
      ensures tok !in old(released) ==>
        var flagged := Step(old(Abs()), Event.FlagReleased(tok));
        Abs() == Step(flagged, Event.FinishRelease(tok))
      ensures tok in released
      ensures tok in old(released) || old(holder) != Some(tok) ==> holder == old(holder) && waiters == old(waiters) && chans == old(chans)
      ensures tok !in old(released) && old(holder) == Some(tok) ==>
        if old(waiters) == [] then holder == None && waiters == [] && chans == old(chans)
        else holder == Some(old(nextID) + 1) && waiters == old(waiters)[1..] && chans == old(chans)[old(waiters)[0].id := old(nextID) + 1]
    {
      var first := FlagReleased(tok);
      if first {
        FinishRelease(tok);
      }
    }

    method Holds(tok: nat) returns (r: bool)
      ensures r == (tok !in released && holder == Some(tok))
    {
      if tok in released {
        return false;
      }
      return holder == Some(tok);
    }
  }
}
