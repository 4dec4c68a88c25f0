/** The boot gate: opens wait for the boot plan, and none is sent while the wallet's sessions are unknown. */
module Gate {
  import opened Basics

  /**
   lists and posts count the whole session lists read and the opens sent since the gate was set; held: some request
   was handed a session.
   */
  datatype State = State(gated: bool, released: bool, known: bool, lists: nat, posts: nat, held: bool)

  datatype Event =
    | Release                    // the plan decided, or the gate timed out
    | PlanRead                   // the boot plan read a whole list it could verify
    | PlanFailed
    | Scan(read: bool)
    | Acquire(read: bool)        // an open past the gate: it scans first; read says whether the scan did
    | HandOut                    // a request is handed the session in a slot, gate or no gate
    | FailoverOpen               // an open past the gate for a request whose session failed: it does not ask the state

  predicate Past(s: State) {
    !s.gated || s.released
  }

  /** A slot is filled by the plan or a scan that read a list, or by an open that was sent. */
  predicate MayBePooled(s: State) {
    s.lists > 0 || s.posts > 0
  }

  predicate Enabled(s: State, e: Event) {
    match e
    case Acquire(_) => Past(s)
    case HandOut => MayBePooled(s)
    case FailoverOpen => Past(s) && s.held
    case _ => true
  }

  function Read(s: State): State {
    s.(known := true, lists := s.lists + 1)
  }

  /** Whether an open that got past the gate is sent. */
  predicate Sends(s: State, read: bool) {
    read || !(s.gated && !s.known)
  }

  function Step(s: State, e: Event): State {
    match e
    case Release => s.(released := true)
    case PlanRead => Read(s)
    case PlanFailed => s
    case Scan(read) => if read then Read(s) else s
    case Acquire(read) =>
      var t := if read then Read(s) else s;
      if Sends(s, read) then t.(posts := t.posts + 1, held := true) else t
    case HandOut => s.(held := true)
    case FailoverOpen => s.(posts := s.posts + 1)
  }

  ghost predicate Run(s: State, es: seq<Event>, s': State)
    decreases |es|
  {
    if es == [] then s == s' else Enabled(s, es[0]) && Run(Step(s, es[0]), es[1..], s')
  }

  const GATED := State(true, false, false, 0, 0, false)

  ghost predicate Inv(s: State) {
    s.gated && (s.known <==> s.lists > 0) && (s.posts > 0 || s.held ==> s.known)
  }

  lemma {:induction false} RunKeepsInv(s: State, es: seq<Event>, s': State)
    requires Inv(s) && Run(s, es, s')
    ensures Inv(s')
    decreases |es|
  {
    if es != [] {
      RunKeepsInv(Step(s, es[0]), es[1..], s');
    }
  }

  predicate Reads(e: Event) {
    e.PlanRead? || (e.Scan? && e.read) || (e.Acquire? && e.read)
  }

  lemma {:induction false} ListsAreReads(s: State, es: seq<Event>, s': State)
    requires Run(s, es, s') && forall i :: 0 <= i < |es| ==> !Reads(es[i])
    ensures s'.lists == s.lists
    decreases |es|
  {
    if es != [] {
      assert !Reads(es[0]);
      ListsAreReads(Step(s, es[0]), es[1..], s');
    }
  }

  /**
   Once gated no run sends an open before a whole session list was read, not even a failover's, which does not ask:
   it needs a session handed out. However often the gate is released, by a time-out or not, a run in which every list
   failed sends none and hands out none, and its opens are refused.
   */
  lemma NoOpenBeforeAList(es: seq<Event>, s: State)
    requires Run(GATED, es, s)
    ensures s.posts > 0 ==> exists i :: 0 <= i < |es| && Reads(es[i])
    ensures !s.known ==> s.posts == 0 && !s.held && !Enabled(s, FailoverOpen) && !Sends(s, false)
  {
    RunKeepsInv(GATED, es, s);
    if forall i :: 0 <= i < |es| ==> !Reads(es[i]) {
      ListsAreReads(GATED, es, s);
    }
  }

  /** Whether the k-th try of the boot plan reads a list it can use, when it ends, and whether Uplink is told to stop after it. */
  datatype Tries = Tries(lists: nat -> bool, ends: nat -> Time, stops: nat -> bool)

  class OpenGate {
    var gated: bool
    var released: bool
    var known: bool
    ghost var lists: nat
    ghost var posts: nat
    ghost var held: bool

    ghost function Abs(): State
      reads this
    {
      State(gated, released, known, lists, posts, held)
    }

    constructor ()
      ensures Abs() == GATED
    {
      gated, released, known, lists, posts, held := true, false, false, 0, 0, false;
    }

    method Release()
      modifies this`released
      ensures Abs() == Step(old(Abs()), Event.Release)
    {
      released := true;
    }

    method ListRead()
      modifies this`known, this`lists
      ensures Abs() == Step(old(Abs()), PlanRead) == Step(old(Abs()), Scan(true))
    {
      known, lists := true, lists + 1;
    }

    /** An open's scan came back, or failed; false: refused, the session state is unknown. */
    method MayOpen(read: bool) returns (ok: bool)
      requires !gated || released
      modifies this`known, this`lists, this`posts, this`held
      ensures Abs() == Step(old(Abs()), Acquire(read)) && ok == Sends(old(Abs()), read)
      ensures ok <==> read || !gated || old(known)
      ensures known <==> read || old(known)
    {
      if read {
        ListRead();
      } else if gated && !known {
        return false;
      }
      posts, held := posts + 1, true;
      return true;
    }

    method HandOut()
      requires MayBePooled(Abs())
      modifies this`held
      ensures Abs() == Step(old(Abs()), Event.HandOut)
    {
      held := true;
    }

    method FailoverOpen()
      requires Past(Abs()) && held
      modifies this`posts
      ensures Abs() == Step(old(Abs()), Event.FailoverOpen)
    {
      posts := posts + 1;
    }

    /**
     The boot reconcile: plans until one list can be used. The gate opens when one was, or when its time is over; only
     the first makes the session state known. Gives up when told to stop.
     */
    method Startup(deadline: Time, retries: nat, tries: Tries) returns (planned: bool, ghost tried: nat)
      modifies this`known, this`lists, this`released
      ensures released && tried <= retries
      ensures forall k: nat :: k < tried - (if planned then 1 else 0) ==> !tries.lists(k)
      ensures forall k: nat :: k < tried - 1 ==> !tries.stops(k)
      ensures planned ==> tried > 0 && tries.lists(tried - 1)
      ensures !planned ==> tried == retries || (tried > 0 && tries.stops(tried - 1))
      ensures known == (old(known) || planned) && lists == old(lists) + if planned then 1 else 0
    {
      tried := 0;
      for i := 0 to retries
        invariant tried == i && known == old(known) && lists == old(lists)
        invariant forall k: nat :: k < i ==> !tries.lists(k) && !tries.stops(k)
      {
        tried := tried + 1;
        if tries.lists(i) {
          ListRead();
          Release();
          return true, tried;
        }
        if tries.ends(i) > deadline && !released {
          Release();
        }
        if tries.stops(i) {
          break;
        }
      }
      Release();
      return false, tried;
    }
  }
}
