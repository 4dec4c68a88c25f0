/**
 Leases, holders and closing, as the steps taken inside the pool's critical sections. A run is any interleaving
 of these steps by requests, failovers, scans, sweeps and closes; the router's answers are arguments.

 Two locks matter outside the sections: the model's open lock and the wallet slot. The one stretch that depends on
 them is an open that takes over a session the router named: between reading it (NameExisting) and pooling it
 (AdoptNamed) it holds both, so no sweep close and no failover of that model runs meanwhile.
 */
module Leases {
  import opened Basics
  import opened Sessions

  const MAX_CLOSE_RETRIES := 3

  datatype Entry = Entry(sessionID: string, expiresAt: Time, provider: string)

  datatype Sess = Sess(model: string, inflight: nat, holders: map<string, Time>, lastUse: Time, openedAt: Time, endsAt: Time,
                       opener: string, retired: bool, retiredAt: Time, closing: bool, closeFails: nat)
  {
    function MarkRetired(now: Time): Sess {
      if retired then this else this.(retired := true, retiredAt := now)
    }
  }

  /** A closing mark: a close is in progress, or its call was cut and the mark lapses at exp. */
  datatype Mark = InProgress | Until(exp: Time)

  datatype Naming = Naming(model: string, id: string)

  datatype State = State(
    entries: map<string, Entry>,    // model -> pooled session
    sess: map<string, Sess>,        // session -> lease state
    marks: map<string, Mark>,       // session -> closing mark
    open: map<nat, string>,         // lease not yet Done -> its session
    leases: nat,                    // leases ever taken
    exact: set<string>,             // sessions whose lease state began with no live lease
    naming: Option<Naming>,         // the open that is taking over a session the router named
    chain: string -> string)        // the model each session belongs to on chain

  ghost function Holds(open: map<nat, string>, id: string): set<nat> {
    set n | n in open && open[n] == id
  }

  /** How many leases on the session are not Done. */
  ghost function Live(open: map<nat, string>, id: string): nat {
    |Holds(open, id)|
  }

  function NewSess(model: string, openedAt: Time, endsAt: Time, opener: string, now: Time): Sess {
    Sess(model, 0, map[], now, openedAt, endsAt, opener, false, 0, false, 0)
  }

  /** newStateLocked: the lease state of id is st from now on, whatever it was. */
  ghost function Track(s: State, id: string, st: Sess): State {
    s.(sess := s.sess[id := st], exact := if Live(s.open, id) == 0 then s.exact + {id} else s.exact - {id})
  }

  /** stateLocked */
  ghost function Ensure(s: State, key: string, e: Entry, now: Time): State {
    if e.sessionID in s.sess then s
    else Track(s, e.sessionID, NewSess(key, now, e.expiresAt + EXPIRY_BUFFER, "", now))
  }

  function Leased(st: Sess, keyID: string, now: Time): Sess {
    st.(inflight := st.inflight + 1, lastUse := now,
        holders := if keyID == "" then st.holders else st.holders[keyID := now])
  }

  function TakeLease(s: State, id: string, keyID: string, now: Time): State
    requires id in s.sess
  {
    s.(sess := s.sess[id := Leased(s.sess[id], keyID, now)], open := s.open[s.leases := id], leases := s.leases + 1)
  }

  function Ended(st: Sess, now: Time): Sess {
    st.(inflight := if st.inflight > 0 then st.inflight - 1 else 0, lastUse := now)
  }

  /** The model's slot, dropped if it holds id. */
  function DropIf(entries: map<string, Entry>, key: string, id: string): map<string, Entry> {
    if key in entries && entries[key].sessionID == id then entries - {key} else entries
  }

  ghost predicate IsLeast(ids: set<string>, m: string) {
    m in ids && forall x :: x in ids ==> !Less(x, m)
  }

  lemma {:induction false} LeastExists(ids: set<string>) returns (m: string)
    requires ids != {}
    ensures IsLeast(ids, m)
    decreases |ids|
  {
    m :| m in ids;
    LessIrreflexive(m);
    var rest := ids - {m};
    if rest != {} {
      var b := LeastExists(rest);
      if Less(b, m) {
        LeastUnder(rest, b, m);
        m := b;
      } else {
        LeastAbove(rest, b, m);
      }
    }
  }

  lemma LeastUnder(rest: set<string>, b: string, m: string)
    requires IsLeast(rest, b) && Less(b, m)
    ensures !Less(m, b)
  {
    LessIrreflexive(b);
    if Less(m, b) {
      LessTransitive(b, m, b);
    }
  }

  lemma LeastAbove(rest: set<string>, b: string, m: string)
    requires IsLeast(rest, b) && !Less(b, m)
    ensures forall x :: x in rest ==> !Less(x, m)
  {
    LessTotal(b, m);
    forall x | x in rest ensures !Less(x, m) {
      if Less(x, m) && Less(m, b) {
        LessTransitive(x, m, b);
      }
    }
  }

  lemma LeastUnique(ids: set<string>, a: string, b: string)
    requires IsLeast(ids, a) && IsLeast(ids, b)
    ensures a == b
  {
    LessTotal(a, b);
  }

  /** The draining sessions of the model that keyID still holds. */
  ghost function HeldBy(s: State, key: string, keyID: string): set<string> {
    set id | id in s.sess && keyID in s.sess[id].holders && s.sess[id].model == key && !s.sess[id].closing
  }

  /** The session a release by keyID is about: the pooled one if it holds it, else the lowest it holds. */
  ghost predicate ReleaseTarget(s: State, key: string, keyID: string, id: string) {
    var pooled := key in s.entries && s.entries[key].sessionID in s.sess
      && !s.sess[s.entries[key].sessionID].closing && keyID in s.sess[s.entries[key].sessionID].holders;
    keyID != "" && if pooled then id == s.entries[key].sessionID else IsLeast(HeldBy(s, key, keyID), id)
  }

  datatype ReleaseReason = NotHeld | Shared | InFlight | Closing

  function Released(s: State, key: string, keyID: string, id: string, now: Time): (State, ReleaseReason)
    requires id in s.sess
  {
    var st := s.sess[id].(holders := s.sess[id].holders - {keyID});
    if st.holders != map[] then (s.(sess := s.sess[id := st]), Shared)
    else if st.inflight > 0 then (s.(sess := s.sess[id := st]), InFlight)
    else (s.(sess := s.sess[id := st.MarkRetired(now)], entries := DropIf(s.entries, key, id)), Closing)
  }

  /** What the idle sweep may close. */
  predicate Sweepable(s: State, id: string, idle: bool, grace: Time, now: Time) {
    && id in s.sess && id !in s.marks
    && var st := s.sess[id];
    && !st.closing && st.inflight == 0
    && (!st.retired ==> idle && now - st.lastUse >= grace)
    && (st.retired ==> st.closeFails < MAX_CLOSE_RETRIES)
  }

  ghost function SweepableIds(s: State, idle: bool, grace: Time, now: Time): set<string> {
    set id | id in s.sess && Sweepable(s, id, idle, grace, now)
  }

  datatype Event =
    | TryPooled(key: string, keyID: string, now: Time)
    | LeaseSession(key: string, keyID: string, now: Time)
    | Done(lease: nat, now: Time)
    | Release(key: string, keyID: string, id: string, now: Time)
    | SweepClose(id: string, idle: bool, grace: Time, now: Time)
    | SweepCloseFailed(id: string, now: Time)
    | FailoverReuse(key: string, failedID: string, keyID: string, now: Time)
    | FailoverRetire(key: string, id: string, now: Time)
    | FailoverCloseFailed(id: string)
    | PoolOpened(key: string, e: Entry, openedAt: Time, endsAt: Time, keyID: string, now: Time)
    | NameExisting(key: string, id: string)
    | EndNaming
    | AdoptNamed(key: string, e: Entry, openedAt: Time, endsAt: Time, keyID: string, now: Time)
    | ScanAdopt(session: Session, now: Time)
    | BootAdopt(key: string, e: Entry)
    | DropEntry(key: string)
    | Invalidate(key: string)
    | Forget(id: string)
    | SetMark(id: string, mark: Mark)
    | ClearMark(id: string)

  predicate Fresh(s: State, key: string, now: Time) {
    key in s.entries && now < s.entries[key].expiresAt
  }

  predicate Named(s: State, model: string) {
    s.naming.Some? && s.naming.value.model == model
  }

  predicate Enabled(s: State, e: Event) {
    match e
    case LeaseSession(key, _, now) => Fresh(s, key, now)
    case Done(n, _) => n < s.leases
    case Release(_, _, id, _) => id in s.sess
    case SweepClose(id, idle, grace, now) => Sweepable(s, id, idle, grace, now) && s.naming.None?
    case FailoverRetire(key, id, _) => s.chain(id) == key && !Named(s, key)
    case PoolOpened(key, e, _, _, _, _) => s.chain(e.sessionID) == key
    case NameExisting(key, id) => s.naming.None? && s.chain(id) == key && id !in s.sess && id !in s.marks
    case AdoptNamed(key, e, _, _, _, _) => s.naming == Some(Naming(key, e.sessionID))
    case ScanAdopt(x, _) => s.chain(x.id) == x.model
    case BootAdopt(key, e) => s.chain(e.sessionID) == key
    case _ => true
  }

  predicate HandsOut(e: Event) {
    e.TryPooled? || e.LeaseSession? || e.FailoverReuse?
  }

  predicate Pools(e: Event) {
    e.PoolOpened? || e.AdoptNamed? || e.ScanAdopt?
  }

  /** The model's pooled session, with its lease state created if it had none. */
  ghost function Looked(s: State, key: string, now: Time): State
    requires key in s.entries
  {
    Ensure(s, key, s.entries[key], now)
  }

  predicate Serving(s: State, id: string) {
    id in s.sess && !s.sess[id].retired && !s.sess[id].closing
  }

  /** poolOpenedLocked: pool a session this process opened; its lease state starts anew. */
  ghost function Opened(s: State, key: string, e: Entry, openedAt: Time, endsAt: Time, opener: string, now: Time): State {
    Track(s.(entries := s.entries[key := e]), e.sessionID, NewSess(key, openedAt, endsAt, opener, now))
  }

  /** Pool a session found on chain; a lease state it already has is kept. */
  ghost function Adopted(s: State, key: string, e: Entry, openedAt: Time, endsAt: Time, now: Time): State {
    var t := s.(entries := s.entries[key := e]);
    if e.sessionID in s.sess then t
    else Track(t, e.sessionID, NewSess(key, openedAt, endsAt, "", now))
  }

  /** Lease the model's pooled session unless it is retired or closing. */
  ghost function Serve(s: State, key: string, keyID: string, now: Time, ok: bool): State
    requires key in s.entries
  {
    var id, t := s.entries[key].sessionID, Looked(s, key, now);
    if Serving(t, id) && ok then TakeLease(t, id, keyID, now) else t
  }

  /** Steps that lease the session a model's slot already holds. */
  ghost function HandOutStep(s: State, e: Event): State
    requires Enabled(s, e) && HandsOut(e)
  {
    match e
    case TryPooled(key, keyID, now) =>
      if !Fresh(s, key, now) || s.entries[key].sessionID in s.marks then s
      else Serve(s, key, keyID, now, true)
    case LeaseSession(key, keyID, now) => Serve(s, key, keyID, now, s.entries[key].sessionID !in s.marks)
    case FailoverReuse(key, failedID, keyID, now) =>
      if !Fresh(s, key, now) || s.entries[key].sessionID == failedID then s
      else Serve(s, key, keyID, now, true)
  }

  /** Steps that put a session into a model's slot with a lease state. */
  ghost function PoolingStep(s: State, e: Event): State
    requires Enabled(s, e) && Pools(e)
  {
    match e
    case PoolOpened(key, x, openedAt, endsAt, keyID, now) =>
      TakeLease(Opened(s, key, x, openedAt, endsAt, keyID, now), x.sessionID, keyID, now)
    case AdoptNamed(key, x, openedAt, endsAt, keyID, now) =>
      TakeLease(Adopted(s.(naming := None), key, x, openedAt, endsAt, now), x.sessionID, keyID, now)
    case ScanAdopt(x, now) => Adopted(s, x.model, EntryOf(x), FromUnix(x.openedAt), FromUnix(x.endsAt), now)
  }

  ghost function SetState(s: State, id: string, st: Sess): State {
    s.(sess := s.sess[id := st])
  }

  /** Steps on the lease state of one session, or on slots and marks. */
  ghost function QuietStep(s: State, e: Event): State
    requires Enabled(s, e) && !HandsOut(e) && !Pools(e)
  {
    match e
    case Done(n, now) =>
      if n !in s.open then s
      else
        var id := s.open[n];
        s.(open := s.open - {n}, sess := if id in s.sess then s.sess[id := Ended(s.sess[id], now)] else s.sess)
    case Release(key, keyID, id, now) =>
      if ReleaseTarget(s, key, keyID, id) then Released(s, key, keyID, id, now).0 else s
    case SweepClose(id, _, _, _) =>
      SetState(s, id, s.sess[id].(closing := true)).(entries := DropIf(s.entries, s.sess[id].model, id))
    case SweepCloseFailed(id, now) =>
      if id !in s.sess then s
      else
        var st := s.sess[id].MarkRetired(now);
        SetState(s, id, st.(closing := false, closeFails := st.closeFails + 1))
    case FailoverRetire(key, id, now) =>
      var t := s.(entries := DropIf(s.entries, key, id));
      if id !in s.sess then t
      else
        var st := s.sess[id].MarkRetired(now);
        SetState(t, id, if st.inflight > 0 then st else st.(closing := true))
    case FailoverCloseFailed(id) =>
      if id !in s.sess then s
      else SetState(s, id, s.sess[id].(closing := false, closeFails := s.sess[id].closeFails + 1))
    case NameExisting(key, id) => s.(naming := Some(Naming(key, id)))
    case EndNaming => s.(naming := None)
    case BootAdopt(key, e) => s.(entries := s.entries[key := e])
    case DropEntry(key) => s.(entries := s.entries - {key})
    case Invalidate(key) =>
      if key !in s.entries then s
      else s.(sess := s.sess - {s.entries[key].sessionID}, exact := s.exact - {s.entries[key].sessionID}, entries := s.entries - {key})
    case Forget(id) =>
      s.(sess := s.sess - {id}, exact := s.exact - {id},
         entries := map k | k in s.entries && (id == "" || s.entries[k].sessionID != id) :: s.entries[k])
    case SetMark(id, m) => s.(marks := s.marks[id := m])
    case ClearMark(id) => s.(marks := s.marks - {id})
  }

  ghost function Step(s: State, e: Event): State
    requires Enabled(s, e)
  {
    if HandsOut(e) then HandOutStep(s, e) else if Pools(e) then PoolingStep(s, e) else QuietStep(s, e)
  }

  function EntryOf(x: Session): Entry {
    Entry(x.id, FromUnix(x.endsAt) - EXPIRY_BUFFER, x.provider)
  }

  function Start(chain: string -> string): State {
    State(map[], map[], map[], map[], 0, {}, None, chain)
  }

  ghost predicate Run(s: State, es: seq<Event>, s': State)
    decreases |es|
  {
    if es == [] then s == s' else Enabled(s, es[0]) && Run(Step(s, es[0]), es[1..], s')
  }

  ghost predicate Inv(s: State) {
    && (forall n :: n in s.open ==> n < s.leases)
    && (forall id :: id in s.sess ==> s.sess[id].inflight <= Live(s.open, id))
    && (forall id :: id in s.exact ==> id in s.sess && s.sess[id].inflight == Live(s.open, id))
    && (forall id :: id in s.sess && s.sess[id].closing ==> s.sess[id].inflight == 0)
    && (forall id :: id in s.sess ==> s.sess[id].model == s.chain(id))
    && (forall key :: key in s.entries ==> s.chain(s.entries[key].sessionID) == key)
    && (s.naming.Some? ==>
          var Naming(m, id) := s.naming.value;
          s.chain(id) == m && (id in s.sess ==> !s.sess[id].closing))
  }

  lemma LiveTaken(open: map<nat, string>, n: nat, id: string, x: string)
    requires n !in open
    ensures Live(open[n := id], x) == Live(open, x) + (if x == id then 1 else 0)
  {
    if x == id {
      assert Holds(open[n := id], x) == Holds(open, x) + {n};
    } else {
      assert Holds(open[n := id], x) == Holds(open, x);
    }
  }

  lemma LiveEnded(open: map<nat, string>, n: nat, x: string)
    requires n in open
    ensures Live(open - {n}, x) == Live(open, x) - (if x == open[n] then 1 else 0)
  {
    if x == open[n] {
      assert Holds(open - {n}, x) == Holds(open, x) - {n};
      assert n in Holds(open, x);
    } else {
      assert Holds(open - {n}, x) == Holds(open, x);
    }
  }

  lemma TrackKeepsInv(s: State, id: string, st: Sess)
    requires Inv(s) && st.inflight == 0 && !st.closing && st.model == s.chain(id)
    ensures Inv(Track(s, id, st))
  {
  }

  lemma LookedKeepsInv(s: State, key: string, now: Time)
    requires Inv(s) && key in s.entries
    ensures Inv(Looked(s, key, now)) && s.entries[key].sessionID in Looked(s, key, now).sess
  {
  }

  lemma TakeLeaseKeepsInv(s: State, id: string, keyID: string, now: Time)
    requires Inv(s) && id in s.sess && !s.sess[id].closing
    ensures Inv(TakeLease(s, id, keyID, now))
  {
    var t := TakeLease(s, id, keyID, now);
    assert s.leases !in s.open;
    forall x ensures Live(t.open, x) == Live(s.open, x) + (if x == id then 1 else 0) {
      LiveTaken(s.open, s.leases, id, x);
    }
  }

  lemma DoneKeepsInv(s: State, n: nat, now: Time)
    requires Inv(s) && n < s.leases
    ensures Inv(Step(s, Done(n, now)))
  {
    if n in s.open {
      forall x ensures Live(s.open - {n}, x) == Live(s.open, x) - (if x == s.open[n] then 1 else 0) {
        LiveEnded(s.open, n, x);
      }
    }
  }

  lemma ServeKeepsInv(s: State, key: string, keyID: string, now: Time, ok: bool)
    requires Inv(s) && key in s.entries
    ensures Inv(Serve(s, key, keyID, now, ok))
  {
    var id, t := s.entries[key].sessionID, Looked(s, key, now);
    LookedKeepsInv(s, key, now);
    if Serving(t, id) {
      TakeLeaseKeepsInv(t, id, keyID, now);
    }
  }

  /** s' is s with other flags on one session's state and some pool slots dropped. */
  lemma FlagsKeepInv(s: State, s': State, id: string, st: Sess)
    requires Inv(s) && id in s.sess
    requires st.inflight == s.sess[id].inflight && st.model == s.sess[id].model
    requires st.closing ==> s.sess[id].closing || (st.inflight == 0 && (s.naming.Some? ==> s.naming.value.id != id))
    requires s'.sess == s.sess[id := st]
    requires forall k :: k in s'.entries ==> k in s.entries && s'.entries[k] == s.entries[k]
    requires s'.open == s.open && s'.leases == s.leases && s'.exact == s.exact && s'.naming == s.naming && s'.chain == s.chain
    ensures Inv(s')
  {
  }

  lemma CloseKeepsInv(s: State, id: string, idle: bool, grace: Time, now: Time)
    requires Inv(s) && Enabled(s, SweepClose(id, idle, grace, now))
    ensures Inv(Step(s, SweepClose(id, idle, grace, now)))
  {
    FlagsKeepInv(s, Step(s, SweepClose(id, idle, grace, now)), id, s.sess[id].(closing := true));
  }

  lemma FailoverRetireKeepsInv(s: State, key: string, id: string, now: Time)
    requires Inv(s) && Enabled(s, FailoverRetire(key, id, now))
    ensures Inv(Step(s, FailoverRetire(key, id, now)))
  {
    var s' := Step(s, FailoverRetire(key, id, now));
    if id in s.sess {
      FlagsKeepInv(s, s', id, s'.sess[id]);
    }
  }

  lemma CloseFailedKeepsInv(s: State, id: string, now: Time)
    requires Inv(s)
    ensures Inv(Step(s, SweepCloseFailed(id, now))) && Inv(Step(s, FailoverCloseFailed(id)))
  {
    if id in s.sess {
      var a, b := Step(s, SweepCloseFailed(id, now)), Step(s, FailoverCloseFailed(id));
      FlagsKeepInv(s, a, id, a.sess[id]);
      FlagsKeepInv(s, b, id, b.sess[id]);
    }
  }

  lemma ReleaseKeepsInv(s: State, key: string, keyID: string, id: string, now: Time)
    requires Inv(s) && id in s.sess
    ensures Inv(Released(s, key, keyID, id, now).0)
  {
    var s' := Released(s, key, keyID, id, now).0;
    FlagsKeepInv(s, s', id, s'.sess[id]);
  }

  lemma OpenedKeepsInv(s: State, key: string, e: Entry, openedAt: Time, endsAt: Time, opener: string, now: Time)
    requires Inv(s) && s.chain(e.sessionID) == key
    ensures Inv(Opened(s, key, e, openedAt, endsAt, opener, now))
  {
    TrackKeepsInv(s.(entries := s.entries[key := e]), e.sessionID, NewSess(key, openedAt, endsAt, opener, now));
  }

  lemma AdoptedKeepsInv(s: State, key: string, e: Entry, openedAt: Time, endsAt: Time, now: Time)
    requires Inv(s) && s.chain(e.sessionID) == key
    ensures Inv(Adopted(s, key, e, openedAt, endsAt, now))
  {
    TrackKeepsInv(s.(entries := s.entries[key := e]), e.sessionID, NewSess(key, openedAt, endsAt, "", now));
  }

  lemma PlainStepKeepsInv(s: State, e: Event)
    requires Inv(s) && Enabled(s, e)
    requires e.NameExisting? || e.EndNaming? || e.BootAdopt? || e.DropEntry? || e.Invalidate? || e.Forget? || e.SetMark? || e.ClearMark?
    ensures Inv(Step(s, e))
  {
    hide Live;
  }

  lemma HandOutKeepsInv(s: State, e: Event)
    requires Inv(s) && Enabled(s, e) && HandsOut(e)
    ensures Inv(Step(s, e))
  {
    if e.key in s.entries {
      ServeKeepsInv(s, e.key, e.keyID, e.now, !e.LeaseSession? || s.entries[e.key].sessionID !in s.marks);
    }
  }

  lemma PoolingKeepsInv(s: State, e: Event)
    requires Inv(s) && Enabled(s, e) && Pools(e)
    ensures Inv(Step(s, e))
  {
    match e
    case PoolOpened(key, x, openedAt, endsAt, keyID, now) =>
      OpenedKeepsInv(s, key, x, openedAt, endsAt, keyID, now);
      TakeLeaseKeepsInv(Opened(s, key, x, openedAt, endsAt, keyID, now), x.sessionID, keyID, now);
    case AdoptNamed(key, x, openedAt, endsAt, keyID, now) =>
      var t := s.(naming := None);
      AdoptedKeepsInv(t, key, x, openedAt, endsAt, now);
      TakeLeaseKeepsInv(Adopted(t, key, x, openedAt, endsAt, now), x.sessionID, keyID, now);
    case ScanAdopt(x, now) => AdoptedKeepsInv(s, x.model, EntryOf(x), FromUnix(x.openedAt), FromUnix(x.endsAt), now);
  }

  lemma StepKeepsInv(s: State, e: Event)
    requires Inv(s) && Enabled(s, e)
    ensures Inv(Step(s, e))
  {
    if HandsOut(e) {
      HandOutKeepsInv(s, e);
    } else if Pools(e) {
      PoolingKeepsInv(s, e);
    } else {
      match e
      case Done(n, now) => DoneKeepsInv(s, n, now);
      case Release(key, keyID, id, now) => ReleaseKeepsInv(s, key, keyID, id, now);
      case SweepClose(id, idle, grace, now) => CloseKeepsInv(s, id, idle, grace, now);
      case SweepCloseFailed(id, now) => CloseFailedKeepsInv(s, id, now);
      case FailoverCloseFailed(id) => CloseFailedKeepsInv(s, id, 0);
      case FailoverRetire(key, id, now) => FailoverRetireKeepsInv(s, key, id, now);
      case _ => PlainStepKeepsInv(s, e);
    }
  }

  lemma {:induction false} RunKeepsInv(s: State, es: seq<Event>, s': State)
    requires Inv(s) && Run(s, es, s')
    ensures Inv(s')
    decreases |es|
  {
    if es != [] {
      StepKeepsInv(s, es[0]);
      RunKeepsInv(Step(s, es[0]), es[1..], s');
    }
  }

  /**
   In every run a session's in-flight count is at most its leases not yet Done (0 once all are, double Done or not),
   and a closing session has nothing in flight.
   */
  lemma InFlightIsBacked(chain: string -> string, es: seq<Event>, s: State, id: string)
    requires Run(Start(chain), es, s) && id in s.sess
    ensures s.sess[id].inflight <= Live(s.open, id)
    ensures s.sess[id].closing ==> s.sess[id].inflight == 0
    ensures id in s.exact && s.sess[id].closing ==> Live(s.open, id) == 0
  {
    RunKeepsInv(Start(chain), es, s);
  }

  /** In every run a session's count is exact from the time a lease state of it began with no live lease. */
  lemma CountOfOneIsExact(chain: string -> string, es: seq<Event>, s: State, id: string)
    requires Run(Start(chain), es, s) && id in s.exact
    ensures id in s.sess && s.sess[id].inflight == Live(s.open, id)
  {
    RunKeepsInv(Start(chain), es, s);
  }

  /** A slot is filled only by an open that was sent, a scan or the boot plan. */
  predicate Fills(e: Event) {
    e.PoolOpened? || e.AdoptNamed? || e.ScanAdopt? || e.BootAdopt?
  }

  /** A run without any of these fills no slot and hands out no session. */
  lemma {:induction false} NothingUnfilled(s: State, es: seq<Event>, s': State)
    requires Run(s, es, s') && s.entries == map[] && forall i :: 0 <= i < |es| ==> !Fills(es[i])
    ensures s'.entries == map[] && s'.leases == s.leases
    decreases |es|
  {
    if es != [] {
      assert !Fills(es[0]);
      UnfilledStep(s, es[0]);
      NothingUnfilled(Step(s, es[0]), es[1..], s');
    }
  }

  lemma UnfilledStep(s: State, e: Event)
    requires Enabled(s, e) && !Fills(e) && s.entries == map[]
    ensures Step(s, e).entries == map[] && Step(s, e).leases == s.leases
  {
  }

  /** e drops the lease state of id, or starts it anew while a lease on id is live. */
  ghost predicate LosesCount(s: State, e: Event, id: string) {
    match e
    case PoolOpened(_, x, _, _, _, _) => x.sessionID == id && Live(s.open, id) > 0
    case Invalidate(key) => key in s.entries && s.entries[key].sessionID == id
    case Forget(x) => x == id
    case _ => false
  }

  /** The steps after which a count that was exact is no longer one. */
  lemma CountIsLostWhen(s: State, e: Event, id: string)
    requires Inv(s) && Enabled(s, e) && id in s.exact
    ensures id !in Step(s, e).exact <==> LosesCount(s, e, id)
  {
    hide Live;
    if OnOneSession(e) || OnSlotsAndMarks(e) {
      hide QuietStep;
      TrackedStays(s, e);
    } else if HandsOut(e) {
      HandOutKeepsCount(s, e, id);
    } else if !Pools(e) {
      assert e.Done? || e.Invalidate? || e.Forget?;
    }
  }

  lemma HandOutKeepsCount(s: State, e: Event, id: string)
    requires Inv(s) && Enabled(s, e) && HandsOut(e) && id in s.exact
    ensures id in HandOutStep(s, e).exact
  {
  }

  /** And it can be wrong from then on: a session opened twice is held twice and counted once. */
  lemma CountMayFallShort(chain: string -> string, e: Entry, keyID: string, now: Time) returns (es: seq<Event>, s: State)
    ensures Run(Start(chain), es, s) && e.sessionID in s.sess && s.sess[e.sessionID].inflight == 1 && Live(s.open, e.sessionID) == 2
  {
    var id := e.sessionID;
    var again := PoolOpened(chain(id), e, now, now, keyID, now);
    RunThen(Start(chain), [], Start(chain), again);
    var s1 := Step(Start(chain), again);
    LiveTaken(map[], 0, id, id);
    assert Holds(map[], id) == {};
    RunThen(Start(chain), [] + [again], s1, again);
    es, s := [] + [again] + [again], Step(s1, again);
    LiveTaken(s1.open, 1, id, id);
  }

  /** e drops or replaces the lease state of a session that still has live leases. */
  ghost predicate Replaces(s: State, e: Event) {
    match e
    case PoolOpened(_, x, _, _, _, _) => Live(s.open, x.sessionID) > 0
    case Invalidate(key) => key in s.entries && Live(s.open, s.entries[key].sessionID) > 0
    case Forget(id) => Live(s.open, id) > 0
    case _ => false
  }

  ghost predicate KeptRun(s: State, es: seq<Event>, s': State)
    decreases |es|
  {
    if es == [] then s == s'
    else Enabled(s, es[0]) && !Replaces(s, es[0]) && KeptRun(Step(s, es[0]), es[1..], s')
  }

  ghost predicate Kept(s: State) {
    && Inv(s)
    && (forall id :: id in s.sess ==> id in s.exact)
    && (forall n :: n in s.open ==> s.open[n] in s.sess)
  }

  lemma UnleasedIsFree(open: map<nat, string>, id: string)
    ensures Live(open, id) == 0 <==> forall n :: n in open ==> open[n] != id
  {
    if Live(open, id) == 0 {
      assert Holds(open, id) == {};
      forall n | n in open ensures open[n] != id {
        assert n !in Holds(open, id);
      }
    } else {
      var n :| n in Holds(open, id);
    }
  }

  lemma TrackKeepsKept(s: State, id: string, st: Sess)
    requires Kept(s) && Live(s.open, id) == 0 && st.inflight == 0 && !st.closing && st.model == s.chain(id)
    ensures Kept(Track(s, id, st))
  {
  }

  lemma TakeLeaseKeepsKept(s: State, id: string, keyID: string, now: Time)
    requires Kept(s) && id in s.sess && !s.sess[id].closing
    ensures Kept(TakeLease(s, id, keyID, now))
  {
    TakeLeaseKeepsInv(s, id, keyID, now);
  }

  lemma AdoptedKeepsKept(s: State, key: string, e: Entry, openedAt: Time, endsAt: Time, now: Time)
    requires Kept(s) && s.chain(e.sessionID) == key
    ensures Kept(Adopted(s, key, e, openedAt, endsAt, now))
  {
    UnleasedIsFree(s.open, e.sessionID);
    var t := s.(entries := s.entries[key := e]);
    assert Kept(t);
    if e.sessionID !in s.sess {
      TrackKeepsKept(t, e.sessionID, NewSess(key, openedAt, endsAt, "", now));
    }
  }

  lemma LookedKeepsKept(s: State, key: string, now: Time)
    requires Kept(s) && key in s.entries
    ensures Kept(Looked(s, key, now)) && s.entries[key].sessionID in Looked(s, key, now).sess
  {
    var e := s.entries[key];
    if e.sessionID !in s.sess {
      UnleasedIsFree(s.open, e.sessionID);
      var st := NewSess(key, now, e.expiresAt + EXPIRY_BUFFER, "", now);
      TrackKeepsKept(s, e.sessionID, st);
      assert Looked(s, key, now) == Track(s, e.sessionID, st);
    } else {
      assert Looked(s, key, now) == s;
    }
  }

  lemma HandOutKeepsKept(s: State, e: Event)
    requires Kept(s) && Enabled(s, e) && HandsOut(e)
    ensures Kept(Step(s, e))
  {
    if e.key in s.entries {
      LookedKeepsKept(s, e.key, e.now);
      var id, t := s.entries[e.key].sessionID, Looked(s, e.key, e.now);
      if Serving(t, id) {
        TakeLeaseKeepsKept(t, id, e.keyID, e.now);
      }
    }
  }

  lemma OpenedKeepsKept(s: State, key: string, e: Entry, openedAt: Time, endsAt: Time, opener: string, now: Time)
    requires Kept(s) && s.chain(e.sessionID) == key && Live(s.open, e.sessionID) == 0
    ensures Kept(Opened(s, key, e, openedAt, endsAt, opener, now))
  {
    var t := s.(entries := s.entries[key := e]);
    assert Kept(t);
    TrackKeepsKept(t, e.sessionID, NewSess(key, openedAt, endsAt, opener, now));
  }

  lemma DropsKeepKept(s: State, e: Event)
    requires Kept(s) && Enabled(s, e) && !Replaces(s, e) && (e.Invalidate? || e.Forget?)
    ensures Kept(Step(s, e))
  {
    StepKeepsInv(s, e);
    match e
    case Invalidate(key) =>
      if key in s.entries {
        UnleasedIsFree(s.open, s.entries[key].sessionID);
      }
    case Forget(id) => UnleasedIsFree(s.open, id);
  }

  lemma PoolingKeepsKept(s: State, e: Event)
    requires Kept(s) && Enabled(s, e) && !Replaces(s, e) && Pools(e)
    ensures Kept(Step(s, e))
  {
    match e
    case PoolOpened(key, x, openedAt, endsAt, keyID, now) =>
      OpenedKeepsKept(s, key, x, openedAt, endsAt, keyID, now);
      TakeLeaseKeepsKept(Opened(s, key, x, openedAt, endsAt, keyID, now), x.sessionID, keyID, now);
    case AdoptNamed(key, x, openedAt, endsAt, keyID, now) =>
      var t := s.(naming := None);
      assert Kept(t);
      AdoptedKeepsKept(t, key, x, openedAt, endsAt, now);
      TakeLeaseKeepsKept(Adopted(t, key, x, openedAt, endsAt, now), x.sessionID, keyID, now);
    case ScanAdopt(x, now) => AdoptedKeepsKept(s, x.model, EntryOf(x), FromUnix(x.openedAt), FromUnix(x.endsAt), now);
  }

  predicate OnOneSession(e: Event) {
    e.Release? || e.SweepClose? || e.SweepCloseFailed? || e.FailoverRetire? || e.FailoverCloseFailed?
  }

  predicate OnSlotsAndMarks(e: Event) {
    e.NameExisting? || e.EndNaming? || e.BootAdopt? || e.DropEntry? || e.SetMark? || e.ClearMark?
  }

  /** Steps that leave every lease and every tracked session where it is. */
  lemma TrackedStays(s: State, e: Event)
    requires Enabled(s, e) && (OnOneSession(e) || OnSlotsAndMarks(e))
    ensures QuietStep(s, e).sess.Keys == s.sess.Keys && QuietStep(s, e).exact == s.exact && QuietStep(s, e).open == s.open
  {
    if OnSlotsAndMarks(e) {
      assert QuietStep(s, e).sess == s.sess;
    }
  }

  lemma StepKeepsKept(s: State, e: Event)
    requires Kept(s) && Enabled(s, e) && !Replaces(s, e)
    ensures Kept(Step(s, e))
  {
    if HandsOut(e) {
      HandOutKeepsKept(s, e);
    } else if Pools(e) {
      PoolingKeepsKept(s, e);
    } else if e.Invalidate? || e.Forget? {
      DropsKeepKept(s, e);
    } else if e.Done? {
      DoneKeepsInv(s, e.lease, e.now);
    } else {
      StepKeepsInv(s, e);
      TrackedStays(s, e);
    }
  }

  lemma {:induction false} KeptRunKeeps(s: State, es: seq<Event>, s': State)
    requires Kept(s) && KeptRun(s, es, s')
    ensures Kept(s')
    decreases |es|
  {
    if es != [] {
      StepKeepsKept(s, es[0]);
      KeptRunKeeps(Step(s, es[0]), es[1..], s');
    }
  }

  lemma {:induction false} KeptRunJoins(s: State, es: seq<Event>, t: State, fs: seq<Event>, u: State)
    requires KeptRun(s, es, t) && KeptRun(t, fs, u)
    ensures KeptRun(s, es + fs, u)
    decreases |es|
  {
    if es == [] {
      assert es + fs == fs;
    } else {
      KeptRunJoins(Step(s, es[0]), es[1..], t, fs, u);
      assert (es + fs)[1..] == es[1..] + fs;
    }
  }

  lemma {:induction false} KeptRunIsRun(s: State, es: seq<Event>, s': State)
    requires KeptRun(s, es, s')
    ensures Run(s, es, s')
    decreases |es|
  {
    if es != [] {
      KeptRunIsRun(Step(s, es[0]), es[1..], s');
    }
  }

  /** s' comes from s by steps that drop or replace no state with live leases. */
  ghost predicate Leads(s: State, s': State) {
    exists es :: KeptRun(s, es, s')
  }

  lemma LeadsToSelf(s: State)
    ensures Leads(s, s)
  {
    assert KeptRun(s, [], s);
  }

  lemma LeadsOn(s: State, t: State, u: State)
    requires Leads(s, t) && Leads(t, u)
    ensures Leads(s, u)
  {
    var es :| KeptRun(s, es, t);
    var fs :| KeptRun(t, fs, u);
    KeptRunJoins(s, es, t, fs, u);
  }

  lemma StepLeads(s: State, t: State, e: Event)
    requires Leads(s, t) && Enabled(t, e) && !Replaces(t, e)
    ensures Leads(s, Step(t, e))
  {
    var u := Step(t, e);
    assert KeptRun(u, [], u);
    assert [e][1..] == [] && KeptRun(t, [e], u);
    LeadsOn(s, t, u);
  }

  lemma ClearMarkLeads(s: State, t: State, id: string)
    requires Leads(s, t)
    ensures Leads(s, t.(marks := t.marks - {id}))
  {
    StepLeads(s, t, ClearMark(id));
  }

  lemma SetMarkLeads(s: State, t: State, id: string, mark: Mark)
    requires Leads(s, t)
    ensures Leads(s, t.(marks := t.marks[id := mark]))
  {
    StepLeads(s, t, SetMark(id, mark));
  }

  lemma BootAdoptLeads(s: State, t: State, key: string, e: Entry)
    requires Leads(s, t) && t.chain(e.sessionID) == key
    ensures Leads(s, t.(entries := t.entries[key := e]))
  {
    StepLeads(s, t, BootAdopt(key, e));
  }

  lemma DropEntryLeads(s: State, t: State, key: string)
    requires Leads(s, t)
    ensures Leads(s, t.(entries := t.entries - {key}))
  {
    StepLeads(s, t, DropEntry(key));
  }

  lemma LeadsKeeps(s: State, s': State)
    requires Leads(s, s')
    ensures Inv(s) ==> Inv(s')
    ensures Kept(s) ==> Kept(s')
  {
    var es :| KeptRun(s, es, s');
    KeptRunIsRun(s, es, s');
    if Inv(s) {
      RunKeepsInv(s, es, s');
    }
    if Kept(s) {
      KeptRunKeeps(s, es, s');
    }
  }

  /** s' comes from s by steps of any kind. */
  ghost predicate Comes(s: State, s': State) {
    exists es :: Run(s, es, s')
  }

  lemma {:induction false} RunJoins(s: State, es: seq<Event>, t: State, fs: seq<Event>, u: State)
    requires Run(s, es, t) && Run(t, fs, u)
    ensures Run(s, es + fs, u)
    decreases |es|
  {
    if es == [] {
      assert es + fs == fs;
    } else {
      RunJoins(Step(s, es[0]), es[1..], t, fs, u);
      assert (es + fs)[1..] == es[1..] + fs;
    }
  }

  lemma ComesToSelf(s: State)
    ensures Comes(s, s)
  {
    assert Run(s, [], s);
  }

  lemma ComesOn(s: State, t: State, u: State)
    requires Comes(s, t) && Comes(t, u)
    ensures Comes(s, u)
  {
    var es :| Run(s, es, t);
    var fs :| Run(t, fs, u);
    RunJoins(s, es, t, fs, u);
  }

  lemma StepComes(s: State, t: State, e: Event)
    requires Comes(s, t) && Enabled(t, e)
    ensures Comes(s, Step(t, e))
  {
    var es :| Run(s, es, t);
    RunThen(s, es, t, e);
  }

  lemma LeadsComes(s: State, s': State)
    requires Leads(s, s')
    ensures Comes(s, s')
  {
    var es :| KeptRun(s, es, s');
    KeptRunIsRun(s, es, s');
  }

  lemma ComesKeepsInv(s: State, s': State)
    requires Comes(s, s') && Inv(s)
    ensures Inv(s')
  {
    var es :| Run(s, es, s');
    RunKeepsInv(s, es, s');
  }

  /**
   While no state with live leases is dropped or replaced the count is exact, so a closing mark set by the idle
   sweep or a failover is never on a session some request still holds, and every lease is accounted for.
   */
  lemma CountIsExact(chain: string -> string, es: seq<Event>, s: State)
    requires KeptRun(Start(chain), es, s)
    ensures forall id :: id in s.sess ==> s.sess[id].inflight == Live(s.open, id)
    ensures forall n :: n in s.open ==> s.open[n] in s.sess && !s.sess[s.open[n]].closing
  {
    KeptRunKeeps(Start(chain), es, s);
    forall n | n in s.open ensures !s.sess[s.open[n]].closing {
      UnleasedIsFree(s.open, s.open[n]);
    }
  }

  lemma HandOutStartsNoClose(s: State, e: Event, id: string)
    requires Enabled(s, e) && HandsOut(e) && id in s.sess && !s.sess[id].closing
    ensures id in Step(s, e).sess ==> !Step(s, e).sess[id].closing
  {
  }

  lemma PoolingStartsNoClose(s: State, e: Event, id: string)
    requires Enabled(s, e) && Pools(e) && id in s.sess && !s.sess[id].closing
    ensures id in PoolingStep(s, e).sess ==> !PoolingStep(s, e).sess[id].closing
  {
  }

  lemma ReleaseStartsNoClose(s: State, key: string, keyID: string, x: string, now: Time, id: string)
    requires x in s.sess && id in s.sess && !s.sess[id].closing
    ensures var t := Released(s, key, keyID, x, now).0; id in t.sess && !t.sess[id].closing
  {
  }

  lemma OthersStartNoClose(s: State, e: Event, id: string)
    requires Enabled(s, e) && !HandsOut(e) && !Pools(e) && !OnOneSession(e) && id in s.sess && !s.sess[id].closing
    ensures id in QuietStep(s, e).sess ==> !QuietStep(s, e).sess[id].closing
  {
  }

  /** The steps at which a session starts closing find no request holding it, when its count is exact. */
  lemma ClosesOnlyUnheld(s: State, e: Event, id: string)
    requires Inv(s) && Enabled(s, e)
    requires id in s.sess && !s.sess[id].closing && id in Step(s, e).sess && Step(s, e).sess[id].closing
    ensures (e.SweepClose? && e.id == id && id !in s.marks) || (e.FailoverRetire? && e.id == id && !Named(s, e.key))
    ensures s.sess[id].inflight == 0
    ensures id in s.exact ==> Live(s.open, id) == 0
  {
    if HandsOut(e) {
      HandOutStartsNoClose(s, e, id);
    } else if Pools(e) {
      PoolingStartsNoClose(s, e, id);
    } else if !OnOneSession(e) {
      OthersStartNoClose(s, e, id);
    } else {
      assert e.SweepClose? || e.FailoverRetire? by {
        match e
        case Release(key, keyID, x, now) => ReleaseStartsNoClose(s, key, keyID, x, now, id);
        case _ =>
      }
    }
  }

  /** t has one more lease, on the session in the model's slot, which may be used. */
  ghost predicate ServedFromSlot(s: State, key: string, now: Time, t: State) {
    && key in s.entries
    && t.leases == s.leases + 1 && t.open == s.open[s.leases := s.entries[key].sessionID]
    && Serving(t, s.entries[key].sessionID)
    && t.sess[s.entries[key].sessionID].inflight >= 1
  }

  lemma ServeHandsOut(s: State, key: string, keyID: string, now: Time, ok: bool)
    requires key in s.entries && Serve(s, key, keyID, now, ok).leases > s.leases
    ensures ok && ServedFromSlot(s, key, now, Serve(s, key, keyID, now, ok))
  {
  }

  /**
   What a step may hand out. From the pool: the model's slot, unexpired, its session neither retired nor closing, and
   (failover apart) without a closing mark. An open hands out its own new state; a session the router named is not
   closing.
   */
  lemma HandsOutServingOnly(s: State, e: Event)
    requires Inv(s) && Enabled(s, e) && Step(s, e).leases > s.leases
    ensures e.TryPooled? || e.LeaseSession? ==>
      ServedFromSlot(s, e.key, e.now, Step(s, e)) && Fresh(s, e.key, e.now) && s.entries[e.key].sessionID !in s.marks
    ensures e.FailoverReuse? ==>
      ServedFromSlot(s, e.key, e.now, Step(s, e)) && Fresh(s, e.key, e.now) && s.entries[e.key].sessionID != e.failedID
    ensures e.PoolOpened? ==> ServedFromSlot(Step(s, e).(leases := s.leases, open := s.open), e.key, e.now, Step(s, e))
    ensures e.AdoptNamed? ==> e.e.sessionID in Step(s, e).sess && !Step(s, e).sess[e.e.sessionID].closing
    ensures e.TryPooled? || e.LeaseSession? || e.FailoverReuse? || e.PoolOpened? || e.AdoptNamed?
  {
    if HandsOut(e) {
      if e.key in s.entries {
        ServeHandsOut(s, e.key, e.keyID, e.now, !e.LeaseSession? || s.entries[e.key].sessionID !in s.marks);
      }
    } else if !Pools(e) {
      QuietTakesNoLease(s, e);
    }
  }

  /** A session without lease state, or one that serves. */
  predicate Ready(s: State, id: string) {
    id in s.sess ==> Serving(s, id)
  }

  /** Read before the step: whether e leases a session, and which. */
  predicate Grants(s: State, e: Event) {
    match e
    case TryPooled(key, _, now) => Fresh(s, key, now) && s.entries[key].sessionID !in s.marks && Ready(s, s.entries[key].sessionID)
    case LeaseSession(key, _, now) => Fresh(s, key, now) && s.entries[key].sessionID !in s.marks && Ready(s, s.entries[key].sessionID)
    case FailoverReuse(key, failedID, _, now) =>
      Fresh(s, key, now) && s.entries[key].sessionID != failedID && Ready(s, s.entries[key].sessionID)
    case PoolOpened(_, _, _, _, _, _) => true
    case AdoptNamed(_, _, _, _, _, _) => true
    case _ => false
  }

  function Granted(s: State, e: Event): string
    requires Grants(s, e)
  {
    if HandsOut(e) then s.entries[e.key].sessionID else e.e.sessionID
  }

  /** The hand-outs that do not read the closing marks, of a session that has one. */
  predicate GrantsMarked(s: State, e: Event) {
    (e.FailoverReuse? || e.PoolOpened? || e.AdoptNamed?) && Grants(s, e) && Granted(s, e) in s.marks
  }

  predicate GrantsRetired(s: State, e: Event) {
    e.AdoptNamed? && e.e.sessionID in s.sess && s.sess[e.e.sessionID].retired
  }

  /** What a step that grants does, and that others do not. */
  ghost predicate GrantIs(s: State, e: Event, t: State) {
    if Grants(s, e) then
      && t.leases == s.leases + 1 && t.open == s.open[s.leases := Granted(s, e)]
      && Granted(s, e) in t.sess && !t.sess[Granted(s, e)].closing
      && (t.sess[Granted(s, e)].retired <==> GrantsRetired(s, e))
    else
      t.leases == s.leases
  }

  lemma HandOutGrants(s: State, e: Event)
    requires Enabled(s, e) && HandsOut(e)
    ensures GrantIs(s, e, HandOutStep(s, e))
  {
  }

  lemma PoolingGrants(s: State, e: Event)
    requires Inv(s) && Enabled(s, e) && Pools(e)
    ensures GrantIs(s, e, PoolingStep(s, e))
  {
  }

  /**
   Exactly when a step hands out a session, when one with a closing mark, and when a retired one; it never hands out
   a closing one.
   */
  lemma HandsOutExactly(s: State, e: Event)
    requires Inv(s) && Enabled(s, e)
    ensures Step(s, e).leases == s.leases + if Grants(s, e) then 1 else 0
    ensures Grants(s, e) ==> Step(s, e).open == s.open[s.leases := Granted(s, e)] && Granted(s, e) in Step(s, e).sess
    ensures Grants(s, e) ==> !Step(s, e).sess[Granted(s, e)].closing
    ensures Step(s, e).leases > s.leases && Step(s, e).open[s.leases] in s.marks <==> GrantsMarked(s, e)
    ensures Step(s, e).leases > s.leases && Step(s, e).sess[Step(s, e).open[s.leases]].retired <==> GrantsRetired(s, e)
  {
    hide HandOutStep, PoolingStep, QuietStep, Inv;
    if HandsOut(e) {
      HandOutGrants(s, e);
    } else if Pools(e) {
      PoolingGrants(s, e);
    } else {
      QuietTakesNoLease(s, e);
    }
  }

  lemma QuietTakesNoLease(s: State, e: Event)
    requires Enabled(s, e) && !HandsOut(e) && !Pools(e)
    ensures QuietStep(s, e).leases == s.leases
  {
  }

  lemma {:induction false} RunThen(s: State, es: seq<Event>, s': State, e: Event)
    requires Run(s, es, s') && Enabled(s', e)
    ensures Run(s, es + [e], Step(s', e))
    decreases |es|
  {
    if es == [] {
      assert [e][1..] == [];
    } else {
      RunThen(Step(s, es[0]), es[1..], s', e);
      assert (es + [e])[1..] == es[1..] + [e];
    }
  }

  /**
   The failover hand-out does not read closing marks: a run after which it leases the pooled session x although a
   close of x is in progress.
   */
  lemma FailoverMayHandOutMarked(chain: string -> string, expires: Time) returns (es: seq<Event>, s: State)
    requires chain("x") == "m" && expires > 0
    ensures Run(Start(chain), es, s) && "x" in s.marks
    ensures Step(s, FailoverReuse("m", "y", "k", 0)).open == map[0 := "x"]
    ensures Step(s, TryPooled("m", "k", 0)) == s
  {
    es, s := PooledIsMarked(chain, Entry("x", expires, "p"));
  }

  lemma PooledIsMarked(chain: string -> string, e: Entry) returns (es: seq<Event>, s: State)
    requires chain(e.sessionID) == "m"
    ensures Run(Start(chain), es, s)
    ensures s == Start(chain).(entries := map["m" := e], marks := map[e.sessionID := InProgress])
  {
    var adopt, mark := BootAdopt("m", e), SetMark(e.sessionID, InProgress);
    RunThen(Start(chain), [], Start(chain), adopt);
    var s1 := Step(Start(chain), adopt);
    RunThen(Start(chain), [] + [adopt], s1, mark);
    es, s := [] + [adopt] + [mark], Step(s1, mark);
  }

  /**
   Neither do the other two: after a run in which an open has read the session x the router named and a close of x
   was begun meanwhile, x is handed out whether it is pooled as named or as opened here.
   */
  lemma OpensMayHandOutMarked(chain: string -> string, e: Entry, now: Time) returns (es: seq<Event>, s: State)
    requires chain("x") == "m" && e.sessionID == "x"
    ensures Run(Start(chain), es, s) && "x" in s.marks
    ensures Enabled(s, AdoptNamed("m", e, now, now, "k", now)) && GrantsMarked(s, AdoptNamed("m", e, now, now, "k", now))
    ensures Step(s, AdoptNamed("m", e, now, now, "k", now)).open == map[0 := "x"]
    ensures Enabled(s, PoolOpened("m", e, now, now, "k", now)) && GrantsMarked(s, PoolOpened("m", e, now, now, "k", now))
    ensures Step(s, PoolOpened("m", e, now, now, "k", now)).open == map[0 := "x"]
    ensures Step(s, TryPooled("m", "k", now)) == s
  {
    es, s := NamedIsMarked(chain);
  }

  lemma NamedIsMarked(chain: string -> string) returns (es: seq<Event>, s: State)
    requires chain("x") == "m"
    ensures Run(Start(chain), es, s)
    ensures s == Start(chain).(naming := Some(Naming("m", "x")), marks := map["x" := InProgress])
  {
    var name, mark := NameExisting("m", "x"), SetMark("x", InProgress);
    RunThen(Start(chain), [], Start(chain), name);
    var s1 := Step(Start(chain), name);
    RunThen(Start(chain), [] + [name], s1, mark);
    es, s := [] + [name] + [mark], Step(s1, mark);
  }

  /** A run in which an open has read the session x the router named, and a scan has adopted x meanwhile. */
  lemma NamedIsAdopted(chain: string -> string, x: Session) returns (es: seq<Event>, s: State)
    requires x.id == "x" && x.model == chain("x") == "m"
    ensures Run(Start(chain), es, s) && s.naming == Some(Naming("m", "x")) && s.leases == 0 && s.open == map[]
    ensures s.entries == map["m" := EntryOf(x)] && s.marks == map[]
    ensures s.sess == map["x" := NewSess("m", FromUnix(x.openedAt), FromUnix(x.endsAt), "", 0)]
  {
    var start, name, adopt := Start(chain), NameExisting("m", "x"), ScanAdopt(x, 0);
    RunThen(start, [], start, name);
    var s1 := Step(start, name);
    RunThen(start, [] + [name], s1, adopt);
    es, s := [] + [name] + [adopt], Step(s1, adopt);
  }

  /**
   A session the router names can be retired before it is pooled: a scan adopts it meanwhile, a request uses and
   releases it, and then the open leases it although it is retired.
   */
  lemma NamedMayBeRetired(chain: string -> string, x: Session, e: Entry) returns (es: seq<Event>, s: State)
    requires x.id == e.sessionID == "x" && x.model == chain("x") == "m" && FromUnix(x.endsAt) > EXPIRY_BUFFER
    ensures Run(Start(chain), es, s) && Enabled(s, AdoptNamed("m", e, 0, 0, "k", 0))
    ensures "x" in s.sess && s.sess["x"].retired
    ensures Step(s, AdoptNamed("m", e, 0, 0, "k", 0)).open == map[1 := "x"]
  {
    var es0, s0 := NamedIsAdopted(chain, x);
    var take, done, release := TryPooled("m", "k", 0), Done(0, 0), Release("m", "k", "x", 0);
    RunThen(Start(chain), es0, s0, take);
    var s1 := Step(s0, take);
    assert s1 == TakeLease(s0, "x", "k", 0);
    RunThen(Start(chain), es0 + [take], s1, done);
    var s2 := Step(s1, done);
    assert s2.open == map[] && s2.sess["x"].holders == map["k" := 0] && s2.sess["x"].inflight == 0;
    RunThen(Start(chain), es0 + [take] + [done], s2, release);
    assert s2.sess["x"].holders - {"k"} == map[];
    es, s := es0 + [take] + [done] + [release], Step(s2, release);
  }
}
