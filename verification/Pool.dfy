/**
 The session pool. Each method is one critical section under the pool's lock, so any interleaving of requests,
 failovers, scans, sweeps and closes is a sequence of these calls. Methods on leases are tied to the steps of
 Leases; ApplyScan is tied to the verdicts of Sweep.
 */
module Pools {
  import opened Basics
  import opened Sessions
  import opened Leases
  import opened Sweep
  import LeaseLaws
  import Scan

  datatype ReleaseOutcome = ReleaseOutcome(released: bool, reason: ReleaseReason)

  /** late: closes that were cut and are now seen done; live: models with a live session in the list. */
  datatype ScanOut = ScanOut(adopted: nat, matched: bool, close: Option<Cand>, late: set<string>, live: set<string>)

  const ROUTER_CLOSE_MAX_LIFE: Time := 10 * MINUTE

  datatype CloseAnswer = Closed | Unanswered | Refused

  datatype CloseOutcome = OK | Already | Failed | Cut

  lemma SparePart(all: map<string, seq<Session>>, part: map<string, seq<Session>>)
    requires NoneEmpty(all) && forall k :: k in part ==> k in all && part[k] == all[k]
    ensures NoneEmpty(part)
  {
  }

  method LeastOf(ids: set<string>) returns (m: string)
    requires ids != {}
    ensures IsLeast(ids, m)
  {
    m :| m in ids;
    ghost var seen := {m};
    LessIrreflexive(m);
    var rest := ids - {m};
    while rest != {}
      invariant ids == seen + rest && IsLeast(seen, m)
      decreases |rest|
    {
      var x :| x in rest;
      ghost var last := m;
      if Less(x, m) {
        m := x;
      }
      LessIrreflexive(x);
      forall y | y in seen + {x} ensures !Less(y, m) {
        LessTotal(x, last);
        if Less(y, x) && Less(x, last) {
          LessTransitive(y, x, last);
        }
        if Less(last, x) && Less(x, last) {
          LessTransitive(last, x, last);
        }
      }
      seen := seen + {x};
      rest := rest - {x};
    }
  }

  lemma NobodysTarget(s: State, key: string)
    ensures forall x :: !ReleaseTarget(s, key, "", x)
  {
  }

  /** The state after a release, by who is left. */
  lemma ReleasedIs(s: State, key: string, keyID: string, id: string, now: Time)
    requires id in s.sess
    ensures var st := s.sess[id].(holders := s.sess[id].holders - {keyID});
      Released(s, key, keyID, id, now) ==
        if st.holders != map[] then (s.(sess := s.sess[id := st]), Shared)
        else if st.inflight > 0 then (s.(sess := s.sess[id := st]), InFlight)
        else (s.(sess := s.sess[id := st.MarkRetired(now)], entries := DropIf(s.entries, key, id)), Closing)
  {
  }

  predicate Serves(st: Sess) {
    !st.retired && !st.closing
  }

  /** Nothing runs on the session or closes it, and it is retired with fewer than three failed closes, or idle for the grace. */
  predicate MayClose(st: Sess, idle: bool, grace: Time, now: Time) {
    !st.closing && st.inflight == 0 && if st.retired then st.closeFails < 3 else idle && now - st.lastUse >= grace
  }

  /** keyID holds the session, and no close of it is under way. */
  predicate HeldOpen(sess: map<string, Sess>, id: string, keyID: string) {
    id in sess && keyID in sess[id].holders && !sess[id].closing
  }

  class Pool {
    // Leases.
    var entries: map<string, Entry>
    var sess: map<string, Sess>
    var open: map<nat, string>         // leases whose Done has not run
    var leases: nat
    // Closes.
    var closingIDs: map<string, Mark>
    var closeDueAt: map<string, Time>
    var closedByUs: set<string>
    // Opens.
    var pending: seq<Attempt>
    var attempts: nat
    var knownDup: set<string>
    var ours: set<string>

    ghost var exact: set<string>
    ghost var naming: Option<Naming>
    ghost const chain: string -> string

    ghost function Abs(): State
      reads this
    {
      State(entries, sess, closingIDs, open, leases, exact, naming, chain)
    }

    constructor (ghost chain: string -> string)
      ensures Abs() == Start(chain) && pending == [] && knownDup == {} && closeDueAt == map[]
    {
      entries, sess, open, leases := map[], map[], map[], 0;
      closingIDs, closeDueAt, closedByUs := map[], map[], {};
      pending, attempts, knownDup, ours := [], 0, {}, {};
      exact, naming := {}, None;
      this.chain := chain;
    }

    method NewStateLocked(key: string, id: string, openedAt: Time, endsAt: Time, opener: string, now: Time)
      modifies this`sess, this`exact
      ensures Abs() == Track(old(Abs()), id, NewSess(key, openedAt, endsAt, opener, now))
      ensures sess == old(sess)[id := Sess(key, 0, map[], now, openedAt, endsAt, opener, false, 0, false, 0)]
    {
      sess := sess[id := NewSess(key, openedAt, endsAt, opener, now)];
      exact := if Live(open, id) == 0 then exact + {id} else exact - {id};
    }

    method StateLocked(key: string, e: Entry, now: Time)
      modifies this`sess, this`exact
      ensures Abs() == Ensure(old(Abs()), key, e, now)
      ensures e.sessionID in sess && if e.sessionID in old(sess) then sess == old(sess)
        else sess == old(sess)[e.sessionID := Sess(key, 0, map[], now, now, e.expiresAt + 90 * SECOND, "", false, 0, false, 0)]
    {
      if e.sessionID !in sess {
        NewStateLocked(key, e.sessionID, now, e.expiresAt + EXPIRY_BUFFER, "", now);
      }
    }

    method LeaseLocked(id: string, keyID: string, now: Time) returns (lease: nat)
      requires id in sess
      modifies this`sess, this`open, this`leases
      ensures Abs() == TakeLease(old(Abs()), id, keyID, now) && lease == old(leases)
    {
      var st := sess[id];
      st := st.(inflight := st.inflight + 1);
      if keyID != "" {
        st := st.(holders := st.holders[keyID := now]);
      }
      sess := sess[id := st.(lastUse := now)];
      lease := leases;
      open := open[lease := id];
      leases := leases + 1;
    }

    method TryPooledLocked(key: string, keyID: string, now: Time) returns (lease: Option<nat>)
      modifies this`sess, this`exact, this`open, this`leases
      ensures Abs() == Step(old(Abs()), TryPooled(key, keyID, now))
      ensures lease == if leases > old(leases) then Some(old(leases)) else None
      ensures lease.Some? <==>
        (key in entries && now < entries[key].expiresAt && entries[key].sessionID !in closingIDs
         && (entries[key].sessionID in old(sess) ==> Serves(old(sess)[entries[key].sessionID])))
      ensures lease.Some? ==> leases == old(leases) + 1 && open == old(open)[old(leases) := entries[key].sessionID]
      ensures lease.None? ==> leases == old(leases) && open == old(open)
    {
      if key !in entries || !(now < entries[key].expiresAt) {
        return None;
      }
      var id := entries[key].sessionID;
      if id in closingIDs {
        return None;
      }
      StateLocked(key, entries[key], now);
      if sess[id].retired || sess[id].closing {
        return None;
      }
      var n := LeaseLocked(id, keyID, now);
      return Some(n);
    }

    method LeaseSession(id: string, keyID: string, now: Time) returns (lease: Option<nat>)
      modifies this`sess, this`exact, this`open, this`leases
      ensures lease.None? ==> leases == old(leases) && open == old(open)
      ensures lease.None? ==> forall key :: Fresh(old(Abs()), key, now) && old(entries)[key].sessionID == id ==>
        id in closingIDs || (id in old(sess) && !Serves(old(sess)[id]))
      ensures lease.Some? ==> lease.value == old(leases) && leases == old(leases) + 1 && open == old(open)[lease.value := id]
      ensures lease.Some? ==> id !in closingIDs && id in sess && Serves(sess[id])
      ensures lease.Some? ==> exists key ::
        (Fresh(old(Abs()), key, now) && old(entries)[key].sessionID == id
         && Abs() == Step(old(Abs()), Event.LeaseSession(key, keyID, now)))
    {
      var keys := entries.Keys;
      while keys != {}
        invariant keys <= entries.Keys && Abs() == old(Abs())
        invariant forall key :: key in entries && key !in keys ==> !(entries[key].sessionID == id && now < entries[key].expiresAt)
        decreases |keys|
      {
        var key :| key in keys;
        keys := keys - {key};
        if entries[key].sessionID == id && now < entries[key].expiresAt {
          StateLocked(key, entries[key], now);
          if sess[id].retired || sess[id].closing || id in closingIDs {
            return None;
          }
          assert Fresh(old(Abs()), key, now);
          var n := LeaseLocked(id, keyID, now);
          return Some(n);
        }
      }
      return None;
    }

    /** Lease.Done; kick says the sweep is asked to close the session. */
    method DoneLease(lease: nat, now: Time) returns (kick: bool)
      requires lease < leases
      modifies this`sess, this`open
      ensures Abs() == Step(old(Abs()), Done(lease, now))
      ensures lease !in old(open) ==> Abs() == old(Abs()) && !kick
      ensures lease in old(open) ==> open == old(open) - {lease}
      ensures lease in old(open) && old(open)[lease] in old(sess) ==>
        var id := old(open)[lease];
        var before := old(sess)[id];
        && id in sess && sess[id].lastUse == now && sess[id].inflight == (if before.inflight > 0 then before.inflight - 1 else 0)
        && (kick <==> before.inflight <= 1 && before.retired && !before.closing && before.closeFails < 3)
      ensures kick ==> lease in old(open) && Sweepable(Abs().(marks := map[]), old(open)[lease], false, 0, now)
      ensures lease in old(open) && !kick ==> !Sweepable(Abs().(marks := map[]), old(open)[lease], false, 0, now)
    {
      kick := false;
      if lease !in open {
        return;
      }
      var id := open[lease];
      open := open - {lease};
      if id in sess {
        var st := sess[id];
        if st.inflight > 0 {
          st := st.(inflight := st.inflight - 1);
        }
        st := st.(lastUse := now);
        sess := sess[id := st];
        kick := st.inflight == 0 && st.retired && !st.closing && st.closeFails < MAX_CLOSE_RETRIES;
      }
    }

    /** The session a release is about: the pooled one if keyID holds it, else the lowest of the model it holds. */
    method HeldSession(key: string, keyID: string) returns (target: Option<string>)
      ensures target.None? <==> forall x ::
        x in sess && keyID in sess[x].holders && !sess[x].closing ==>
          sess[x].model != key && !(key in entries && entries[key].sessionID == x)
      ensures target.Some? ==>
        target.value in sess && keyID in sess[target.value].holders && !sess[target.value].closing
        && (keyID != "" ==> ReleaseTarget(Abs(), key, keyID, target.value))
      ensures key in entries && HeldOpen(sess, entries[key].sessionID, keyID) ==> target == Some(entries[key].sessionID)
      ensures target.Some? && !(key in entries && entries[key].sessionID == target.value) ==>
        forall x :: HeldOpen(sess, x, keyID) && sess[x].model == key ==> !Less(x, target.value)
      ensures target.None? ==> forall x :: !ReleaseTarget(Abs(), key, keyID, x)
    {
      target := None;
      if key in entries && entries[key].sessionID in sess {
        var s := sess[entries[key].sessionID];
        if !s.closing && keyID in s.holders {
          target := Some(entries[key].sessionID);
        }
      }
      if target.None? {
        var ids := set x | x in sess && keyID in sess[x].holders && sess[x].model == key && !sess[x].closing;
        assert ids == HeldBy(Abs(), key, keyID);
        assert forall x :: x in sess && keyID in sess[x].holders && !sess[x].closing && sess[x].model == key ==> x in ids;
        if ids != {} {
          var m := LeastOf(ids);
          target := Some(m);
        }
      }
    }

    /** The answer is not_held, and nothing changes, exactly when keyID holds no session of the model. */
    method Release(key: string, keyID: string, now: Time) returns (out: ReleaseOutcome, ghost id: string)
      modifies this`sess, this`entries
      ensures out.reason == NotHeld ==> Abs() == old(Abs()) && !out.released
      ensures out.reason == NotHeld <==> keyID == "" || forall x :: !ReleaseTarget(old(Abs()), key, keyID, x)
      ensures out.reason != NotHeld ==> out.released && id in old(sess) && ReleaseTarget(old(Abs()), key, keyID, id)
      ensures out.reason != NotHeld ==> (Abs(), out.reason) == Released(old(Abs()), key, keyID, id, now)
      ensures out.reason == NotHeld <==>
        keyID == "" || forall x :: x in old(sess) && keyID in old(sess)[x].holders && !old(sess)[x].closing ==>
             old(sess)[x].model != key && !(key in old(entries) && old(entries)[key].sessionID == x)
      ensures out.reason != NotHeld ==> keyID in old(sess)[id].holders && !old(sess)[id].closing
      ensures out.reason != NotHeld && key in old(entries) && HeldOpen(old(sess), old(entries)[key].sessionID, keyID) ==>
        id == old(entries)[key].sessionID
      ensures out.reason != NotHeld && !(key in old(entries) && old(entries)[key].sessionID == id) ==>
        forall x :: HeldOpen(old(sess), x, keyID) && old(sess)[x].model == key ==> !Less(x, id)
      ensures out.reason == Shared ==> exists k :: k in old(sess)[id].holders && k != keyID
      ensures out.reason == InFlight ==> (forall k :: k in old(sess)[id].holders ==> k == keyID) && old(sess)[id].inflight > 0
      ensures out.reason == Closing ==> (forall k :: k in old(sess)[id].holders ==> k == keyID) && old(sess)[id].inflight == 0
      ensures out.reason == Shared || out.reason == InFlight ==>
        entries == old(entries) && sess == old(sess)[id := old(sess)[id].(holders := old(sess)[id].holders - {keyID})]
      ensures out.reason == Closing ==>
        id in sess && sess[id].retired && keyID !in sess[id].holders && !(key in entries && entries[key].sessionID == id)
    {
      hide Released, ReleaseTarget;
      id := "";
      var target := HeldSession(key, keyID);
      NobodysTarget(Abs(), key);
      if target.None? || keyID == "" {
        return ReleaseOutcome(false, NotHeld), id;
      }
      var x := target.value;
      id := x;
      LeaseLaws.ReleaseIs(Abs(), key, keyID, id, now);
      ReleasedIs(Abs(), key, keyID, id, now);
      var st := sess[x].(holders := sess[x].holders - {keyID});
      if st.holders != map[] {
        out := ReleaseOutcome(true, Shared);
      } else if st.inflight > 0 {
        out := ReleaseOutcome(true, InFlight);
      } else {
        st := st.MarkRetired(now);
        if key in entries && entries[key].sessionID == x {
          entries := entries - {key};
        }
        out := ReleaseOutcome(true, Closing);
      }
      sess := sess[x := st];
    }

    /** A cut close has not cleared. Marks that lapsed may go, no other does. */
    method CutCloseMarkLocked(now: Time) returns (cut: bool)
      modifies this`closingIDs
      ensures cut <==> exists id :: id in old(closingIDs) && old(closingIDs)[id].Until? && now < old(closingIDs)[id].exp
      ensures forall id :: id in closingIDs ==> id in old(closingIDs) && closingIDs[id] == old(closingIDs)[id]
      ensures forall id :: id in old(closingIDs) && id !in closingIDs ==> old(closingIDs)[id].Until? && old(closingIDs)[id].exp <= now
      ensures !cut ==> forall id :: id in closingIDs ==> closingIDs[id].InProgress?
      ensures Leads(old(Abs()), Abs())
    {
      hide Leads;
      LeadsToSelf(Abs());
      var ids := closingIDs.Keys;
      while ids != {}
        invariant Leads(old(Abs()), Abs())
        invariant ids <= closingIDs.Keys
        invariant forall id :: id in closingIDs ==> id in old(closingIDs) && closingIDs[id] == old(closingIDs)[id]
        invariant forall id :: id in old(closingIDs) && id !in closingIDs ==>
          old(closingIDs)[id].Until? && old(closingIDs)[id].exp <= now
        invariant forall id :: id in closingIDs && id !in ids ==> closingIDs[id].InProgress?
        decreases |ids|
      {
        var id :| id in ids;
        ids := ids - {id};
        if closingIDs[id].Until? {
          if closingIDs[id].exp <= now {
            ClearMarkLeads(old(Abs()), Abs(), id);
            closingIDs := closingIDs - {id};
          } else {
            return true;
          }
        }
      }
      return false;
    }

    /** The session the sweep would close now: none while a cut close is pending, else the lowest it may. */
    method SweepPick(idle: bool, grace: Time, now: Time) returns (id: Option<string>)
      modifies this`closingIDs
      ensures id.Some? ==> IsLeast(SweepableIds(Abs(), idle, grace, now), id.value)
      ensures id.Some? ==> id.value in sess && id.value !in closingIDs && MayClose(sess[id.value], idle, grace, now)
      ensures id.Some? ==> forall x :: x in sess && x !in closingIDs && MayClose(sess[x], idle, grace, now) ==> !Less(x, id.value)
      ensures id.Some? ==> forall x :: x in closingIDs ==> closingIDs[x].InProgress?
      ensures id.None? && (forall x :: x in old(closingIDs) && old(closingIDs)[x].Until? ==> old(closingIDs)[x].exp <= now) ==>
        forall x :: !Sweepable(Abs(), x, idle, grace, now)
      ensures forall x :: x in closingIDs ==> x in old(closingIDs) && closingIDs[x] == old(closingIDs)[x]
      ensures Leads(old(Abs()), Abs())
    {
      hide Leads;
      var cut := CutCloseMarkLocked(now);
      if cut {
        return None;
      }
      var ids: set<string> := {};
      var left := sess.Keys;
      while left != {}
        invariant left <= sess.Keys
        invariant forall x :: x in ids <==> x in sess && x !in left && Sweepable(Abs(), x, idle, grace, now)
        decreases |left|
      {
        var x :| x in left;
        left := left - {x};
        var st := sess[x];
        if st.closing || st.inflight > 0 || x in closingIDs {
        } else if !st.retired && (!idle || now - st.lastUse < grace) {
        } else if st.retired && st.closeFails >= MAX_CLOSE_RETRIES {
        } else {
          ids := ids + {x};
        }
      }
      if ids == {} {
        assert forall x :: Sweepable(Abs(), x, idle, grace, now) ==> x in ids;
        return None;
      }
      var m := LeastOf(ids);
      assert ids == SweepableIds(Abs(), idle, grace, now);
      return Some(m);
    }

    /** With the wallet slot held, the sweep looks again and marks its pick closing; false: something else comes first now. */
    method BeginSweepClose(id: string, idle: bool, grace: Time, now: Time) returns (ok: bool)
      requires naming.None?
      modifies this`closingIDs, this`sess, this`entries
      ensures !ok ==> sess == old(sess) && entries == old(entries)
      ensures ok ==> id in old(sess) && Sweepable(old(Abs()).(marks := closingIDs), id, idle, grace, now)
      ensures ok ==> Abs() == Step(old(Abs()).(marks := closingIDs), SweepClose(id, idle, grace, now))
      ensures ok ==> MayClose(old(sess)[id], idle, grace, now) && id in sess && sess == old(sess)[id := old(sess)[id].(closing := true)]
      ensures ok ==> !(sess[id].model in entries && entries[sess[id].model].sessionID == id)
      ensures Leads(old(Abs()), Abs())
    {
      hide Leads;
      var again := SweepPick(idle, grace, now);
      if again != Some(id) {
        return false;
      }
      StepLeads(old(Abs()), Abs(), SweepClose(id, idle, grace, now));
      var st := sess[id];
      sess := sess[id := st.(closing := true)];
      if st.model in entries && entries[st.model].sessionID == id {
        entries := entries - {st.model};
      }
      return true;
    }

    method SweepCloseFailed(id: string, now: Time)
      modifies this`sess
      ensures Abs() == Step(old(Abs()), Event.SweepCloseFailed(id, now))
      ensures id in old(sess) ==>
        id in sess && sess[id].retired && !sess[id].closing && sess[id].closeFails == old(sess)[id].closeFails + 1
    {
      if id in sess {
        var st := sess[id].(closing := false).MarkRetired(now);
        sess := sess[id := st.(closeFails := st.closeFails + 1)];
      }
    }

    /** Takes a failed session out of the pool; true: nothing is in flight and it may be closed now. */
    method RetireForFailover(key: string, id: string, now: Time) returns (closeNow: bool)
      requires chain(id) == key && !Named(Abs(), key)
      modifies this`sess, this`entries
      ensures Abs() == Step(old(Abs()), FailoverRetire(key, id, now))
      ensures closeNow <==> (id in old(sess) ==> old(sess)[id].inflight == 0 && !old(sess)[id].closing)
      ensures id in sess ==> sess[id].retired
      ensures !(key in entries && entries[key].sessionID == id)
      ensures id in old(sess) ==> id in sess && (sess[id].closing <==> old(sess)[id].closing || old(sess)[id].inflight == 0)
      ensures forall x :: x in old(sess) && x != id ==> x in sess && sess[x] == old(sess)[x]
    {
      if key in entries && entries[key].sessionID == id {
        entries := entries - {key};
      }
      if id !in sess {
        return true;
      }
      var st := sess[id].MarkRetired(now);
      if st.inflight > 0 || st.closing {
        sess := sess[id := st];
        return false;
      }
      sess := sess[id := st.(closing := true)];
      return true;
    }

    method FailoverCloseFailed(id: string)
      modifies this`sess
      ensures Abs() == Step(old(Abs()), Event.FailoverCloseFailed(id))
      ensures id in old(sess) ==>
        id in sess && !sess[id].closing && sess[id].closeFails == old(sess)[id].closeFails + 1
        && sess[id].retired == old(sess)[id].retired
    {
      if id in sess {
        sess := sess[id := sess[id].(closing := false, closeFails := sess[id].closeFails + 1)];
      }
    }

    /** The first step of a failover: another request already replaced the failed session. */
    method ReuseReplacement(key: string, failedID: string, reopen: bool, keyID: string, now: Time)
      returns (replacement: Option<string>, lease: Option<nat>)
      modifies this`sess, this`exact, this`open, this`leases
      ensures replacement == if Fresh(old(Abs()), key, now) && old(entries)[key].sessionID != failedID
        then Some(old(entries)[key].sessionID) else None
      ensures replacement.None? || !reopen ==> Abs() == old(Abs()) && lease.None?
      ensures replacement.Some? && reopen ==> Abs() == Step(old(Abs()), FailoverReuse(key, failedID, keyID, now))
      ensures replacement.Some? <==> key in entries && now < entries[key].expiresAt && entries[key].sessionID != failedID
      ensures replacement.Some? ==> replacement.value == entries[key].sessionID
      ensures lease.Some? <==> replacement.Some? && reopen && (replacement.value in old(sess) ==> Serves(old(sess)[replacement.value]))
      ensures lease.Some? ==> open == old(open)[lease.value := replacement.value]
      ensures lease == if leases > old(leases) then Some(old(leases)) else None
    {
      replacement, lease := None, None;
      if key in entries && entries[key].sessionID != failedID && now < entries[key].expiresAt {
        var id := entries[key].sessionID;
        replacement := Some(id);
        if reopen {
          StateLocked(key, entries[key], now);
          if !sess[id].retired && !sess[id].closing {
            var n := LeaseLocked(id, keyID, now);
            lease := Some(n);
          }
        }
      }
    }

    /** Pools and leases, in one section, a session this process opened. */
    method PoolOpened(key: string, e: Entry, openedAt: Time, endsAt: Time, keyID: string, now: Time) returns (lease: nat)
      requires chain(e.sessionID) == key
      modifies this`ours, this`entries, this`sess, this`exact, this`open, this`leases
      ensures Abs() == Step(old(Abs()), Event.PoolOpened(key, e, openedAt, endsAt, keyID, now))
      ensures lease == old(leases) && ours == old(ours) + {e.sessionID}
      ensures entries == old(entries)[key := e] && open == old(open)[lease := e.sessionID]
      ensures e.sessionID in sess && Serves(sess[e.sessionID]) && sess[e.sessionID].inflight == 1
      ensures sess[e.sessionID].holders == (if keyID == "" then map[] else map[keyID := now])
      ensures sess[e.sessionID].openedAt == openedAt && sess[e.sessionID].endsAt == endsAt && sess[e.sessionID].opener == keyID
    {
      ours := ours + {e.sessionID};
      entries := entries[key := e];
      NewStateLocked(key, e.sessionID, openedAt, endsAt, keyID, now);
      lease := LeaseLocked(e.sessionID, keyID, now);
    }

    /** Pools and leases a session the router named when it refused an open. */
    method AdoptNamed(key: string, e: Entry, openedAt: Time, endsAt: Time, keyID: string, now: Time) returns (lease: nat)
      requires naming == Some(Naming(key, e.sessionID))
      modifies this`entries, this`sess, this`exact, this`open, this`leases, this`naming
      ensures Abs() == Step(old(Abs()), Event.AdoptNamed(key, e, openedAt, endsAt, keyID, now))
      ensures lease == old(leases)
      ensures entries == old(entries)[key := e] && open == old(open)[lease := e.sessionID] && e.sessionID in sess
      ensures sess[e.sessionID].inflight == 1 + if e.sessionID in old(sess) then old(sess)[e.sessionID].inflight else 0
      ensures e.sessionID in old(sess) ==>
        sess[e.sessionID].retired == old(sess)[e.sessionID].retired && sess[e.sessionID].openedAt == old(sess)[e.sessionID].openedAt
      ensures e.sessionID !in old(sess) ==>
        Serves(sess[e.sessionID]) && sess[e.sessionID].openedAt == openedAt && sess[e.sessionID].endsAt == endsAt
    {
      entries := entries[key := e];
      naming := None;
      if e.sessionID !in sess {
        NewStateLocked(key, e.sessionID, openedAt, endsAt, "", now);
      }
      lease := LeaseLocked(e.sessionID, keyID, now);
    }

    method Invalidate(key: string)
      modifies this`sess, this`exact, this`entries
      ensures Abs() == Step(old(Abs()), Event.Invalidate(key))
      ensures entries == old(entries) - {key}
      ensures sess == if key in old(entries) then old(sess) - {old(entries)[key].sessionID} else old(sess)
    {
      if key in entries {
        exact := exact - {entries[key].sessionID};
        sess := sess - {entries[key].sessionID};
      }
      entries := entries - {key};
    }

    method Forget(id: string)
      modifies this`sess, this`exact, this`entries
      ensures Abs() == Step(old(Abs()), Event.Forget(id))
      ensures sess == old(sess) - {id}
      ensures forall k :: k in entries <==> k in old(entries) && (id == "" || old(entries)[k].sessionID != id)
      ensures forall k :: k in entries ==> entries[k] == old(entries)[k]
    {
      sess := sess - {id};
      exact := exact - {id};
      var keys := if id == "" then {} else entries.Keys;
      while keys != {}
        invariant sess == old(sess) - {id} && exact == old(exact) - {id}
        invariant keys <= entries.Keys && entries.Keys <= old(entries).Keys
        invariant forall k :: k in entries ==> entries[k] == old(entries)[k]
        invariant id != "" ==> forall k :: k in entries && k !in keys ==> entries[k].sessionID != id
        invariant forall k :: k in old(entries) && (id == "" || old(entries)[k].sessionID != id) ==> k in entries
        decreases |keys|
      {
        var k :| k in keys;
        keys := keys - {k};
        if entries[k].sessionID == id {
          entries := entries - {k};
        }
      }
      assert entries == QuietStep(old(Abs()), Event.Forget(id)).entries;
    }

    // Open attempts.

    /** Records an open about to be sent. The list is pruned first and never grows past its bound. */
    method AddAttempt(model: string, bid: string, now: Time) returns (a: Attempt)
      modifies this`pending, this`attempts
      ensures a == Attempt(old(attempts), model, bid, now, false, false) && attempts == old(attempts) + 1
      ensures var kept := Pruned(old(pending), now);
        pending == (if |kept| >= MAX_PENDING then kept[1..] else kept) + [a]
      ensures |old(pending)| <= MAX_PENDING ==> |pending| <= MAX_PENDING
      ensures a in pending && forall x :: x in pending && x != a ==> x in old(pending) && x.Live(now)
      ensures |old(pending)| < 32 ==> forall x :: x in old(pending) && x.Live(now) ==> x in pending
    {
      a := Attempt(attempts, model, bid, now, false, false);
      attempts := attempts + 1;
      pending := Pruned(pending, now);
      assert forall x :: x in pending <==> x in old(pending) && x.Live(now);
      if |pending| >= MAX_PENDING {
        pending := pending[1..];
      }
      pending := pending + [a];
    }

    method DropAttempt(a: Attempt)
      modifies this`pending
      ensures pending == Resolve(old(pending), a)
    {
      pending := Resolve(pending, a);
    }

    method ResultsOf(att: Attempt, list: seq<Session>, now: Time) returns (ms: seq<Session>)
      ensures ms == Results(att, list, closingIDs.Keys + sess.Keys, now)
    {
      ghost var barred := closingIDs.Keys + sess.Keys;
      ms := [];
      for i := 0 to |list|
        invariant ms == Results(att, list[..i], barred, now)
      {
        var s := list[i];
        assert list[..i + 1][..i] == list[..i];
        if att.Matches(s) && s.id !in closingIDs && s.id !in sess && Usable(s, now) {
          ms := ms + [s];
        }
      }
      assert list[..|list|] == list;
    }

    /** Every session but the one kept is a known extra from now on. */
    method RememberExtras(ms: seq<Session>, keepID: string)
      modifies this`knownDup
      ensures knownDup == old(knownDup) + (ListedIds(ms) - {keepID})
    {
      for i := 0 to |ms|
        invariant knownDup == old(knownDup) + (ListedIds(ms[..i]) - {keepID})
      {
        assert ListedIds(ms[..i + 1]) == ListedIds(ms[..i]) + {ms[i].id} by {
          assert ms[..i + 1] == ms[..i] + [ms[i]];
        }
        if ms[i].id != keepID {
          knownDup := knownDup + {ms[i].id};
        }
      }
      assert ms[..|ms|] == ms;
    }

    /** matchOpen: the best listed session att can have opened and the pool may take; the others are known extras. */
    method MatchOpen(att: Attempt, list: seq<Session>, now: Time) returns (got: Option<Session>)
      modifies this`pending, this`knownDup
      ensures var ms := Results(att, list, closingIDs.Keys + sess.Keys, now);
        && (ms == [] ==> got == None && pending == old(pending) && knownDup == old(knownDup))
        && (ms != [] ==> got == Some(Best(ms)) && pending == Resolve(old(pending), att)
                         && knownDup == old(knownDup) + (ListedIds(ms) - {Best(ms).id}))
      ensures forall s :: s in list && att.Matches(s) && s.id !in closingIDs && s.id !in sess && Usable(s, now) ==>
        got.Some? && Outlasts(got.value, s) && (s.id == got.value.id || s.id in knownDup)
      ensures got.Some? ==>
        got.value in list && att.Matches(got.value) && Usable(got.value, now)
        && got.value.id !in closingIDs && got.value.id !in sess
    {
      var ms := ResultsOf(att, list, now);
      if ms == [] {
        return None;
      }
      var keep := PickOne(ms);
      RememberExtras(ms, keep.id);
      pending := Resolve(pending, att);
      return Some(keep);
    }

    /**
     Whether a session the router named may be taken over: of this model, open, not near its end, and not closing,
     retired, a known extra, tracked or excluded. resumed: no attempt of ours opened it.
     */
    method Adoptable(model: string, s: Session, retired: bool, excluded: bool, now: Time) returns (ok: bool, resumed: bool)
      requires naming.None? && chain(s.id) == s.model
      modifies this`pending, this`ours, this`naming
      ensures ok <==> (s.model == model && s.closedAt == 0 && Usable(s, now) && !retired && !excluded
                       && s.id !in closingIDs && s.id !in knownDup && s.id !in sess)
      ensures Abs() == if ok then Step(old(Abs()), NameExisting(model, s.id)) else old(Abs())
      ensures resumed <==> ok && MatchOf(old(pending), s).None?
      ensures pending == if ok && !resumed then Resolve(old(pending), MatchOf(old(pending), s).value) else old(pending)
      ensures ours == if ok && !resumed then old(ours) + {s.id} else old(ours)
    {
      if s.model != model || s.closedAt != 0 || !Usable(s, now) {
        return false, false;
      }
      if retired || s.id in closingIDs || s.id in knownDup || s.id in sess {
        return false, false;
      }
      if excluded {
        return false, false;
      }
      naming := Some(Naming(model, s.id));
      var a := MatchOf(pending, s);
      if a.Some? {
        pending, ours := Resolve(pending, a.value), ours + {s.id};
      }
      return true, a.None?;
    }

    // The scan.

    method Adopt(s: Session, now: Time)
      requires chain(s.id) == s.model
      modifies this`entries, this`sess, this`exact
      ensures Abs() == Step(old(Abs()), ScanAdopt(s, now)) && Leads(old(Abs()), Abs())
      ensures entries == old(entries)[s.model := EntryOf(s)]
      ensures sess == if s.id in old(sess) then old(sess) else old(sess)[s.id := StateOfAdopted(s, now)]
      ensures s.id !in old(sess) ==>
        sess[s.id].model == s.model && Serves(sess[s.id]) && sess[s.id].inflight == 0
        && sess[s.id].openedAt == FromUnix(s.openedAt) && sess[s.id].endsAt == FromUnix(s.endsAt)
    {
      hide Leads;
      LeadsToSelf(Abs());
      StepLeads(Abs(), Abs(), ScanAdopt(s, now));
      entries := entries[s.model := Entry(s.id, FromUnix(s.endsAt) - EXPIRY_BUFFER, s.provider)];
      if s.id !in sess {
        NewStateLocked(s.model, s.id, FromUnix(s.openedAt), FromUnix(s.endsAt), "", now);
      }
    }

    /** The router tells one model for each session, now as before. */
    ghost predicate Known(ss: seq<Session>) {
      forall s :: s in ss ==> chain(s.id) == s.model
    }

    /** One model's results of our own opens. Where one is adopted the model's older sessions are duplicates too. */
    method SettleOwnModel(own: map<string, seq<Session>>, key: string, now: Time, due0: seq<Cand>,
                          spare0: map<string, seq<Session>>, adopted0: nat)
      returns (due: seq<Cand>, spare: map<string, seq<Session>>, adopted: nat)
      requires key in own && own[key] != [] && Known(own[key])
      modifies this`entries, this`sess, this`exact, this`knownDup
      ensures Work(entries, sess, knownDup, due, spare, adopted)
        == SettleOwn(Work(old(entries), old(sess), old(knownDup), due0, spare0, adopted0), own, closingIDs, now, key)
      ensures Leads(old(Abs()), Abs())
    {
      hide Leads, Step, Dups, DupIds, StateOfAdopted, EntryOf, UsableNow, IsBest, Best, Serves, Outlasts, Beats, Track, NewSess, DistinctIds;
      LeadsToSelf(Abs());
      due, spare, adopted := due0, spare0, adopted0;
      var ss := own[key];
      if UsableNow(entries, sess, closingIDs, now, key) {
        var cands, ids := Scan.Duplicates(ss, None);
        due, knownDup := due + cands, knownDup + ids;
      } else {
        var keep := PickOne(ss);
        Adopt(keep, now);
        adopted := adopted + 1;
        var cands, ids := Scan.Duplicates(ss, Some(keep.id));
        due, knownDup := due + cands, knownDup + ids;
        if key in spare {
          var older, _ := Scan.Duplicates(spare[key], None);
          due, spare := due + older, spare - {key};
        }
      }
    }

    /** One model's spare sessions. */
    method SettleSpareModel(spare: map<string, seq<Session>>, key: string, now: Time, due0: seq<Cand>, adopted0: nat)
      returns (due: seq<Cand>, adopted: nat)
      requires key in spare && spare[key] != [] && Known(spare[key])
      modifies this`entries, this`sess, this`exact
      ensures Work(entries, sess, knownDup, due, spare, adopted)
        == SettleSpare(Work(old(entries), old(sess), knownDup, due0, spare, adopted0), closingIDs, now, key)
      ensures Leads(old(Abs()), Abs())
    {
      hide Leads, Step, Dups, DupIds, StateOfAdopted, EntryOf;
      LeadsToSelf(Abs());
      adopted := adopted0;
      var ss := spare[key];
      var keepID: Option<string> := None;
      if !UsableNow(entries, sess, closingIDs, now, key) {
        var keep := PickOne(ss);
        Adopt(keep, now);
        adopted, keepID := adopted + 1, Some(keep.id);
      }
      var cands, _ := Scan.Duplicates(ss, keepID);
      due := due0 + cands;
    }

    ghost predicate PilesKnown(m: map<string, seq<Session>>) {
      forall k :: k in m ==> Known(m[k])
    }

    method SettleOwns(p: Piles, now: Time)
      returns (due: seq<Cand>, spare: map<string, seq<Session>>, adopted: nat, ghost order: seq<string>)
      requires NoneEmpty(p.own) && PilesKnown(p.own)
      modifies this`entries, this`sess, this`exact, this`knownDup
      ensures OrderOf(order, p.own.Keys)
      ensures Work(entries, sess, knownDup, due, spare, adopted) ==
        Sweep.SettleOwns(Work(old(entries), old(sess), old(knownDup), p.due, p.spare, 0), p.own, closingIDs, now, order)
      ensures Leads(old(Abs()), Abs())
    {
      hide Leads, SettleOwn;
      LeadsToSelf(Abs());
      due, spare, adopted, order := p.due, p.spare, 0, [];
      var left := p.own.Keys;
      while left != {}
        invariant left <= p.own.Keys && OrderOf(order, p.own.Keys - left)
        invariant Work(entries, sess, knownDup, due, spare, adopted) ==
          Sweep.SettleOwns(Work(old(entries), old(sess), old(knownDup), p.due, p.spare, 0), p.own, closingIDs, now, order)
        invariant Leads(old(Abs()), Abs())
        decreases |left|
      {
        var key :| key in left;
        left := left - {key};
        ghost var before := Abs();
        due, spare, adopted := SettleOwnModel(p.own, key, now, due, spare, adopted);
        LeadsOn(old(Abs()), before, Abs());
        assert (order + [key])[..|order|] == order;
        order := order + [key];
      }
    }

    method SettleSpares(spare: map<string, seq<Session>>, now: Time, due0: seq<Cand>, adopted0: nat)
      returns (due: seq<Cand>, adopted: nat, ghost order: seq<string>)
      requires NoneEmpty(spare) && PilesKnown(spare)
      modifies this`entries, this`sess, this`exact
      ensures OrderOf(order, spare.Keys)
      ensures Work(entries, sess, knownDup, due, spare, adopted) ==
        Sweep.SettleSpares(Work(old(entries), old(sess), knownDup, due0, spare, adopted0), closingIDs, now, order)
      ensures Leads(old(Abs()), Abs())
    {
      hide Leads, SettleSpare;
      LeadsToSelf(Abs());
      due, adopted, order := due0, adopted0, [];
      var left := spare.Keys;
      while left != {}
        invariant left <= spare.Keys && OrderOf(order, spare.Keys - left)
        invariant Work(entries, sess, knownDup, due, spare, adopted) ==
          Sweep.SettleSpares(Work(old(entries), old(sess), knownDup, due0, spare, adopted0), closingIDs, now, order)
        invariant Leads(old(Abs()), Abs())
        decreases |left|
      {
        var key :| key in left;
        left := left - {key};
        ghost var before := Abs();
        due, adopted := SettleSpareModel(spare, key, now, due, adopted);
        LeadsOn(old(Abs()), before, Abs());
        assert (order + [key])[..|order|] == order;
        order := order + [key];
      }
    }

    /** Ends the marks of cut closes that are off the list or lapsed; late are those off the list. */
    method EndCutMarks(listed: set<string>, now: Time) returns (late: set<string>)
      modifies this`closingIDs
      ensures closingIDs == MarksLeft(old(closingIDs), listed, now)
      ensures late == LateUntil(old(closingIDs), {}, listed)
      ensures forall id :: id in closingIDs <==>
        id in old(closingIDs) && (old(closingIDs)[id].Until? ==> id in listed && now < old(closingIDs)[id].exp)
      ensures forall id :: id in closingIDs ==> closingIDs[id] == old(closingIDs)[id]
      ensures forall id :: id in late <==> id in old(closingIDs) && old(closingIDs)[id].Until? && id !in listed
      ensures Leads(old(Abs()), Abs())
    {
      hide Leads;
      LeadsToSelf(Abs());
      late := {};
      var ids := closingIDs.Keys;
      hide MarksUntil, LateUntil;
      MarksUntilAll(closingIDs, listed, now);
      while ids != {}
        invariant ids <= old(closingIDs).Keys
        invariant late == LateUntil(old(closingIDs), ids, listed)
        invariant closingIDs == MarksUntil(old(closingIDs), ids, listed, now)
        invariant Leads(old(Abs()), Abs())
        decreases |ids|
      {
        var id :| id in ids;
        MarksUntilNext(old(closingIDs), ids, id, listed, now);
        ids := ids - {id};
        if closingIDs[id].Until? && (id !in listed || closingIDs[id].exp <= now) {
          if id !in listed {
            late := late + {id};
          }
          ClearMarkLeads(old(Abs()), Abs(), id);
          closingIDs := closingIDs - {id};
        }
      }
      MarksUntilNone(old(closingIDs), listed, now);
      LateAre(old(closingIDs), listed);
    }

    /** Drops the slots whose session is off the list. */
    method DropSlots(listed: set<string>, scanStart: Time)
      modifies this`entries
      ensures entries == map k | k in old(entries) && !DropsNow(sess, listed, scanStart, old(entries)[k]) :: old(entries)[k]
      ensures forall k :: k in old(entries) ==>
        var id := old(entries)[k].sessionID;
        (k !in entries <==> id !in listed && (id in sess ==> sess[id].inflight == 0 && sess[id].openedAt <= scanStart - 2 * MINUTE))
      ensures Leads(old(Abs()), Abs())
    {
      hide Leads;
      LeadsToSelf(Abs());
      var keys := entries.Keys;
      hide SlotsUntil;
      SlotsUntilAll(entries, sess, listed, scanStart);
      while keys != {}
        invariant keys <= old(entries).Keys
        invariant entries == SlotsUntil(old(entries), keys, sess, listed, scanStart)
        invariant Leads(old(Abs()), Abs())
        decreases |keys|
      {
        var k :| k in keys;
        SlotsUntilNext(old(entries), keys, k, sess, listed, scanStart);
        keys := keys - {k};
        var id := entries[k].sessionID;
        if id !in listed && !(id in sess && (sess[id].inflight > 0 || sess[id].openedAt > scanStart - PRUNE_GRACE)) {
          DropEntryLeads(old(Abs()), Abs(), k);
          entries := entries - {k};
        }
      }
      SlotsUntilNone(old(entries), sess, listed, scanStart);
    }

    method AgeDue(due: seq<Cand>, now: Time)
      modifies this`closeDueAt
      ensures closeDueAt == Aged(old(closeDueAt), CandIds(due), now)
    {
      var dueNow: set<string> := {};
      for i := 0 to |due|
        invariant dueNow == CandIds(due[..i])
        invariant closeDueAt == map id | id in old(closeDueAt).Keys + dueNow
          :: if id in old(closeDueAt) then old(closeDueAt)[id] else now
      {
        var id := due[i].s.id;
        assert due[..i + 1] == due[..i] + [due[i]];
        dueNow := dueNow + {id};
        if id !in closeDueAt {
          closeDueAt := closeDueAt[id := now];
        }
      }
      assert due[..|due|] == due;
      closeDueAt := map id | id in closeDueAt && id in dueNow :: closeDueAt[id];
    }

    /** Marks the session due longest as closing, unless a cut close has not cleared. */
    method PickClose(due: seq<Cand>, now: Time) returns (close: Option<Cand>)
      requires forall c :: c in due ==> c.s.id in closeDueAt
      requires forall id :: id in closingIDs && closingIDs[id].Until? ==> now < closingIDs[id].exp
      modifies this`closingIDs
      ensures close.None? <==> due == [] || CutLeft(old(closingIDs))
      ensures close.None? ==> closingIDs == old(closingIDs)
      ensures close.Some? ==> close.value in due && closingIDs == old(closingIDs)[close.value.s.id := InProgress]
      ensures close.Some? ==> forall d :: d in due ==> !DueBefore(closeDueAt, d, close.value)
      ensures Leads(old(Abs()), Abs())
    {
      hide Leads;
      LeadsToSelf(Abs());
      if due == [] {
        return None;
      }
      var cut := CutCloseMarkLocked(now);
      assert closingIDs == old(closingIDs);
      if cut {
        return None;
      }
      var c := due[0];
      LessIrreflexive(c.s.id);
      for i := 1 to |due|
        invariant c in due && forall d :: d in due[..i] ==> !DueBefore(closeDueAt, d, c)
      {
        assert due[..i + 1] == due[..i] + [due[i]];
        ghost var last := c;
        if DueBefore(closeDueAt, due[i], c) {
          c := due[i];
        }
        forall d | d in due[..i + 1] ensures !DueBefore(closeDueAt, d, c) {
          DueBeforeIsOrder(closeDueAt, d, due[i], last);
          DueBeforeIsOrder(closeDueAt, due[i], last, due[i]);
        }
      }
      assert due[..|due|] == due;
      SetMarkLeads(old(Abs()), Abs(), c.s.id, InProgress);
      closingIDs := closingIDs[c.s.id := InProgress];
      return Some(c);
    }

    /** Adopts for every model and collects what is due. */
    method Settle(list: seq<Session>, p: Piles, now: Time, ghost v: View, ghost attempts: seq<Attempt>)
      returns (due: seq<Cand>, adopted: nat)
      requires DistinctIds(list) && Known(list) && SortedOut(list, Walk(v, attempts, list).0, p)
      requires v.entries == entries && v.sess == sess && v.marks == closingIDs && v.knownDup == knownDup && v.now == now
      modifies this`entries, this`sess, this`exact, this`knownDup
      ensures exists spare ::
        ScanDone(v, list, Walk(v, attempts, list).0, p.own, Work(entries, sess, knownDup, due, spare, adopted))
      ensures Leads(old(Abs()), Abs())
    {
      hide Leads, SortedOut, ScanDone, Walk, DistinctIds, OrderOf, NoneEmpty, Sweep.SettleOwns, Sweep.SettleSpares;
      SortedPiles(list, Walk(v, attempts, list).0, p);
      assert PilesKnown(p.own) && PilesKnown(p.spare);
      var spare;
      ghost var ownOrder, spareOrder;
      due, spare, adopted, ownOrder := SettleOwns(p, now);
      assert NoneEmpty(spare) by {
        SparePart(p.spare, spare);
      }
      ghost var middle, known := Abs(), knownDup;
      due, adopted, spareOrder := SettleSpares(spare, now, due, adopted);
      LeadsOn(old(Abs()), middle, Abs());
      AllSettled(v, attempts, list, p, ownOrder, spareOrder);
    }

    /** Sweep mode: since when each session has been due, and the close to make. */
    method PickDue(list: seq<Session>, due: seq<Cand>, now: Time, ghost v: View, ghost cs: seq<Class>) returns (close: Option<Cand>)
      requires |cs| == |list| && v.marks == closingIDs
      requires forall c :: c in due <==> IsDue(v, list, cs, c)
      requires forall id :: id in closingIDs && closingIDs[id].Until? ==> now < closingIDs[id].exp
      modifies this`closingIDs, this`closeDueAt
      ensures closeDueAt == Aged(old(closeDueAt), DueIds(v, list, cs), now)
      ensures close.None? <==> DueIds(v, list, cs) == {} || CutLeft(v.marks)
      ensures close.None? ==> closingIDs == v.marks
      ensures close.Some? ==> IsFirstDue(v, list, cs, closeDueAt, close.value) && closingIDs == v.marks[close.value.s.id := InProgress]
      ensures Leads(old(Abs()), Abs())
    {
      hide Leads, IsDue, DueIds, DueBefore;
      CandIdsAreDue(v, list, cs, due);
      AgeDue(due, now);
      close := PickClose(due, now);
      if due != [] {
        assert due[0].s.id in CandIds(due);
      }
    }

    /** What a scan reads of the pool. */
    ghost function Seen(listed: set<string>, now: Time, retired: set<string>, excluded: set<string>): View
      reads this
    {
      View(now, entries, sess, MarksLeft(closingIDs, listed, now), knownDup, retired, excluded)
    }

    /** The scan between the marks and the close: resolves attempts, adopts, collects what is due, drops slots. */
    method Digest(list: seq<Session>, scanStart: Time, retired: set<string>, excluded: set<string>, now: Time, ghost v: View)
      returns (due: seq<Cand>, adopted: nat, matched: bool, ghost cs: seq<Class>)
      requires DistinctIds(list) && Known(list) && v == View(now, entries, sess, closingIDs, knownDup, retired, excluded)
      modifies this`pending, this`ours, this`entries, this`sess, this`exact, this`knownDup
      ensures Leads(old(Abs()), Abs())
      ensures (cs, pending) == Walk(v, old(pending), list)
      ensures ours == old(ours) + OwnIds(list, cs) && (matched <==> OwnIds(list, cs) != {})
      ensures SlotsAfter(v, list, cs, scanStart, entries)
      ensures StatesSettled(v, Keeps(v, list, cs), Keeps(v, list, cs).Keys, sess)
      ensures adopted == |Keeps(v, list, cs)| && knownDup == (v.knownDup + OwnExtras(v, list, cs)) * ListedIds(list)
      ensures forall c :: c in due <==> IsDue(v, list, cs, c)
    {
      hide Leads, SortedOut, Walk, StatesSettled, SlotsSettled, SlotsAfter, OwnExtras, DistinctIds, Keeps, IsDue;
      hide DropsNow, ExtraIds, OwnIds, Known, ScanDone;
      var p, rest;
      p, rest, cs := Scan.Classify(View(now, entries, sess, closingIDs, knownDup, retired, excluded), pending, list);
      ghost var attempts := pending;
      pending, ours := rest, ours + p.ids;
      due, adopted := Settle(list, p, now, v, attempts);
      ScanDoneSays(v, list, cs, p, Work(entries, sess, knownDup, due, map[], adopted));
      ghost var settled, s1 := entries, Abs();
      DropSlots(ListedIds(list), scanStart);
      LeadsOn(old(Abs()), s1, Abs());
      SlotsDropped(v, list, cs, scanStart, settled, sess, entries);
      knownDup := knownDup * ListedIds(list);
      matched := p.ids != {};
    }

    /**
     One scan of the wallet's session list. retired and excluded are the failover memory. In sweep mode it also notes
     since when each session has been due and marks at most one as closing, for the caller to close.
     */
    method ApplyScan(list: seq<Session>, scanStart: Time, sweep: bool, retired: set<string>, excluded: set<string>, now: Time)
      returns (out: ScanOut, ghost cs: seq<Class>)
      requires DistinctIds(list) && Known(list)
      modifies this`closingIDs, this`pending, this`ours, this`entries, this`sess, this`exact, this`knownDup, this`closeDueAt
      ensures Leads(old(Abs()), Abs())
      ensures out.late == LateUntil(old(closingIDs), {}, ListedIds(list))
      ensures out.live == set s | s in list && s.closedAt == 0 && s.endsAt > Unix(now) :: s.model
      ensures (cs, pending) == Walk(old(Seen(ListedIds(list), now, retired, excluded)), Pruned(old(pending), now), list)
      ensures ours == old(ours) + OwnIds(list, cs) && (out.matched <==> OwnIds(list, cs) != {})
      ensures var v := old(Seen(ListedIds(list), now, retired, excluded));
        && SlotsAfter(v, list, cs, scanStart, entries)
        && StatesSettled(v, Keeps(v, list, cs), Keeps(v, list, cs).Keys, sess)
        && out.adopted == |Keeps(v, list, cs)|
        && knownDup == (v.knownDup + OwnExtras(v, list, cs)) * ListedIds(list)
      ensures var v := old(Seen(ListedIds(list), now, retired, excluded));
        if sweep then
          && closeDueAt == Aged(old(closeDueAt), DueIds(v, list, cs), now)
          && (out.close.None? <==> DueIds(v, list, cs) == {} || CutLeft(v.marks))
          && (out.close.None? ==> closingIDs == v.marks)
          && (out.close.Some? ==> IsFirstDue(v, list, cs, closeDueAt, out.close.value)
                                  && closingIDs == v.marks[out.close.value.s.id := InProgress])
        else
          out.close.None? && closeDueAt == old(closeDueAt) && closingIDs == v.marks
    {
      hide Leads, Walk, StatesSettled, SlotsAfter, OwnExtras, DueIds, DistinctIds, Keeps, IsDue, OwnIds, Pruned, Known;
      hide LateUntil, MarksLeft, Aged, CutLeft, IsFirstDue;
      var listed := ListedIds(list);
      ghost var v := Seen(listed, now, retired, excluded);
      var late := EndCutMarks(listed, now);
      pending := Pruned(pending, now);
      ghost var s1 := Abs();
      var due, adopted, matched;
      due, adopted, matched, cs := Digest(list, scanStart, retired, excluded, now, v);
      LeadsOn(old(Abs()), s1, Abs());
      out := ScanOut(adopted, matched, None, late, set s | s in list && s.closedAt == 0 && s.endsAt > Unix(now) :: s.model);
      if sweep {
        MarksLeftStand(old(closingIDs), listed, now);
        ghost var s2 := Abs();
        var close := PickDue(list, due, now, v, cs);
        LeadsOn(old(Abs()), s2, Abs());
        out := out.(close := close);
      }
    }

    // Closes made with the wallet slot held; the router is asked between the two sections.

    method BeginClose(id: string)
      modifies this`closingIDs
      ensures closingIDs == old(closingIDs)[id := InProgress] && Leads(old(Abs()), Abs())
    {
      hide Leads;
      LeadsToSelf(Abs());
      SetMarkLeads(Abs(), Abs(), id, InProgress);
      closingIDs := closingIDs[id := InProgress];
    }

    method Mark(id: string, mark: Mark)
      modifies this`closingIDs
      ensures Abs() == Step(old(Abs()), SetMark(id, mark)) && closingIDs == old(closingIDs)[id := mark]
    {
      closingIDs := closingIDs[id := mark];
    }

    method Unmark(id: string)
      modifies this`closingIDs
      ensures Abs() == Step(old(Abs()), ClearMark(id)) && closingIDs == old(closingIDs) - {id}
    {
      closingIDs := closingIDs - {id};
    }

    method ForgetClosed(id: string)
      modifies this`closingIDs, this`sess, this`exact, this`entries
      ensures Abs() == Step(Step(old(Abs()), ClearMark(id)), Event.Forget(id))
      ensures closingIDs == old(closingIDs) - {id} && sess == old(sess) - {id}
      ensures forall k :: k in entries ==> k in old(entries) && (id == "" || entries[k].sessionID != id)
    {
      closingIDs := closingIDs - {id};
      Forget(id);
    }

    /**
     The router's answer to a close. sawClosed: after a refusal the session was read and is closed already. A close
     cut before its answer keeps the mark for a while; a refusal clears it; a closed session is forgotten.
     */
    method FinishClose(id: string, answer: CloseAnswer, sawClosed: bool, now: Time) returns (outcome: CloseOutcome)
      modifies this`closingIDs, this`closeDueAt, this`knownDup, this`closedByUs, this`sess, this`exact, this`entries
      ensures outcome == (match answer
        case Closed => CloseOutcome.OK
        case Unanswered => Cut
        case Refused => if sawClosed then Already else Failed)
      ensures outcome.OK? || outcome.Already? ==> Abs() == Step(Step(old(Abs()), ClearMark(id)), Event.Forget(id))
      ensures outcome.OK? || outcome.Already? ==>
        (closeDueAt == old(closeDueAt) - {id} && knownDup == old(knownDup) - {id} && closedByUs == old(closedByUs) + {id})
      ensures outcome.Cut? ==> Abs() == Step(old(Abs()), SetMark(id, Until(now + ROUTER_CLOSE_MAX_LIFE)))
      ensures outcome.Cut? ==> closedByUs == old(closedByUs) + {id}
      ensures outcome.Failed? ==> Abs() == Step(old(Abs()), ClearMark(id)) && closedByUs == old(closedByUs)
      ensures outcome.Cut? || outcome.Failed? ==> closeDueAt == old(closeDueAt) && knownDup == old(knownDup)
      ensures outcome.OK? || outcome.Already? ==>
        sess == old(sess) - {id} && closingIDs == old(closingIDs) - {id}
        && (forall k :: k in entries ==> k in old(entries) && (id == "" || entries[k].sessionID != id))
      ensures outcome.Cut? ==> closingIDs == old(closingIDs)[id := Until(now + ROUTER_CLOSE_MAX_LIFE)]
      ensures outcome.Failed? ==> closingIDs == old(closingIDs) - {id}
      ensures outcome.Cut? || outcome.Failed? ==> sess == old(sess) && entries == old(entries)
      ensures Comes(old(Abs()), Abs())
    {
      hide Step, Comes, Run;
      ComesToSelf(Abs());
      StepComes(Abs(), Abs(), SetMark(id, Until(now + ROUTER_CLOSE_MAX_LIFE)));
      StepComes(Abs(), Abs(), ClearMark(id));
      StepComes(Abs(), Step(Abs(), ClearMark(id)), Event.Forget(id));
      if answer.Unanswered? {
        Mark(id, Until(now + ROUTER_CLOSE_MAX_LIFE));
        closedByUs := closedByUs + {id};
        return Cut;
      }
      if answer.Refused? && !sawClosed {
        Unmark(id);
        return Failed;
      }
      closeDueAt, knownDup, closedByUs := closeDueAt - {id}, knownDup - {id}, closedByUs + {id};
      ForgetClosed(id);
      return if answer.Closed? then CloseOutcome.OK else Already;
    }

    // The boot reconcile.

    method BootAdopt(key: string, e: Entry)
      requires chain(e.sessionID) == key
      modifies this`entries
      ensures entries == old(entries)[key := e] && Leads(old(Abs()), Abs())
    {
      hide Leads;
      LeadsToSelf(Abs());
      BootAdoptLeads(Abs(), Abs(), key, e);
      entries := entries[key := e];
    }

    /** Marks the sessions as closing before any close is tried. */
    method MarkClosing(ss: seq<Session>)
      modifies this`closingIDs
      ensures closingIDs == MarkedAll(old(closingIDs), ListedIds(ss)) && Leads(old(Abs()), Abs())
    {
      hide Leads, MarkedAll, ListedIds;
      LeadsToSelf(Abs());
      NoneMarked(closingIDs);
      assert ss[..0] == [];
      for i := 0 to |ss|
        invariant closingIDs == MarkedAll(old(closingIDs), ListedIds(ss[..i])) && Leads(old(Abs()), Abs())
      {
        SetMarkLeads(old(Abs()), Abs(), ss[i].id, InProgress);
        MarkedNext(old(closingIDs), ss, i);
        closingIDs := closingIDs[ss[i].id := InProgress];
      }
      assert ss[..|ss|] == ss;
    }
  }
}
