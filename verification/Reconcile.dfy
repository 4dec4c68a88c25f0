/** The boot reconcile: a plan over the wallet's session list, and the closes it may run. */
module Reconcile {
  import opened Basics
  import opened Sessions
  import Leases
  import Pools
  import Sweep

  const MAX_BOOT_CLOSES := 20

  datatype Reason = Expired | Excluded | Duplicate | Unconfigured | Young

  datatype Decision = Adopt | Close(reason: Reason) | Skip(reason: Reason)

  /** What the plan goes by. configured: the models served, None when not known or empty. */
  datatype Rules = Rules(now: Time, configured: Option<set<string>>, excluded: set<string>)
  {
    predicate Served(s: Session) {
      configured.None? || s.model in configured.value
    }

    predicate Eligible(s: Session) {
      Usable(s, now) && s.provider !in excluded && Served(s)
    }

    predicate Recent(s: Session) {
      s.openedAt > Unix(now - Sweep.PRUNE_GRACE)
    }

    /** Before duplicates are told apart. */
    function First(s: Session): Decision {
      if !Usable(s, now) then Close(Expired)
      else if s.provider in excluded then Close(Excluded)
      else if !Served(s) then Skip(Unconfigured)
      else Adopt
    }

    /** Some session of the list that may be kept is kept over s for its model. */
    ghost predicate Beaten(open: seq<Session>, s: Session) {
      exists t :: t in open && Eligible(t) && t.model == s.model && Beats(t, s)
    }

    /** The decision on a session, said by the set of sessions it is listed with. */
    ghost function Decide(open: seq<Session>, s: Session): Decision {
      if !Eligible(s) || !Beaten(open, s) then First(s)
      else if Recent(s) then Skip(Young)
      else Close(Duplicate)
    }
  }

  /** best holds, for each model with a session that may be kept among the first n, the best of them. */
  ghost predicate BestSoFar(r: Rules, open: seq<Session>, n: nat, best: map<string, nat>)
    requires n <= |open|
  {
    && (forall m :: m in best ==> best[m] < n && r.Eligible(open[best[m]]) && open[best[m]].model == m)
    && (forall j :: 0 <= j < n && r.Eligible(open[j]) ==>
          open[j].model in best && !Beats(open[j], open[best[open[j].model]]))
  }

  lemma NoneYet(r: Rules, open: seq<Session>)
    ensures BestSoFar(r, open, 0, map[])
  {
  }

  lemma BestNext(r: Rules, open: seq<Session>, n: nat, best: map<string, nat>)
    requires n < |open| && DistinctIds(open) && BestSoFar(r, open, n, best)
    ensures forall m :: m in best ==> best[m] < n
    ensures !r.Eligible(open[n]) ==> BestSoFar(r, open, n + 1, best)
    ensures var m := open[n].model;
      r.Eligible(open[n]) ==> BestSoFar(r, open, n + 1, if m !in best || Beats(open[n], open[best[m]]) then best[m := n] else best)
  {
    if r.Eligible(open[n]) {
      BestStep(r, open, n, best);
    }
  }

  lemma BestStep(r: Rules, open: seq<Session>, n: nat, best: map<string, nat>)
    requires n < |open| && DistinctIds(open) && BestSoFar(r, open, n, best) && r.Eligible(open[n])
    ensures var m := open[n].model;
      BestSoFar(r, open, n + 1, if m !in best || Beats(open[n], open[best[m]]) then best[m := n] else best)
  {
    var m := open[n].model;
    var best' := if m !in best || Beats(open[n], open[best[m]]) then best[m := n] else best;
    forall j | 0 <= j < n + 1 && r.Eligible(open[j])
      ensures open[j].model in best' && !Beats(open[j], open[best'[open[j].model]])
    {
      BeatsIsStrictTotalOrder(open[n], open[n], open[n]);
      if open[j].model == m && m in best {
        BeatsIsStrictTotalOrder(open[j], open[n], open[best[m]]);
      }
    }
  }

  /** With the whole list read, a session is the one kept exactly when none is kept over it. */
  lemma BestIsUnbeaten(r: Rules, open: seq<Session>, best: map<string, nat>, i: nat)
    requires i < |open| && DistinctIds(open) && BestSoFar(r, open, |open|, best) && r.Eligible(open[i])
    ensures open[i].model in best && (best[open[i].model] == i <==> !r.Beaten(open, open[i]))
  {
    var b := open[best[open[i].model]];
    if best[open[i].model] != i {
      BeatsIsStrictTotalOrder(b, open[i], b);
      assert b in open && r.Eligible(b) && Beats(b, open[i]);
    }
  }

  method PlanReconcile(open: seq<Session>, r: Rules) returns (out: seq<Decision>)
    requires DistinctIds(open)
    ensures |out| == |open|
    ensures forall i :: 0 <= i < |open| ==> out[i] == r.Decide(open, open[i])
    ensures forall i :: 0 <= i < |open| ==> DecidedAs(r, open, open[i], out[i])
  {
    hide BestSoFar, Beats, Usable, Rules.Beaten;
    var best: map<string, nat> := map[];
    NoneYet(r, open);
    var ds := new Decision[|open|];
    for i := 0 to |open|
      invariant forall j :: 0 <= j < i ==> ds[j] == r.First(open[j])
      invariant BestSoFar(r, open, i, best) && forall m :: m in best ==> best[m] < i
    {
      var s := open[i];
      BestNext(r, open, i, best);
      if !Usable(s, r.now) {
        ds[i] := Close(Expired);
      } else if s.provider in r.excluded {
        ds[i] := Close(Excluded);
      } else if r.configured.Some? && s.model !in r.configured.value {
        ds[i] := Skip(Unconfigured);
      } else {
        ds[i] := Adopt;
        if s.model !in best || Beats(s, open[best[s.model]]) {
          best := best[s.model := i];
        }
      }
    }
    for i := 0 to |open|
      invariant forall j :: 0 <= j < i ==> ds[j] == r.Decide(open, open[j])
      invariant forall j :: i <= j < |open| ==> ds[j] == r.First(open[j])
    {
      if ds[i].Adopt? {
        BestIsUnbeaten(r, open, best, i);
        if best[open[i].model] != i {
          if open[i].openedAt > Unix(r.now - Sweep.PRUNE_GRACE) {
            ds[i] := Skip(Young);
          } else {
            ds[i] := Close(Duplicate);
          }
        }
      }
    }
    out := ds[..];
    forall i | 0 <= i < |open| ensures DecidedAs(r, open, open[i], out[i]) {
      DecisionIs(r, open, open[i]);
    }
  }

  /** Another session of the model that may be kept is kept over s. */
  ghost predicate Outdone(r: Rules, open: seq<Session>, s: Session) {
    exists t :: t in open && t.model == s.model && Usable(t, r.now) && t.provider !in r.excluded && !Outlasts(s, t)
  }

  /**
   What the plan does with a session, from the session and the list: past its use or excluded, closed; not served, left
   alone; else adopted, unless another is kept over it: then closed if it is old, left alone if it is young.
   */
  ghost predicate DecidedAs(r: Rules, open: seq<Session>, s: Session, d: Decision) {
    var served := r.configured.None? || s.model in r.configured.value;
    && (d == Close(Expired) <==> !Usable(s, r.now))
    && (d == Close(Excluded) <==> Usable(s, r.now) && s.provider in r.excluded)
    && (d == Skip(Unconfigured) <==> Usable(s, r.now) && s.provider !in r.excluded && !served)
    && (Usable(s, r.now) && s.provider !in r.excluded && served ==>
          if !Outdone(r, open, s) then d == Adopt
          else if s.openedAt > Unix(r.now - 2 * MINUTE) then d == Skip(Young)
          else d == Close(Duplicate))
  }

  lemma DecisionIs(r: Rules, open: seq<Session>, s: Session)
    ensures DecidedAs(r, open, s, r.Decide(open, s))
  {
    forall t ensures Beats(t, s) <==> !Outlasts(s, t) {
    }
  }

  /** A model with a session that may be kept has exactly one adopted, its best. */
  lemma OneAdoptedPerModel(r: Rules, open: seq<Session>, s: Session) returns (kept: Session)
    requires DistinctIds(open) && s in open && r.Eligible(s)
    ensures kept in open && kept.model == s.model && r.Decide(open, kept) == Adopt && !Beats(s, kept)
    ensures forall t :: t in open && t.model == s.model && r.Decide(open, t) == Adopt ==> t == kept
    ensures s != kept ==> Beats(kept, s)
  {
    var group := Filter(open, (t: Session) => r.Eligible(t) && t.model == s.model);
    BestIsBest(group);
    kept := Best(group);
    forall t | t in open && t.model == s.model && r.Decide(open, t) == Adopt ensures t == kept {
      BeatsIsStrictTotalOrder(t, kept, t);
    }
    BeatsIsStrictTotalOrder(s, kept, s);
  }

  /** A duplicate, and a young session left alone, has an adopted session of its model kept over it. */
  lemma ExtrasAreBeaten(r: Rules, open: seq<Session>, s: Session) returns (kept: Session)
    requires DistinctIds(open) && s in open && (r.Decide(open, s) == Close(Duplicate) || r.Decide(open, s) == Skip(Young))
    ensures kept in open && kept.model == s.model && r.Decide(open, kept) == Adopt && Beats(kept, s)
  {
    kept := OneAdoptedPerModel(r, open, s);
  }

  /** The decisions do not depend on the order of the list. */
  lemma PlanIgnoresOrder(r: Rules, open: seq<Session>, other: seq<Session>, s: Session)
    requires forall x :: x in open <==> x in other
    ensures r.Decide(open, s) == r.Decide(other, s)
  {
    if r.Beaten(open, s) {
      var t :| t in open && r.Eligible(t) && t.model == s.model && Beats(t, s);
      assert t in other;
    }
    if r.Beaten(other, s) {
      var t :| t in other && r.Eligible(t) && t.model == s.model && Beats(t, s);
      assert t in open;
    }
  }

  // Running the plan.

  datatype Counts = Counts(seen: nat, adopted: nat, skipped: nat, closed: nat, failed: nat, deferred: nat)
  {
    function Sum(): nat {
      adopted + skipped + closed + failed + deferred
    }
  }

  predicate Verifiable(open: seq<Session>) {
    forall i :: 0 <= i < |open| ==> open[i].id != "" && open[i].model != "" && open[i].endsAt > 0 && open[i].closedAt == 0
  }

  /** The sessions of the list with this decision, in list order. */
  ghost function Those(r: Rules, open: seq<Session>, n: nat, d: Decision): (ss: seq<Session>)
    requires n <= |open|
    ensures forall s :: s in ss <==> exists i :: 0 <= i < n && open[i] == s && r.Decide(open, s) == d
  {
    if n == 0 then []
    else
      var ss := Those(r, open, n - 1, d);
      if r.Decide(open, open[n - 1]) == d then ss + [open[n - 1]] else ss
  }

  /** What the plan would close, the most pressing first. A late plan leaves duplicates. */
  ghost function ToClose(r: Rules, open: seq<Session>, late: bool): seq<Session> {
    Those(r, open, |open|, Close(Expired)) + Those(r, open, |open|, Close(Excluded))
    + (if late then [] else Those(r, open, |open|, Close(Duplicate)))
  }

  function First20(ss: seq<Session>): (r: seq<Session>)
    ensures r <= ss && |r| == if |ss| < 20 then |ss| else 20
  {
    if |ss| > MAX_BOOT_CLOSES then ss[..MAX_BOOT_CLOSES] else ss
  }

  /** The pool's slot of a model after boot adoption: a slot that lasts longer than the adopted session stays. */
  ghost predicate SlotsAdopted(r: Rules, open: seq<Session>, n: nat, before: map<string, Leases.Entry>, after: map<string, Leases.Entry>)
    requires n <= |open|
  {
    && (forall k :: k in before ==> k in after && (after[k] != before[k] ==> before[k].expiresAt <= after[k].expiresAt))
    && (forall k :: k in after && (k !in before || after[k] != before[k]) ==>
          exists i :: 0 <= i < n && open[i].model == k && r.Decide(open, open[i]) == Adopt && after[k] == Leases.EntryOf(open[i]))
    && (forall i :: 0 <= i < n && r.Decide(open, open[i]) == Adopt ==>
          open[i].model in after && after[open[i].model].expiresAt >= Leases.EntryOf(open[i]).expiresAt)
  }

  lemma NothingAdopted(r: Rules, open: seq<Session>, entries: map<string, Leases.Entry>)
    ensures SlotsAdopted(r, open, 0, entries, entries)
  {
  }

  lemma SlotsNext(r: Rules, open: seq<Session>, n: nat, before: map<string, Leases.Entry>, after: map<string, Leases.Entry>)
    requires n < |open| && SlotsAdopted(r, open, n, before, after)
    ensures var e, d, k := Leases.EntryOf(open[n]), r.Decide(open, open[n]), open[n].model;
      SlotsAdopted(r, open, n + 1, before,
                   if d.Adopt? && !(k in after && after[k].expiresAt > e.expiresAt) then after[k := e] else after)
  {
    hide Rules.Decide, Leases.EntryOf;
  }

  /** Boot adoption takes the model's slot for s: the slot is free, or lasts no longer than s. */
  predicate Takes(before: map<string, Leases.Entry>, s: Session) {
    s.model in before ==> before[s.model].expiresAt <= FromUnix(s.endsAt) - 90 * SECOND
  }

  /** How many of the first n sessions the plan puts into a slot. */
  ghost function TakenUntil(r: Rules, open: seq<Session>, n: nat, before: map<string, Leases.Entry>): nat
    requires n <= |open|
  {
    if n == 0 then 0
    else TakenUntil(r, open, n - 1, before) + if r.Decide(open, open[n - 1]) == Adopt && Takes(before, open[n - 1]) then 1 else 0
  }

  lemma AdoptedOnce(r: Rules, open: seq<Session>, i: nat, j: nat)
    requires DistinctIds(open) && i < |open| && j < |open| && i != j
    requires r.Decide(open, open[i]) == Adopt && r.Decide(open, open[j]) == Adopt
    ensures open[i].model != open[j].model
  {
    BeatsIsStrictTotalOrder(open[i], open[j], open[i]);
  }

  /** The slot of a session still to be adopted is as it was. */
  lemma SlotUntouched(r: Rules, open: seq<Session>, n: nat, before: map<string, Leases.Entry>, after: map<string, Leases.Entry>)
    requires DistinctIds(open) && n < |open| && SlotsAdopted(r, open, n, before, after) && r.Decide(open, open[n]) == Adopt
    ensures var k := open[n].model; (k in before <==> k in after) && (k in before ==> after[k] == before[k])
  {
    hide Rules.Decide, DistinctIds;
    var k := open[n].model;
    if k in after && (k !in before || after[k] != before[k]) {
      var i :| 0 <= i < n && open[i].model == k && r.Decide(open, open[i]) == Adopt && after[k] == Leases.EntryOf(open[i]);
      AdoptedOnce(r, open, i, n);
    }
  }

  lemma NoneTaken(r: Rules, open: seq<Session>, before: map<string, Leases.Entry>)
    ensures TakenUntil(r, open, 0, before) == 0
  {
  }

  lemma TakenNext(r: Rules, open: seq<Session>, n: nat, before: map<string, Leases.Entry>)
    requires n < |open|
    ensures TakenUntil(r, open, n + 1, before)
      == TakenUntil(r, open, n, before) + if r.Decide(open, open[n]) == Adopt && Takes(before, open[n]) then 1 else 0
  {
  }

  lemma ClosesAre(r: Rules, open: seq<Session>, s: Session)
    requires r.Decide(open, s).Close?
    ensures r.Decide(open, s).reason == Expired || r.Decide(open, s).reason == Excluded || r.Decide(open, s).reason == Duplicate
  {
  }

  lemma NoneOfThose(r: Rules, open: seq<Session>, d: Decision)
    ensures Those(r, open, 0, d) == []
  {
  }

  lemma ThoseNext(r: Rules, open: seq<Session>, n: nat, d: Decision)
    requires n < |open|
    ensures Those(r, open, n + 1, d) == Those(r, open, n, d) + if r.Decide(open, open[n]) == d then [open[n]] else []
  {
  }

  /** t is s with marks changed and some of the sessions in ss forgotten: no lease is taken or ended, no slot filled. */
  ghost predicate OnlyGone(s: Leases.State, ss: seq<Session>, t: Leases.State) {
    && t.open == s.open && t.leases == s.leases
    && (forall id :: id in t.sess ==> id in s.sess && t.sess[id] == s.sess[id])
    && (forall id :: id in s.sess && id !in t.sess ==> exists x :: x in ss && x.id == id)
    && (forall k :: k in t.entries ==> k in s.entries && t.entries[k] == s.entries[k])
    && (forall k :: k in s.entries && k !in t.entries ==> exists x :: x in ss && x.id == s.entries[k].sessionID)
  }

  lemma NoneGone(s: Leases.State)
    ensures OnlyGone(s, [], s)
  {
  }

  lemma MarksAside(s: Leases.State, ss: seq<Session>, t: Leases.State, u: Leases.State)
    requires OnlyGone(s, ss, t) && u == t.(marks := u.marks)
    ensures OnlyGone(s, ss, u)
  {
  }

  /** A close of id from t, as the pool sees it once the router answered. */
  lemma CloseIs(t: Leases.State, m: Leases.State, id: string, mark: Leases.Mark, landed: bool, u: Leases.State)
    requires m == t.(marks := m.marks)
    requires landed ==> u == Leases.Step(Leases.Step(m, Leases.ClearMark(id)), Leases.Forget(id))
    requires !landed ==> u == Leases.Step(m, Leases.SetMark(id, mark)) || u == Leases.Step(m, Leases.ClearMark(id))
    ensures u == if landed then Leases.Step(t.(marks := u.marks), Leases.Forget(id)) else t.(marks := u.marks)
  {
    hide Leases.Live;
  }

  /** The next close of the list, landed or not. */
  lemma OneGone(s: Leases.State, ss: seq<Session>, i: nat, t: Leases.State, u: Leases.State)
    requires i < |ss| && OnlyGone(s, ss[..i], t)
    requires u == t.(marks := u.marks) || u == Leases.Step(t.(marks := u.marks), Leases.Forget(ss[i].id))
    ensures OnlyGone(s, ss[..i + 1], u)
  {
    hide Leases.Live;
    assert ss[..i + 1] == ss[..i] + [ss[i]];
    assert forall x :: x in ss[..i] ==> x in ss[..i + 1];
    assert ss[i] in ss[..i + 1];
  }

  /** What the k-th close meets: when it is tried, whether the wallet slot is free, the router's answer and when it came. */
  datatype Turns = Turns(times: nat -> Time, free: nat -> bool, answers: nat -> Pools.CloseAnswer, sawClosed: nat -> bool,
                         ends: nat -> Time)
  {
    predicate Lands(k: nat) {
      answers(k).Closed? || (answers(k).Refused? && sawClosed(k))
    }

    /** How many of the first n land. */
    function Landed(n: nat): nat {
      if n == 0 then 0 else Landed(n - 1) + if Lands(n - 1) then 1 else 0
    }

    /** The close before was cut, and its mark still stands. */
    predicate CutBefore(k: nat) {
      k > 0 && answers(k - 1).Unanswered? && times(k) < ends(k - 1) + Pools.ROUTER_CLOSE_MAX_LIFE
    }
  }

  /** A close that was cut has not cleared. */
  ghost predicate CutStands(marks: map<string, Leases.Mark>, now: Time) {
    exists id :: id in marks && marks[id].Until? && now < marks[id].exp
  }

  lemma CutMarkStands(t: Turns, k: nat, marks: map<string, Leases.Mark>, id: string)
    requires t.CutBefore(k) && id in marks && marks[id] == Leases.Until(t.ends(k - 1) + Pools.ROUTER_CLOSE_MAX_LIFE)
    ensures CutStands(marks, t.times(k))
  {
  }

  lemma CutsStay(marks: map<string, Leases.Mark>, after: map<string, Leases.Mark>, now: Time)
    requires CutStands(marks, now)
    requires forall id :: id in marks && marks[id].Until? ==> id in after && after[id] == marks[id]
    ensures CutStands(after, now)
  {
    var id :| id in marks && marks[id].Until? && now < marks[id].exp;
    assert id in after;
  }

  class Boot {
    var stateKnown: bool

    /** Puts the session into its model's slot unless the slot already holds one that lasts longer. */
    method AdoptOne(pool: Pools.Pool, s: Session) returns (took: bool)
      requires pool.chain(s.id) == s.model
      modifies pool`entries
      ensures took <==> !(s.model in old(pool.entries) && old(pool.entries)[s.model].expiresAt > Leases.EntryOf(s).expiresAt)
      ensures pool.entries == if took then old(pool.entries)[s.model := Leases.EntryOf(s)] else old(pool.entries)
      ensures Leases.Leads(old(pool.Abs()), pool.Abs())
    {
      hide Leases.Leads;
      var until := FromUnix(s.endsAt) - EXPIRY_BUFFER;
      if s.model in pool.entries && pool.entries[s.model].expiresAt > until {
        Leases.LeadsToSelf(pool.Abs());
        return false;
      }
      pool.BootAdopt(s.model, Leases.Entry(s.id, until, s.provider));
      return true;
    }

    /** Adopts, and sorts out what to close. */
    method Apply(pool: Pools.Pool, open: seq<Session>, r: Rules, ds: seq<Decision>, late: bool)
      returns (adopted: nat, skipped: nat, expired: seq<Session>, excl: seq<Session>, dups: seq<Session>)
      requires DistinctIds(open) && |ds| == |open| && pool.Known(open) && forall i :: 0 <= i < |open| ==> ds[i] == r.Decide(open, open[i])
      modifies pool`entries
      ensures Leases.Leads(old(pool.Abs()), pool.Abs())
      ensures SlotsAdopted(r, open, |open|, old(pool.entries), pool.entries)
      ensures expired == Those(r, open, |open|, Close(Expired)) && excl == Those(r, open, |open|, Close(Excluded))
      ensures dups == if late then [] else Those(r, open, |open|, Close(Duplicate))
      ensures adopted == TakenUntil(r, open, |open|, old(pool.entries))
      ensures |open| == adopted + skipped + |expired| + |excl| + |dups|
    {
      hide Leases.Leads, Rules.Decide, DistinctIds, SlotsAdopted, Sweep.MarkedAll, Those, Verifiable, TakenUntil;
      Leases.LeadsToSelf(pool.Abs());
      NothingAdopted(r, open, pool.entries);
      NoneOfThose(r, open, Close(Expired));
      NoneOfThose(r, open, Close(Excluded));
      NoneOfThose(r, open, Close(Duplicate));
      NoneTaken(r, open, pool.entries);
      adopted, skipped, expired, excl, dups := 0, 0, [], [], [];
      for i := 0 to |open|
        invariant Leases.Leads(old(pool.Abs()), pool.Abs())
        invariant pool.closingIDs == old(pool.closingIDs)
        invariant SlotsAdopted(r, open, i, old(pool.entries), pool.entries)
        invariant expired == Those(r, open, i, Close(Expired)) && excl == Those(r, open, i, Close(Excluded))
        invariant dups == if late then [] else Those(r, open, i, Close(Duplicate))
        invariant adopted == TakenUntil(r, open, i, old(pool.entries))
        invariant i == adopted + skipped + |expired| + |excl| + |dups|
      {
        var s := open[i];
        SlotsNext(r, open, i, old(pool.entries), pool.entries);
        ThoseNext(r, open, i, Close(Expired));
        ThoseNext(r, open, i, Close(Excluded));
        ThoseNext(r, open, i, Close(Duplicate));
        TakenNext(r, open, i, old(pool.entries));
        match ds[i]
        case Adopt =>
          SlotUntouched(r, open, i, old(pool.entries), pool.entries);
          ghost var before := pool.Abs();
          var took := AdoptOne(pool, s);
          Leases.LeadsOn(old(pool.Abs()), before, pool.Abs());
          if took {
            adopted := adopted + 1;
          } else {
            skipped := skipped + 1;
          }
        case Close(reason) =>
          ClosesAre(r, open, s);
          if reason == Expired {
            expired := expired + [s];
          } else if reason == Excluded {
            excl := excl + [s];
          } else if !late {
            dups := dups + [s];
          } else {
            skipped := skipped + 1;
          }
        case Skip(_) =>
          skipped := skipped + 1;
      }
    }

    /** Lists, adopts, and marks what it will close. Any error or unsafe row changes nothing. */
    method Plan(pool: Pools.Pool, list: Option<seq<Session>>, r: Rules, late: bool)
      returns (ok: bool, c: Counts, closes: seq<Session>)
      requires list.Some? ==> DistinctIds(list.value) && pool.Known(list.value)
      modifies this`stateKnown, pool`entries, pool`closingIDs
      ensures ok <==> list.Some? && Verifiable(list.value)
      ensures !ok ==> pool.Abs() == old(pool.Abs()) && stateKnown == old(stateKnown) && c == Counts(0, 0, 0, 0, 0, 0) && closes == []
      ensures ok ==> stateKnown && Leases.Leads(old(pool.Abs()), pool.Abs())
      ensures ok ==> closes == First20(ToClose(r, list.value, late)) && pool.closingIDs == Sweep.MarkedAll(old(pool.closingIDs), Sweep.ListedIds(closes))
      ensures ok ==> SlotsAdopted(r, list.value, |list.value|, old(pool.entries), pool.entries)
      ensures ok ==> c.seen == |list.value| == c.Sum() + |closes| && c.closed == c.failed == 0
      ensures ok ==> c.adopted == TakenUntil(r, list.value, |list.value|, old(pool.entries))
      ensures ok ==> c.deferred == |ToClose(r, list.value, late)| - |closes|
    {
      ok, c, closes := false, Counts(0, 0, 0, 0, 0, 0), [];
      if list.None? || !Verifiable(list.value) {
        return;
      }
      hide Leases.Leads, Rules.Decide, DistinctIds, SlotsAdopted, Sweep.MarkedAll, Those, Verifiable, Pools.Pool.Known, TakenUntil;
      var open := list.value;
      var ds := PlanReconcile(open, r);
      var adopted, skipped, expired, excl, dups := Apply(pool, open, r, ds, late);
      closes := expired + excl + dups;
      var deferred := 0;
      if |closes| > MAX_BOOT_CLOSES {
        deferred := |closes| - MAX_BOOT_CLOSES;
        closes := closes[..MAX_BOOT_CLOSES];
      }
      ghost var before := pool.Abs();
      pool.MarkClosing(closes);
      Leases.LeadsOn(old(pool.Abs()), before, pool.Abs());
      stateKnown := true;
      ok, c := true, Counts(|open|, adopted, skipped, 0, 0, deferred);
    }

    /** Clears the marks of sessions that will not be closed now, so that a sweep decides afresh. */
    method Unmark(pool: Pools.Pool, ss: seq<Session>)
      modifies pool`closingIDs
      ensures forall i :: 0 <= i < |ss| && ss[i].id in pool.closingIDs ==> pool.closingIDs[ss[i].id].Until?
      ensures forall id :: id in pool.closingIDs ==> id in old(pool.closingIDs) && pool.closingIDs[id] == old(pool.closingIDs)[id]
      ensures forall id :: id in old(pool.closingIDs) && (id !in Sweep.ListedIds(ss) || old(pool.closingIDs)[id].Until?) ==>
        id in pool.closingIDs
      ensures Leases.Leads(old(pool.Abs()), pool.Abs())
    {
      hide Leases.Leads;
      Leases.LeadsToSelf(pool.Abs());
      for i := 0 to |ss|
        invariant Leases.Leads(old(pool.Abs()), pool.Abs())
        invariant forall j :: 0 <= j < i && ss[j].id in pool.closingIDs ==> pool.closingIDs[ss[j].id].Until?
        invariant forall id :: id in pool.closingIDs ==> id in old(pool.closingIDs) && pool.closingIDs[id] == old(pool.closingIDs)[id]
        invariant forall id :: id in old(pool.closingIDs) && (id !in Sweep.ListedIds(ss) || old(pool.closingIDs)[id].Until?) ==>
          id in pool.closingIDs
      {
        var id := ss[i].id;
        assert ss[i] in ss && id in Sweep.ListedIds(ss);
        if id in pool.closingIDs && pool.closingIDs[id].InProgress? {
          Leases.ClearMarkLeads(old(pool.Abs()), pool.Abs(), id);
          pool.closingIDs := pool.closingIDs - {id};
        }
      }
    }

    method CutMark(pool: Pools.Pool, now: Time) returns (cut: bool)
      modifies pool`closingIDs
      ensures cut <==> CutStands(old(pool.closingIDs), now)
      ensures cut ==> CutStands(pool.closingIDs, now)
      ensures !cut ==> forall id :: id in pool.closingIDs ==> pool.closingIDs[id].InProgress?
      ensures Leases.Leads(old(pool.Abs()), pool.Abs())
    {
      hide Leases.Leads;
      cut := pool.CutCloseMarkLocked(now);
      if cut {
        ghost var id :| id in old(pool.closingIDs) && old(pool.closingIDs)[id].Until? && now < old(pool.closingIDs)[id].exp;
        assert id in pool.closingIDs && pool.closingIDs[id] == old(pool.closingIDs)[id];
      }
    }

    /** One close with the slot held: its own mark aside, the session is as it was, or it landed and is forgotten. */
    method CloseOne(pool: Pools.Pool, id: string, turns: Turns, k: nat) returns (landed: bool)
      modifies pool
      ensures landed == turns.Lands(k)
      ensures var t := old(pool.Abs()).(marks := pool.closingIDs);
        pool.Abs() == if landed then Leases.Step(t, Leases.Forget(id)) else t
      ensures turns.answers(k).Unanswered? ==>
        id in pool.closingIDs && pool.closingIDs[id] == Leases.Until(turns.ends(k) + Pools.ROUTER_CLOSE_MAX_LIFE)
      ensures Leases.Comes(old(pool.Abs()), pool.Abs())
    {
      hide Leases.Comes, Leases.Leads, Leases.Step;
      pool.BeginClose(id);
      Leases.LeadsComes(old(pool.Abs()), pool.Abs());
      ghost var marked := pool.Abs();
      var outcome := pool.FinishClose(id, turns.answers(k), turns.sawClosed(k), turns.ends(k));
      Leases.ComesOn(old(pool.Abs()), marked, pool.Abs());
      landed := outcome.OK? || outcome.Already?;
      CloseIs(old(pool.Abs()), marked, id, Leases.Until(turns.ends(k) + Pools.ROUTER_CLOSE_MAX_LIFE), landed, pool.Abs());
    }

    /**
     Closes in order, one per slot hold. When the slot is busy or a cut close has not cleared, the rest are left to the
     sweep and their marks cleared. Every close is counted once.
     */
    method RunCloses(pool: Pools.Pool, before: Counts, closes: seq<Session>, turns: Turns) returns (c: Counts, ghost done: nat)
      modifies pool
      ensures done <= |closes|
      ensures c.closed == before.closed + turns.Landed(done) && c.closed + c.failed == before.closed + before.failed + done
      ensures forall k: nat :: k < done ==> turns.free(k) && !turns.CutBefore(k)
      ensures done > 0 ==> !CutStands(old(pool.closingIDs), turns.times(0))
      ensures done < |closes| ==> !turns.free(done) || CutStands(pool.closingIDs, turns.times(done))
      ensures c.deferred == before.deferred + |closes| - done
      ensures c.seen == before.seen && c.adopted == before.adopted && c.skipped == before.skipped
      ensures forall i :: done <= i < |closes| && closes[i].id in pool.closingIDs ==> pool.closingIDs[closes[i].id].Until?
      ensures Leases.Comes(old(pool.Abs()), pool.Abs()) && OnlyGone(old(pool.Abs()), closes[..done], pool.Abs())
    {
      hide Leases.Comes, Leases.Leads, Leases.Step, OnlyGone, CutStands;
      Leases.ComesToSelf(pool.Abs());
      NoneGone(pool.Abs());
      c := before;
      done := 0;
      for i := 0 to |closes|
        invariant Leases.Comes(old(pool.Abs()), pool.Abs()) && OnlyGone(old(pool.Abs()), closes[..i], pool.Abs())
        invariant done == i && c.closed == before.closed + turns.Landed(i) && c.closed + c.failed == before.closed + before.failed + i
        invariant forall k: nat :: k < i ==> turns.free(k) && !turns.CutBefore(k)
        invariant i > 0 ==> !CutStands(old(pool.closingIDs), turns.times(0))
        invariant i == 0 ==> pool.closingIDs == old(pool.closingIDs)
        invariant i > 0 && turns.answers(i - 1).Unanswered? ==>
          closes[i - 1].id in pool.closingIDs
          && pool.closingIDs[closes[i - 1].id] == Leases.Until(turns.ends(i - 1) + Pools.ROUTER_CLOSE_MAX_LIFE)
        invariant c.deferred == before.deferred
        invariant c.seen == before.seen && c.adopted == before.adopted && c.skipped == before.skipped
      {
        ghost var start := pool.Abs();
        var hold := CutMark(pool, turns.times(i));
        if turns.CutBefore(i) {
          CutMarkStands(turns, i, start.marks, closes[i - 1].id);
        }
        Leases.LeadsComes(start, pool.Abs());
        Leases.ComesOn(old(pool.Abs()), start, pool.Abs());
        ghost var seen := pool.Abs();
        if hold || !turns.free(i) {
          c := c.(deferred := c.deferred + |closes| - i);
          ghost var marks := pool.closingIDs;
          Unmark(pool, closes[i..]);
          if hold {
            CutsStay(marks, pool.closingIDs, turns.times(i));
          }
          Leases.LeadsComes(seen, pool.Abs());
          Leases.ComesOn(old(pool.Abs()), seen, pool.Abs());
          MarksAside(old(pool.Abs()), closes[..i], start, pool.Abs());
          forall j | i <= j < |closes| && closes[j].id in pool.closingIDs ensures pool.closingIDs[closes[j].id].Until? {
            assert closes[i..][j - i] == closes[j];
          }
          return;
        }
        MarksAside(old(pool.Abs()), closes[..i], start, seen);
        var landed := CloseOne(pool, closes[i].id, turns, i);
        Leases.ComesOn(old(pool.Abs()), seen, pool.Abs());
        OneGone(old(pool.Abs()), closes, i, seen, pool.Abs());
        if landed {
          c := c.(closed := c.closed + 1);
        } else {
          c := c.(failed := c.failed + 1);
        }
        done := done + 1;
      }
    }

    /** One whole pass: every session listed is accounted for, once. */
    method ReconcileOnce(pool: Pools.Pool, list: Option<seq<Session>>, r: Rules, turns: Turns) returns (ok: bool, c: Counts, ghost done: nat)
      requires list.Some? ==> DistinctIds(list.value) && pool.Known(list.value)
      modifies this`stateKnown, pool
      ensures ok <==> list.Some? && Verifiable(list.value)
      ensures ok ==> c.seen == |list.value| == c.Sum() && c.closed + c.failed <= MAX_BOOT_CLOSES
      ensures !ok ==> pool.Abs() == old(pool.Abs()) && c == Counts(0, 0, 0, 0, 0, 0)
      ensures ok ==> done <= |First20(ToClose(r, list.value, false))| && c.closed == turns.Landed(done) && c.failed == done - c.closed
      ensures ok && done < |First20(ToClose(r, list.value, false))| ==>
        !turns.free(done) || CutStands(pool.closingIDs, turns.times(done))
      ensures ok ==> Leases.Comes(old(pool.Abs()), pool.Abs())
    {
      hide Verifiable, ToClose, SlotsAdopted, Leases.Leads, Leases.Comes, OnlyGone, CutStands, First20;
      done := 0;
      var closes;
      ok, c, closes := Plan(pool, list, r, false);
      if ok {
        ghost var planned := pool.Abs();
        Leases.LeadsComes(old(pool.Abs()), planned);
        c, done := RunCloses(pool, c, closes, turns);
        Leases.ComesOn(old(pool.Abs()), planned, pool.Abs());
      }
    }
  }

  /** Every session the plan decides to close is among those it would close, and no other; a late plan leaves duplicates. */
  lemma ClosesAreDecided(r: Rules, open: seq<Session>, late: bool, s: Session)
    ensures s in ToClose(r, open, late) <==>
      s in open && r.Decide(open, s).Close? && !(late && r.Decide(open, s) == Close(Duplicate))
  {
    hide Rules.Decide;
    var e, x, d := Those(r, open, |open|, Close(Expired)), Those(r, open, |open|, Close(Excluded)), Those(r, open, |open|, Close(Duplicate));
    assert s in ToClose(r, open, late) <==> s in e || s in x || (!late && s in d);
    if r.Decide(open, s).Close? {
      ClosesAre(r, open, s);
    }
  }

  /** The cap defers duplicates before excluded sessions, and those before expired ones. */
  lemma CapDefersDuplicatesFirst(r: Rules, open: seq<Session>, late: bool, s: Session)
    requires s in First20(ToClose(r, open, late))
    ensures r.Decide(open, s) == Close(Duplicate) ==>
      !late && Those(r, open, |open|, Close(Expired)) + Those(r, open, |open|, Close(Excluded)) <= First20(ToClose(r, open, late))
    ensures r.Decide(open, s) == Close(Excluded) ==> Those(r, open, |open|, Close(Expired)) <= First20(ToClose(r, open, late))
  {
    var e, x := Those(r, open, |open|, Close(Expired)), Those(r, open, |open|, Close(Excluded));
    var all, cut := ToClose(r, open, late), First20(ToClose(r, open, late));
    var i :| 0 <= i < |cut| && cut[i] == s;
    assert all[i] == s;
    if i < |e| {
      assert s == e[i] && s in e;
    } else if i < |e| + |x| {
      assert s == x[i - |e|] && s in x;
    }
    assert forall k :: 0 <= k < |e| ==> all[k] == e[k];
    assert forall k :: 0 <= k < |e + x| ==> all[k] == (e + x)[k];
  }
}
