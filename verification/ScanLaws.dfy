/** What a scan does, for every list: what may be closed, what is adopted, and what depends on the list's order. */
module ScanLaws {
  import opened Basics
  import opened Sessions
  import opened Leases
  import opened Sweep

  ghost function Classes(v: View, pending: seq<Attempt>, open: seq<Session>): (cs: seq<Class>)
    ensures |cs| == |open|
  {
    Walk(v, pending, open).0
  }

  /**
   A session that is due, so any session the scan marks closing: it is listed, it is not adopted, it had no closing
   mark and nothing in flight, and it is past its use, an extra of our own opens, or was opened a while ago.
   */
  lemma DueIsSafeToClose(v: View, pending: seq<Attempt>, open: seq<Session>, c: Cand)
    requires DistinctIds(open) && IsDue(v, open, Classes(v, pending, open), c)
    ensures c.s in open && c.s.id !in v.marks
    ensures !IsAdopted(v, open, Classes(v, pending, open), c.s.id)
    ensures c.s.id in v.sess ==> v.sess[c.s.id].inflight == 0 && !v.sess[c.s.id].closing
    ensures !Usable(c.s, v.now) || c.s.id in v.knownDup + OwnExtras(v, open, Classes(v, pending, open))
      || FromUnix(c.s.openedAt) <= v.now - PRUNE_GRACE
    ensures c.reason == Expired <==> !Usable(c.s, v.now)
  {
    var cs := Classes(v, pending, open);
    var i :| 0 <= i < |open| && open[i] == c.s && VerdictOf(v, open, cs, i) == Due(c.reason);
    var before := WalkAt(v, pending, open, i);
    DueClass(v, before, open[i], cs[i]);
  }

  /** What each class that can be due says about its session. */
  lemma DueClass(v: View, pending: seq<Attempt>, s: Session, c: Class)
    requires c == ClassOf(v, pending, s) && !c.Marked? && !c.InUse? && !c.Young?
    ensures s.id !in v.marks
    ensures s.id in v.sess ==> v.sess[s.id].inflight == 0 && !v.sess[s.id].closing
    ensures (c.SlotExpired? || c.OwnExpired? || c.PastUse?) <==> !Usable(s, v.now)
    ensures c.KnownExtra? ==> s.id in v.knownDup
    ensures c.WasRetired? || c.FromExcluded? || c.Spare? ==> FromUnix(s.openedAt) <= v.now - PRUNE_GRACE
  {
  }

  /** s is in a slot, or tracked by a lease state that is not retired and drained. */
  ghost predicate HeldNow(v: View, s: Session) {
    || (exists k :: k in v.entries && v.entries[k].sessionID == s.id)
    || (s.id in v.sess && (!v.sess[s.id].retired || v.sess[s.id].closing || v.sess[s.id].inflight > 0))
  }

  /** Something is in flight on s, or it is on its way out. */
  predicate BusyNow(v: View, s: Session) {
    s.id in v.sess && (v.sess[s.id].inflight > 0 || v.sess[s.id].retired || v.sess[s.id].closing)
  }

  /** s can be the result of an open still pending when the list comes to it. */
  ghost predicate MatchedAt(v: View, pending: seq<Attempt>, open: seq<Session>, i: nat)
    requires i < |open|
  {
    exists a :: a in Walk(v, pending, open[..i]).1 && a.Matches(open[i])
  }

  predicate WasRetiredNow(v: View, s: Session) {
    s.id in v.retired || (s.id in v.sess && v.sess[s.id].retired)
  }

  /**
   Every listed session's verdict, read from the session, the marks, the slots, the lease states and the attempts left
   when the list comes to it. What must be left alone is left, and what must be due is due, with its reason.
   */
  lemma VerdictIs(v: View, pending: seq<Attempt>, open: seq<Session>, i: nat)
    requires i < |open|
    ensures var s, d := open[i], VerdictOf(v, open, Classes(v, pending, open), i);
      && (d == LeftClosing <==> s.id in v.marks)
      && (d == LeftHeld <==> s.id !in v.marks && HeldNow(v, s) && (Usable(s, v.now) || BusyNow(v, s)))
      && (d == Due(Expired) <==> s.id !in v.marks && !Usable(s, v.now) && (HeldNow(v, s) ==> !BusyNow(v, s)))
    ensures var s, d := open[i], VerdictOf(v, open, Classes(v, pending, open), i);
      s.id !in v.marks && !HeldNow(v, s) && Usable(s, v.now) ==>
        if MatchedAt(v, pending, open, i) then d == Adopt || d == Due(Duplicate)
        else if s.id in v.knownDup then d == Due(Duplicate)
        else if FromUnix(s.openedAt) > v.now - 2 * MINUTE then d == LeftYoung
        else if WasRetiredNow(v, s) then d == Due(Retired)
        else if s.provider in v.excluded then d == Due(Excluded)
        else d == Adopt || d == Due(Duplicate)
  {
    hide Attempt.Matches, View.Held, HeldNow, Usable, Keep, Walk;
    var before := WalkAt(v, pending, open, i);
    HeldIs(v, open[i]);
    assert MatchedAt(v, pending, open, i) <==> MatchOf(before, open[i]).Some?;
  }

  lemma HeldIs(v: View, s: Session)
    ensures v.Held(s.id) <==> HeldNow(v, s)
  {
  }

  /** A result of our own opens that is not adopted is a known extra from then on: no later scan takes it for a spare. */
  lemma ExtraIsRemembered(v: View, pending: seq<Attempt>, open: seq<Session>, i: nat)
    requires i < |open| && open[i].id !in v.marks && !HeldNow(v, open[i]) && Usable(open[i], v.now) && MatchedAt(v, pending, open, i)
    requires VerdictOf(v, open, Classes(v, pending, open), i) != Adopt
    ensures open[i].id in (v.knownDup + OwnExtras(v, open, Classes(v, pending, open))) * ListedIds(open)
  {
    VerdictIs(v, pending, open, i);
    var before := WalkAt(v, pending, open, i);
    HeldIs(v, open[i]);
    assert MatchOf(before, open[i]).Some?;
  }

  /** A session past its use with nothing holding it is closed, whatever else the pool knows of it. */
  lemma ExpiredIsDue(v: View, pending: seq<Attempt>, open: seq<Session>, i: nat)
    requires i < |open| && open[i].id !in v.marks && !HeldNow(v, open[i]) && !Usable(open[i], v.now)
    ensures IsDue(v, open, Classes(v, pending, open), Cand(open[i], Expired)) && open[i].id in DueIds(v, open, Classes(v, pending, open))
  {
    VerdictIs(v, pending, open, i);
  }

  /** A scan leaves a slot for a usable one exactly when a request would be served from it. */
  lemma UsableSlotServes(v: View, key: string, keyID: string, s: State)
    requires s.entries == v.entries && s.sess == v.sess && s.marks == v.marks
    ensures v.UsableSlot(key) <==> Grants(s, TryPooled(key, keyID, v.now))
    ensures v.UsableSlot(key) <==> Step(s, TryPooled(key, keyID, v.now)).leases > s.leases
  {
    HandOutGrants(s, TryPooled(key, keyID, v.now));
  }

  /** An attempt that was pruned can have opened no session opened from then on; one kept can have opened any since its start. */
  lemma PrunedInTime(a: Attempt, s: Session, now: Time)
    ensures !a.Live(now) && FromUnix(s.openedAt) > now ==> !a.Matches(s)
    ensures a.Live(now) && s.model == a.model && s.bid == a.bid && a.start <= FromUnix(s.openedAt) <= now ==> a.Matches(s)
    ensures a.Matches(s) <==>
      (s.model == a.model && s.bid == a.bid
       && -30 * SECOND <= FromUnix(s.openedAt) - a.start <= (if a.stuck then HOUR else 13 * MINUTE) + 30 * SECOND)
  {
  }

  /** The close picked has been due no later than any other; a session keeps the time it became due while it is due. */
  lemma FirstDueIsOldest(v: View, open: seq<Session>, cs: seq<Class>, before: map<string, Time>, c: Cand, d: Cand)
    requires |cs| == |open| && IsFirstDue(v, open, cs, Aged(before, DueIds(v, open, cs), v.now), c) && IsDue(v, open, cs, d)
    ensures var at := Aged(before, DueIds(v, open, cs), v.now);
      && at.Keys == DueIds(v, open, cs) && c.s.id in at && d.s.id in at
      && at[d.s.id] == (if d.s.id in before then before[d.s.id] else v.now)
      && at[c.s.id] <= at[d.s.id] && (at[c.s.id] == at[d.s.id] ==> !Less(d.s.id, c.s.id))
  {
    hide VerdictOf;
    DueIsListed(v, open, cs, d);
    DueIsListed(v, open, cs, c);
  }

  lemma DueIsListed(v: View, open: seq<Session>, cs: seq<Class>, c: Cand)
    requires |cs| == |open| && IsDue(v, open, cs, c)
    ensures c.s.id in DueIds(v, open, cs)
  {
  }

  lemma AdoptedClass(v: View, open: seq<Session>, cs: seq<Class>, i: nat)
    requires |cs| == |open| && i < |open| && DistinctIds(open) && VerdictOf(v, open, cs, i) == Adopt
    ensures cs[i] == if Group(open, cs, OwnOpen, open[i].model) != [] then OwnOpen else Spare
    ensures Keep(v, open, cs, open[i].model) == Some(open[i]) && open[i] in Group(open, cs, cs[i], open[i].model)
    ensures open[i] == Best(Group(open, cs, cs[i], open[i].model))
  {
    var k := open[i].model;
    KeepIsGrouped(v, open, cs, k);
    assert forall j :: 0 <= j < |open| && open[j] == open[i] ==> j == i;
    if Group(open, cs, OwnOpen, k) != [] {
      assert open[i] in Group(open, cs, OwnOpen, k);
    } else {
      assert open[i] in Group(open, cs, Spare, k);
    }
  }

  /**
   The adopted session of a model is the only one. It is the best of its class: no result of one of our opens is
   passed over for a spare, and within the class none is kept over it. Its model had no slot in use.
   */
  lemma AdoptsTheBest(v: View, pending: seq<Attempt>, open: seq<Session>, i: nat, j: nat)
    requires DistinctIds(open) && i < |open| && j < |open| && open[i].model == open[j].model
    requires VerdictOf(v, open, Classes(v, pending, open), i) == Adopt
    ensures !v.UsableSlot(open[i].model) && Usable(open[i], v.now) && !v.Held(open[i].id)
    ensures VerdictOf(v, open, Classes(v, pending, open), j) == Adopt ==> i == j
    ensures Classes(v, pending, open)[j].OwnOpen? ==> Classes(v, pending, open)[i].OwnOpen?
    ensures Classes(v, pending, open)[j] == Classes(v, pending, open)[i] ==> !Beats(open[j], open[i])
  {
    var cs := Classes(v, pending, open);
    var k := open[i].model;
    AdoptedClass(v, open, cs, i);
    KeptIsUnheld(v, pending, open, open[i]);
    if VerdictOf(v, open, cs, j) == Adopt {
      AdoptedClass(v, open, cs, j);
    }
    if cs[j] == OwnOpen {
      assert open[j] in Group(open, cs, OwnOpen, k);
    }
    if cs[j] == cs[i] {
      BestIsBest(Group(open, cs, cs[i], k));
      assert open[j] in Group(open, cs, cs[i], k);
    }
  }

  /** A model with an adoptable session keeps its slot in use or adopts one. */
  lemma EveryModelIsServed(v: View, pending: seq<Attempt>, open: seq<Session>, i: nat)
    requires DistinctIds(open) && i < |open|
    requires Classes(v, pending, open)[i].OwnOpen? || Classes(v, pending, open)[i].Spare?
    ensures v.UsableSlot(open[i].model) <==> Keep(v, open, Classes(v, pending, open), open[i].model).None?
    ensures v.UsableSlot(open[i].model)
      || exists j :: 0 <= j < |open| && open[j].model == open[i].model && VerdictOf(v, open, Classes(v, pending, open), j) == Adopt
  {
    hide Walk;
    var cs := Classes(v, pending, open);
    var k := open[i].model;
    assert open[i] in Group(open, cs, cs[i], k);
    if !v.UsableSlot(k) {
      KeptIsAdopted(v, open, cs, k);
    }
  }

  lemma KeptIsAdopted(v: View, open: seq<Session>, cs: seq<Class>, key: string)
    requires |cs| == |open| && Keep(v, open, cs, key).Some?
    ensures exists j :: 0 <= j < |open| && open[j].model == key && VerdictOf(v, open, cs, j) == Adopt
  {
    KeepIsGrouped(v, open, cs, key);
    var s := Keep(v, open, cs, key).value;
    var j :| 0 <= j < |open| && open[j] == s && (cs[j] == OwnOpen || cs[j] == Spare);
    assert VerdictOf(v, open, cs, j) == Adopt;
  }

  lemma ServedSlotIsFresh(v: View, pending: seq<Attempt>, open: seq<Session>, key: string)
    requires DistinctIds(open) && (v.UsableSlot(key) || Keep(v, open, Classes(v, pending, open), key).Some?)
    ensures var e := SlotAfter(v, open, Classes(v, pending, open), key); e.Some? && v.now < e.value.expiresAt
  {
    var cs := Classes(v, pending, open);
    if Keep(v, open, cs, key).Some? {
      KeepIsGrouped(v, open, cs, key);
      var s := Keep(v, open, cs, key).value;
      KeptIsUnheld(v, pending, open, s);
      UsableIsFresh(s, v.now);
    }
  }

  /** A session may be used exactly while a slot with it would be fresh: until a buffer before its end on chain. */
  lemma UsableIsFresh(s: Session, now: Time)
    ensures Usable(s, now) <==> now < EntryOf(s).expiresAt
    ensures EntryOf(s).expiresAt == FromUnix(s.endsAt) - 90 * SECOND && EntryOf(s).sessionID == s.id && EntryOf(s).provider == s.provider
  {
  }

  lemma AdoptableIsUnheld(v: View, pending: seq<Attempt>, open: seq<Session>, i: nat)
    requires i < |open| && (Classes(v, pending, open)[i].OwnOpen? || Classes(v, pending, open)[i].Spare?)
    ensures !v.Held(open[i].id)
  {
    var before := WalkAt(v, pending, open, i);
  }

  /**
   A duplicate is closed for another session of its model: the one in the slot. That slot stays unless its session
   is off the list, long enough since it opened, with nothing in flight.
   */
  lemma DuplicateLeavesASlot(v: View, pending: seq<Attempt>, open: seq<Session>, i: nat, scanStart: Time, entries: map<string, Entry>)
    requires DistinctIds(open) && i < |open|
    requires var cs := Classes(v, pending, open);
      (cs[i].OwnOpen? || cs[i].Spare?) && VerdictOf(v, open, cs, i) == Due(Duplicate) && SlotsAfter(v, open, cs, scanStart, entries)
    ensures var e := SlotAfter(v, open, Classes(v, pending, open), open[i].model);
      && e.Some? && v.now < e.value.expiresAt && e.value.sessionID != open[i].id
      && (open[i].model in entries <==> !Drops(v, ListedIds(open), scanStart, e.value))
      && (e.value.sessionID in ListedIds(open) ==> open[i].model in entries && entries[open[i].model] == e.value)
  {
    hide Walk, Group, ClassOf, Best;
    var cs := Classes(v, pending, open);
    var k := open[i].model;
    EveryModelIsServed(v, pending, open, i);
    ServedSlotIsFresh(v, pending, open, k);
    AdoptableIsUnheld(v, pending, open, i);
    var e := SlotAfter(v, open, cs, k).value;
    if Keep(v, open, cs, k).Some? {
      KeepIsGrouped(v, open, cs, k);
      var s := Keep(v, open, cs, k).value;
      var j :| 0 <= j < |open| && open[j] == s;
      assert i != j;
    } else {
      assert v.InSlot(e.sessionID);
    }
  }

  /** And it may: x, old and usable, is closed for a fresh slot of its model whose session is off the list, and the slot is dropped. */
  lemma DuplicateMayLeaveNone(v: View, x: Session, e: Entry, scanStart: Time)
    requires Usable(x, v.now) && !TooYoung(x, v.now)
    requires v.entries == map[x.model := e] && v.now < e.expiresAt && Drops(v, {x.id}, scanStart, e)
    requires v.sess == map[] && v.marks == map[] && v.knownDup == v.retired == v.excluded == {}
    ensures var cs := Classes(v, [], [x]);
      && VerdictOf(v, [x], cs, 0) == Due(Duplicate)
      && SlotsAfter(v, [x], cs, scanStart, map[])
      && forall entries: map<string, Entry> :: SlotsAfter(v, [x], cs, scanStart, entries) ==> x.model !in entries
  {
    var open := [x];
    var cs := Classes(v, [], open);
    var before := WalkAt(v, [], open, 0);
    assert open[..0] == [];
    assert cs[0] == Spare;
    assert ListedIds(open) == {x.id};
    assert SlotAfter(v, open, cs, x.model) == Some(e);
  }

  /**
   A close whose call was cut holds its session: until the mark lapses or the session leaves the list every scan
   leaves the session alone, and no scan picks another close.
   */
  lemma CutCloseHolds(v: View, marks: map<string, Mark>, pending: seq<Attempt>, open: seq<Session>, i: nat)
    requires i < |open| && v.marks == MarksLeft(marks, ListedIds(open), v.now)
    ensures open[i].id in marks && (marks[open[i].id].Until? ==> v.now < marks[open[i].id].exp)
      <==> VerdictOf(v, open, Classes(v, pending, open), i) == LeftClosing
    ensures open[i].id in marks && marks[open[i].id].Until? && v.now < marks[open[i].id].exp ==> CutLeft(v.marks)
  {
    var before := WalkAt(v, pending, open, i);
    assert open[i].id in ListedIds(open);
    if open[i].id in marks && marks[open[i].id].Until? && v.now < marks[open[i].id].exp {
      assert v.marks[open[i].id].Until?;
    }
  }

  /** A slot in use is never replaced; without one nothing changes but by adoption. */
  lemma UsableSlotStays(v: View, open: seq<Session>, cs: seq<Class>, key: string)
    requires |cs| == |open|
    ensures v.UsableSlot(key) ==> SlotAfter(v, open, cs, key) == Some(v.entries[key])
    ensures SlotAfter(v, open, cs, key) != (if key in v.entries then Some(v.entries[key]) else None) ==>
      exists s :: s in open && s.model == key && SlotAfter(v, open, cs, key) == Some(EntryOf(s))
  {
    if Keep(v, open, cs, key).Some? {
      KeepIsGrouped(v, open, cs, key);
    }
  }

  /** What a scan would not adopt but for a pending open: failed over, a known extra, excluded, too young, or tracked. */
  predicate Barred(v: View, s: Session) {
    s.id in v.retired || s.id in v.knownDup || s.provider in v.excluded || TooYoung(s, v.now) || s.id in v.sess
  }

  /**
   A session that failed over, was released, is a known extra or is of an excluded provider is adopted only as the
   result of one of our own pending opens.
   */
  lemma BarredIsAdoptedOnlyIfOurs(v: View, pending: seq<Attempt>, open: seq<Session>, i: nat)
    requires DistinctIds(open) && i < |open| && VerdictOf(v, open, Classes(v, pending, open), i) == Adopt
    requires Barred(v, open[i])
    ensures Classes(v, pending, open)[i].OwnOpen? && exists a :: a in pending && a.Matches(open[i])
  {
    hide Walk, Group, Keep;
    var cs := Classes(v, pending, open);
    var before := WalkAt(v, pending, open, i);
    AdoptedClass(v, open, cs, i);
    LeftAreOld(v, pending, open[..i]);
    assert cs[i].OwnOpen?;
    assert MatchOf(before, open[i]).value in pending;
  }

  /** It is adopted exactly when it is such a result, its model has no slot in use, and no other result of the model beats it. */
  lemma BarredIsAdoptedExactly(v: View, pending: seq<Attempt>, open: seq<Session>, i: nat)
    requires DistinctIds(open) && i < |open| && Barred(v, open[i])
    ensures var cs := Classes(v, pending, open);
      VerdictOf(v, open, cs, i) == Adopt <==>
        && cs[i].OwnOpen? && !v.UsableSlot(open[i].model)
        && forall j :: 0 <= j < |open| && cs[j].OwnOpen? && open[j].model == open[i].model ==> !Beats(open[j], open[i])
  {
    hide Walk, Group, Best, Beats, Barred;
    var cs := Classes(v, pending, open);
    if VerdictOf(v, open, cs, i) == Adopt {
      BarredIsAdoptedOnlyIfOurs(v, pending, open, i);
      forall j | 0 <= j < |open| && cs[j].OwnOpen? && open[j].model == open[i].model ensures !Beats(open[j], open[i]) {
        AdoptsTheBest(v, pending, open, i, j);
      }
      AdoptsTheBest(v, pending, open, i, i);
    } else if cs[i].OwnOpen? && !v.UsableSlot(open[i].model) {
      NotTheBest(v, open, cs, i);
    }
  }

  /** An own result that is not adopted though its model has no slot in use is beaten by another. */
  lemma NotTheBest(v: View, open: seq<Session>, cs: seq<Class>, i: nat)
    requires |cs| == |open| && i < |open| && DistinctIds(open)
    requires cs[i].OwnOpen? && !v.UsableSlot(open[i].model) && VerdictOf(v, open, cs, i) != Adopt
    ensures exists j :: 0 <= j < |open| && cs[j].OwnOpen? && open[j].model == open[i].model && Beats(open[j], open[i])
  {
    hide Best, Beats;
    var own := Group(open, cs, OwnOpen, open[i].model);
    assert open[i] in own;
    var b := Best(own);
    BestIsBest(own);
    var j :| 0 <= j < |open| && open[j] == b && cs[j] == OwnOpen && b.model == open[i].model;
    BeatsIsStrictTotalOrder(b, open[i], b);
  }

  lemma {:induction false} LeftAreOld(v: View, pending: seq<Attempt>, open: seq<Session>)
    ensures forall a :: a in Walk(v, pending, open).1 ==> a in pending
  {
    if open != [] {
      LeftAreOld(v, pending, open[..|open| - 1]);
    }
  }

  /**
   One pending open that opened x, a session that failed over and drained: its lease state is still there, retired.
   The scan puts x back into its model's slot and leaves that state, so the slot holds a session no request is served
   from, and the next scan does not take the slot for a usable one.
   */
  lemma RetiredMayBeAdopted(x: Session, a: Attempt, v: View) returns (open: seq<Session>, cs: seq<Class>)
    requires Usable(x, v.now) && a.Matches(x) && v.retired == {x.id} && v.entries == map[] && v.marks == map[]
    requires v.sess.Keys == {x.id} && v.Unheld(v.sess[x.id])
    ensures open == [x] && cs == Classes(v, [a], open) && VerdictOf(v, open, cs, 0) == Adopt
    ensures SlotAfter(v, open, cs, x.model) == Some(EntryOf(x))
    ensures forall sess: map<string, Sess> :: StatesSettled(v, Keeps(v, open, cs), Keeps(v, open, cs).Keys, sess) ==>
      x.id in sess && sess[x.id].retired
    ensures forall s: State, key, keyID, now :: key in s.entries && s.entries[key] == EntryOf(x) && x.id in s.sess && s.sess[x.id].retired ==>
      Step(s, TryPooled(key, keyID, now)) == s && (Enabled(s, LeaseSession(key, keyID, now)) ==> Step(s, LeaseSession(key, keyID, now)) == s)
    ensures forall w: View :: x.model in w.entries && w.entries[x.model] == EntryOf(x) && x.id in w.sess && w.sess[x.id].retired ==>
      !w.UsableSlot(x.model)
  {
    hide Step, Walk, ClassOf, Group;
    open := [x];
    cs := Classes(v, [a], open);
    RetiredIsOwn(x, a, v);
    forall s: State, key, keyID, now
      | key in s.entries && s.entries[key] == EntryOf(x) && x.id in s.sess && s.sess[x.id].retired
      ensures Step(s, TryPooled(key, keyID, now)) == s
      ensures Enabled(s, LeaseSession(key, keyID, now)) ==> Step(s, LeaseSession(key, keyID, now)) == s
    {
      RetiredServesNone(s, key, keyID, now);
    }
  }

  lemma RetiredIsOwn(x: Session, a: Attempt, v: View)
    requires Usable(x, v.now) && a.Matches(x) && v.entries == map[] && v.marks == map[]
    requires x.id in v.sess ==> v.Unheld(v.sess[x.id])
    ensures var cs := Classes(v, [a], [x]); cs == [OwnOpen] && Keep(v, [x], cs, x.model) == Some(x)
  {
    var open := [x];
    var cs := Classes(v, [a], open);
    var before := WalkAt(v, [a], open, 0);
    assert cs[0] == OwnOpen;
    assert Group(open[..0], cs[..0], OwnOpen, x.model) == [];
    assert Group(open, cs, OwnOpen, x.model) == [x];
  }

  lemma RetiredServesNone(s: State, key: string, keyID: string, now: Time)
    requires key in s.entries && s.entries[key].sessionID in s.sess && s.sess[s.entries[key].sessionID].retired
    ensures Step(s, TryPooled(key, keyID, now)) == s
    ensures Enabled(s, LeaseSession(key, keyID, now)) ==> Step(s, LeaseSession(key, keyID, now)) == s
  {
  }

  /** Every attempt gone accounts for one session. */
  lemma {:induction false} AttemptsAreUsedOnce(v: View, pending: seq<Attempt>, open: seq<Session>)
    requires DistinctIds(open)
    ensures |OwnIds(open, Classes(v, pending, open))| + |Walk(v, pending, open).1| == |pending|
  {
    if open == [] {
      assert OwnIds(open, []) == {};
    } else {
      var n := |open| - 1;
      AttemptsAreUsedOnce(v, pending, open[..n]);
      OneMoreListed(v, pending, open[..n], open[n]);
      assert open == open[..n] + [open[n]];
    }
  }

  lemma OneMoreListed(v: View, pending: seq<Attempt>, open: seq<Session>, s: Session)
    requires forall x :: x in open ==> x.id != s.id
    ensures |OwnIds(open + [s], Classes(v, pending, open + [s]))| + |Walk(v, pending, open + [s]).1|
      == |OwnIds(open, Classes(v, pending, open))| + |Walk(v, pending, open).1|
  {
    hide OwnIds, ClassOf, Walk, Resolve;
    var (cs, left) := Walk(v, pending, open);
    var c := ClassOf(v, left, s);
    WalkStep(v, pending, open, s);
    DirectStep(open, cs, s, c);
    NotYetOwn(open, cs, s.id);
    if c.OwnOpen? || c.OwnExpired? {
      OwnIsMatched(v, left, s);
      ResolveRemovesOne(left, MatchOf(left, s).value);
    }
  }

  lemma OwnIsMatched(v: View, pending: seq<Attempt>, s: Session)
    requires ClassOf(v, pending, s).OwnOpen? || ClassOf(v, pending, s).OwnExpired?
    ensures MatchOf(pending, s).Some?
  {
  }

  lemma NotYetOwn(open: seq<Session>, cs: seq<Class>, id: string)
    requires |cs| == |open| && forall s :: s in open ==> s.id != id
    ensures id !in OwnIds(open, cs)
  {
  }

  predicate MayLeaveAttempts(c: Class) {
    c.Marked? || c.InUse? || c.SlotExpired? || c.OwnOpen? || c.OwnExpired?
  }

  /** No session that could be the result of an open still pending is left for other uses. */
  lemma {:induction false} NoResultIsMissed(v: View, pending: seq<Attempt>, open: seq<Session>, i: nat, a: Attempt)
    requires i < |open| && a in Walk(v, pending, open).1 && a.Matches(open[i])
    ensures MayLeaveAttempts(Classes(v, pending, open)[i])
  {
    var n := |open| - 1;
    var left := Walk(v, pending, open[..n]).1;
    assert a in left;
    if i < n {
      NoResultIsMissed(v, pending, open[..n], i, a);
    }
  }

  lemma {:induction false} ResolveRemovesOne(pending: seq<Attempt>, a: Attempt)
    requires a in pending
    ensures |Resolve(pending, a)| == |pending| - 1
  {
    if pending[0].id != a.id {
      ResolveRemovesOne(pending[1..], a);
    }
  }

  // Order of the list.

  predicate DistinctAttempts(pending: seq<Attempt>) {
    forall i, j :: 0 <= i < j < |pending| ==> pending[i].id != pending[j].id
  }

  /** Neither closing nor held: only these are looked up among the pending opens. */
  ghost predicate Free(v: View, s: Session) {
    s.id !in v.marks && !v.Held(s.id)
  }

  function Matching(pending: seq<Attempt>, s: Session): nat {
    if pending == [] then 0 else (if pending[0].Matches(s) then 1 else 0) + Matching(pending[1..], s)
  }

  predicate Share(pending: seq<Attempt>, s: Session, t: Session) {
    exists a :: a in pending && a.Matches(s) && a.Matches(t)
  }

  /** The other listed sessions that could use up an attempt s matches. */
  ghost function Rivals(v: View, pending: seq<Attempt>, open: seq<Session>, s: Session): set<Session> {
    set t | t in open && t.id != s.id && Free(v, t) && Share(pending, s, t)
  }

  /** Attempts go round: no free session that matches one has as many rivals as attempts. */
  ghost predicate Enough(v: View, pending: seq<Attempt>, open: seq<Session>) {
    forall s :: s in open && Free(v, s) && Matching(pending, s) > 0 ==> |Rivals(v, pending, open, s)| < Matching(pending, s)
  }

  lemma {:induction false} MatchingIsSome(pending: seq<Attempt>, s: Session)
    ensures Matching(pending, s) > 0 <==> MatchOf(pending, s).Some?
  {
    if pending != [] {
      MatchingIsSome(pending[1..], s);
    }
  }

  /** Resolving an attempt takes away at most one match of s, and one it is no match of takes away none. */
  lemma {:induction false} ResolveTakesOne(pending: seq<Attempt>, a: Attempt, s: Session)
    requires DistinctAttempts(pending) && a in pending
    ensures DistinctAttempts(Resolve(pending, a))
    ensures Matching(Resolve(pending, a), s) == Matching(pending, s) - (if a.Matches(s) then 1 else 0)
  {
    if pending[0].id == a.id {
      assert pending[0] == a;
    } else {
      ResolveTakesOne(pending[1..], a, s);
      assert ([pending[0]] + Resolve(pending[1..], a))[1..] == Resolve(pending[1..], a);
    }
  }

  /** The sessions listed so far used up at most one match of s for each rival of s among them. */
  lemma {:induction false} RivalsTakeAtMost(v: View, pending: seq<Attempt>, open: seq<Session>, s: Session)
    requires DistinctAttempts(pending) && DistinctIds(open) && forall t :: t in open ==> t.id != s.id
    ensures DistinctAttempts(Walk(v, pending, open).1)
    ensures Matching(Walk(v, pending, open).1, s) + |Rivals(v, pending, open, s)| >= Matching(pending, s)
    ensures Matching(Walk(v, pending, open).1, s) <= Matching(pending, s)
  {
    if open != [] {
      var n := |open| - 1;
      var before, t := open[..n], open[n];
      RivalsTakeAtMost(v, pending, before, s);
      RivalsNext(v, pending, before, t, s);
      assert open == before + [t];
      WalkStep(v, pending, before, t);
      LeftAreOld(v, pending, before);
      TakesOne(v, pending, Walk(v, pending, before).1, t, s);
    }
  }

  lemma RivalsNext(v: View, pending: seq<Attempt>, open: seq<Session>, t: Session, s: Session)
    requires t.id != s.id && forall x :: x in open ==> x.id != t.id
    ensures |Rivals(v, pending, open + [t], s)|
      == |Rivals(v, pending, open, s)| + (if Free(v, t) && Share(pending, s, t) then 1 else 0)
  {
    var more: set<Session> := if Free(v, t) && Share(pending, s, t) then {t} else {};
    assert Rivals(v, pending, open + [t], s) == Rivals(v, pending, open, s) + more;
  }

  lemma TakesOne(v: View, pending: seq<Attempt>, left: seq<Attempt>, t: Session, s: Session)
    requires DistinctAttempts(left) && forall a :: a in left ==> a in pending
    ensures var c := ClassOf(v, left, t);
      var rest := if c.OwnOpen? || c.OwnExpired? then Resolve(left, MatchOf(left, t).value) else left;
      && DistinctAttempts(rest)
      && Matching(rest, s) <= Matching(left, s)
      && Matching(rest, s) + (if Free(v, t) && Share(pending, s, t) then 1 else 0) >= Matching(left, s)
  {
    var c := ClassOf(v, left, t);
    if c.OwnOpen? || c.OwnExpired? {
      OwnIsMatched(v, left, t);
      var a := MatchOf(left, t).value;
      ResolveTakesOne(left, a, s);
      assert a.Matches(s) ==> Share(pending, s, t);
    }
  }

  /** Where attempts go round, a class depends on the session alone. */
  lemma ClassIsItsOwn(v: View, pending: seq<Attempt>, open: seq<Session>, i: nat)
    requires DistinctAttempts(pending) && DistinctIds(open) && Enough(v, pending, open) && i < |open|
    ensures Classes(v, pending, open)[i] == ClassOf(v, pending, open[i])
  {
    hide Walk, Rivals;
    var before := WalkAt(v, pending, open, i);
    var s := open[i];
    assert forall t :: t in open[..i] ==> t.id != s.id;
    RivalsTakeAtMost(v, pending, open[..i], s);
    FewerRivals(v, pending, open, i, s);
    MatchingIsSome(pending, s);
    MatchingIsSome(before, s);
    ClassFollowsMatch(v, pending, before, s);
  }

  lemma FewerRivals(v: View, pending: seq<Attempt>, open: seq<Session>, i: nat, s: Session)
    requires i <= |open|
    ensures |Rivals(v, pending, open[..i], s)| <= |Rivals(v, pending, open, s)|
  {
    Subset(Rivals(v, pending, open[..i], s), Rivals(v, pending, open, s));
  }

  lemma {:induction false} Subset<T>(a: set<T>, b: set<T>)
    requires a <= b
    ensures |a| <= |b|
  {
    assert b == a + (b - a);
  }

  lemma ClassFollowsMatch(v: View, pending: seq<Attempt>, left: seq<Attempt>, s: Session)
    requires Free(v, s) ==> (MatchOf(pending, s).Some? <==> MatchOf(left, s).Some?)
    ensures ClassOf(v, pending, s) == ClassOf(v, left, s)
  {
  }

  /** Read before the scan: a pending open can have opened s, and the scan may take s. */
  ghost predicate Ours(v: View, pending: seq<Attempt>, s: Session) {
    Free(v, s) && Usable(s, v.now) && MatchOf(pending, s).Some?
  }

  /** Where attempts go round, when a barred session is put back can be read before the scan. */
  lemma BarredIsPutBackWhen(v: View, pending: seq<Attempt>, open: seq<Session>, i: nat)
    requires DistinctAttempts(pending) && DistinctIds(open) && Enough(v, pending, open) && i < |open| && Barred(v, open[i])
    ensures VerdictOf(v, open, Classes(v, pending, open), i) == Adopt <==>
      && Ours(v, pending, open[i]) && !v.UsableSlot(open[i].model)
      && forall s :: s in open && Ours(v, pending, s) && s.model == open[i].model ==> !Beats(s, open[i])
  {
    hide Walk, Group, Beats, Barred, Ours, Enough, VerdictOf, ClassOf;
    var cs := Classes(v, pending, open);
    BarredIsAdoptedExactly(v, pending, open, i);
    forall j | 0 <= j < |open| ensures cs[j].OwnOpen? <==> Ours(v, pending, open[j]) {
      ClassIsItsOwn(v, pending, open, j);
      OursIsOwn(v, pending, open[j]);
    }
    assert forall s :: s in open ==> exists j :: 0 <= j < |open| && open[j] == s;
  }

  lemma OursIsOwn(v: View, pending: seq<Attempt>, s: Session)
    ensures ClassOf(v, pending, s).OwnOpen? <==> Ours(v, pending, s)
  {
  }

  ghost predicate Permutes(p: seq<Session>, open: seq<Session>) {
    DistinctIds(p) && forall s :: s in p <==> s in open
  }

  lemma EnoughIgnoresOrder(v: View, pending: seq<Attempt>, open: seq<Session>, other: seq<Session>)
    requires Permutes(other, open) && Enough(v, pending, open)
    ensures Enough(v, pending, other)
  {
    forall s ensures Rivals(v, pending, open, s) == Rivals(v, pending, other, s) {
    }
  }

  lemma GroupOf(v: View, pending: seq<Attempt>, open: seq<Session>, c: Class, key: string, s: Session)
    requires DistinctAttempts(pending) && DistinctIds(open) && Enough(v, pending, open)
    ensures s in Group(open, Classes(v, pending, open), c, key) <==> s in open && s.model == key && ClassOf(v, pending, s) == c
  {
    hide Walk, ClassOf, Enough;
    var cs := Classes(v, pending, open);
    if s in Group(open, cs, c, key) {
      var i :| 0 <= i < |open| && open[i] == s && cs[i] == c && s.model == key;
      ClassIsItsOwn(v, pending, open, i);
    }
    if s in open && s.model == key && ClassOf(v, pending, s) == c {
      var i :| 0 <= i < |open| && open[i] == s;
      ClassIsItsOwn(v, pending, open, i);
    }
  }

  lemma GroupIgnoresOrder(v: View, pending: seq<Attempt>, open: seq<Session>, other: seq<Session>, c: Class, key: string)
    requires DistinctAttempts(pending) && DistinctIds(open) && Permutes(other, open)
    requires Enough(v, pending, open) && Enough(v, pending, other)
    ensures var a, b := Group(open, Classes(v, pending, open), c, key), Group(other, Classes(v, pending, other), c, key);
      (forall s :: s in a <==> s in b) && (a != [] ==> b != [] && Best(a) == Best(b))
  {
    hide Walk, ClassOf, Enough;
    var a, b := Group(open, Classes(v, pending, open), c, key), Group(other, Classes(v, pending, other), c, key);
    forall s ensures s in a <==> s in b {
      GroupOf(v, pending, open, c, key, s);
      GroupOf(v, pending, other, c, key, s);
    }
    if a != [] {
      assert a[0] in b;
      BestIgnoresOrder(a, b);
    }
  }

  /** Where attempts go round, permuting the list changes no class and no verdict. */
  lemma VerdictsIgnoreOrder(v: View, pending: seq<Attempt>, open: seq<Session>, other: seq<Session>, i: nat, j: nat)
    requires DistinctAttempts(pending) && DistinctIds(open) && Permutes(other, open) && Enough(v, pending, open)
    requires i < |open| && j < |other| && open[i] == other[j]
    ensures Classes(v, pending, open)[i] == Classes(v, pending, other)[j]
    ensures VerdictOf(v, open, Classes(v, pending, open), i) == VerdictOf(v, other, Classes(v, pending, other), j)
  {
    hide ClassOf, Walk, Group, Best, Enough;
    EnoughIgnoresOrder(v, pending, open, other);
    ClassIsItsOwn(v, pending, open, i);
    ClassIsItsOwn(v, pending, other, j);
    GroupIgnoresOrder(v, pending, open, other, OwnOpen, open[i].model);
    GroupIgnoresOrder(v, pending, other, open, OwnOpen, open[i].model);
    GroupIgnoresOrder(v, pending, open, other, Spare, open[i].model);
    GroupIgnoresOrder(v, pending, other, open, Spare, open[i].model);
  }

  // Attempts that do not go round.

  /** Sessions that share an attempt match the same ones, as two sessions opened on one bid around the same time do. */
  ghost predicate Alike(v: View, pending: seq<Attempt>, open: seq<Session>) {
    forall s, t, a :: s in open && t in open && Free(v, s) && Free(v, t) && Share(pending, s, t) && a in pending ==>
      (a.Matches(s) <==> a.Matches(t))
  }

  /** However the list is ordered, each session has the same class. */
  ghost predicate ClassesIgnoreOrder(v: View, pending: seq<Attempt>, open: seq<Session>) {
    forall p, q, i, j :: Permutes(p, open) && Permutes(q, open) && 0 <= i < |p| && 0 <= j < |q| && p[i] == q[j] ==>
      Classes(v, pending, p)[i] == Classes(v, pending, q)[j]
  }

  lemma {:induction false} AsList(open: seq<Session>, ss: set<Session>) returns (r: seq<Session>)
    requires DistinctIds(open) && forall s :: s in ss ==> s in open
    ensures DistinctIds(r) && |r| == |ss| && forall s :: s in r <==> s in ss
  {
    if open == [] {
      assert ss == {};
      r := [];
    } else {
      var n := |open| - 1;
      var s := open[n];
      r := AsList(open[..n], ss - {s});
      if s in ss {
        assert forall t :: t in r ==> t in open[..n] && t.id != s.id;
        OneMore(r, ss - {s}, s);
        r := r + [s];
        assert ss == ss - {s} + {s};
      } else {
        assert ss - {s} == ss;
      }
    }
  }

  lemma OneMore(r: seq<Session>, ss: set<Session>, s: Session)
    requires DistinctIds(r) && |r| == |ss| && (forall t :: t in r <==> t in ss) && forall t :: t in r ==> t.id != s.id
    ensures DistinctIds(r + [s]) && |r + [s]| == |ss + {s}| && forall t :: t in r + [s] <==> t in ss + {s}
  {
    assert s !in ss;
    assert forall i :: 0 <= i < |r| ==> r[i] in r;
  }

  /** Sessions that match only what s matches, listed first, use up one match of s each, or one of them gets none. */
  lemma {:induction false} RivalsFirst(v: View, pending: seq<Attempt>, rs: seq<Session>, s: Session) returns (i: nat)
    requires DistinctAttempts(pending)
    requires forall t :: t in rs ==> Free(v, t) && forall a :: a in pending && a.Matches(t) ==> a.Matches(s)
    ensures DistinctAttempts(Walk(v, pending, rs).1)
    ensures i <= |rs|
    ensures i < |rs| ==> var c := Classes(v, pending, rs)[i]; !c.OwnOpen? && !c.OwnExpired?
    ensures i == |rs| ==> Matching(Walk(v, pending, rs).1, s) + |rs| == Matching(pending, s)
  {
    hide Matching;
    if rs == [] {
      i := 0;
    } else {
      var n := |rs| - 1;
      var t := rs[n];
      i := RivalsFirst(v, pending, rs[..n], s);
      var left := Walk(v, pending, rs[..n]).1;
      assert rs == rs[..n] + [t];
      WalkStep(v, pending, rs[..n], t);
      LeftAreOld(v, pending, rs[..n]);
      var c := ClassOf(v, left, t);
      if c.OwnOpen? || c.OwnExpired? {
        OwnIsMatched(v, left, t);
        var a := MatchOf(left, t).value;
        assert t in rs && a in pending && a.Matches(t) && a.Matches(s);
        ResolveTakesOne(left, a, s);
        if i == n {
          i := |rs|;
        }
      } else if i == n {
        assert Classes(v, pending, rs)[n] == c;
      }
    }
  }

  /** The first session listed finds every attempt there. */
  lemma FirstFindsItsOwn(v: View, pending: seq<Attempt>, open: seq<Session>)
    requires open != [] && Free(v, open[0]) && Matching(pending, open[0]) > 0
    ensures var c := Classes(v, pending, open)[0]; c.OwnOpen? || c.OwnExpired?
  {
    var before := WalkAt(v, pending, open, 0);
    assert open[..0] == [];
    MatchingIsSome(pending, open[0]);
  }

  lemma LastFindsNone(v: View, pending: seq<Attempt>, open: seq<Session>, i: nat)
    requires i < |open| && Matching(Walk(v, pending, open[..i]).1, open[i]) == 0
    ensures var c := Classes(v, pending, open)[i]; !c.OwnOpen? && !c.OwnExpired?
  {
    var before := WalkAt(v, pending, open, i);
    MatchingIsSome(before, open[i]);
  }

  lemma SharedIsMatched(pending: seq<Attempt>, s: Session, t: Session)
    requires Share(pending, s, t)
    ensures Matching(pending, t) > 0
  {
    MatchingIsSome(pending, t);
  }

  lemma ClassesOfPrefix(v: View, pending: seq<Attempt>, open: seq<Session>, more: seq<Session>, i: nat)
    requires i < |open|
    ensures Classes(v, pending, open + more)[i] == Classes(v, pending, open)[i]
  {
    hide Walk, ClassOf;
    var before := WalkAt(v, pending, open + more, i);
    var b := WalkAt(v, pending, open, i);
    assert (open + more)[..i] == open[..i];
  }

  /** The rivals of s that match nothing else. */
  ghost function Inner(v: View, pending: seq<Attempt>, open: seq<Session>, s: Session): set<Session> {
    set t | t in Rivals(v, pending, open, s) && MatchesOnly(pending, t, s)
  }

  predicate MatchesOnly(pending: seq<Attempt>, t: Session, s: Session) {
    forall a :: a in pending && a.Matches(t) ==> a.Matches(s)
  }

  /** s first, those rivals after; those first, s after: some session is of another class. */
  lemma RivalryShows(v: View, pending: seq<Attempt>, open: seq<Session>, s: Session)
    requires DistinctAttempts(pending) && DistinctIds(open) && s in open && Free(v, s)
    requires 0 < Matching(pending, s) <= |Inner(v, pending, open, s)|
    ensures !ClassesIgnoreOrder(v, pending, open)
  {
    hide Walk, ClassOf, Matching, Share, ClassesIgnoreOrder;
    hide Inner, Permutes, Free, MatchesOnly;
    var rivals := Inner(v, pending, open, s);
    InnerAre(v, pending, open, s);
    var rs, rest := Rearranged(open, rivals, s);
    var p := rs + [s] + rest;
    var i := RivalsFirst(v, pending, rs, s);
    var z := p[i];
    if i < |rs| {
      assert p == rs + ([s] + rest);
      ClassesOfPrefix(v, pending, rs, [s] + rest, i);
      assert z in rs && z in rivals;
      SharedIsMatched(pending, s, z);
    } else {
      assert p[..i] == rs;
      LastFindsNone(v, pending, p, i);
    }
    var none, others := Rearranged(open, {}, z);
    var q := none + [z] + others;
    assert none == [];
    FirstFindsItsOwn(v, pending, q);
    DiffersSomewhere(v, pending, open, p, q, i, 0);
  }

  lemma InnerAre(v: View, pending: seq<Attempt>, open: seq<Session>, s: Session)
    ensures forall t :: t in Inner(v, pending, open, s) ==>
      t in open && t != s && Free(v, t) && Share(pending, s, t) && forall a :: a in pending && a.Matches(t) ==> a.Matches(s)
  {
  }

  /** The list with the sessions of some set first and s after them. */
  lemma Rearranged(open: seq<Session>, first: set<Session>, s: Session) returns (rs: seq<Session>, rest: seq<Session>)
    requires DistinctIds(open) && s in open && s !in first && forall t :: t in first ==> t in open
    ensures Permutes(rs + [s] + rest, open) && |rs| == |first| && forall t :: t in rs <==> t in first
  {
    var all := set t | t in open;
    rs := AsList(open, first);
    rest := AsList(open, all - first - {s});
    forall t, u | t in open && u in open && t != u ensures t.id != u.id {
      var i, j :| 0 <= i < |open| && 0 <= j < |open| && open[i] == t && open[j] == u;
    }
    DistinctJoined(rs, s, rest);
  }

  lemma DistinctJoined(rs: seq<Session>, s: Session, rest: seq<Session>)
    requires DistinctIds(rs) && DistinctIds(rest)
    requires forall t :: t in rs ==> t.id != s.id
    requires forall t, u :: (t in rs || t == s) && u in rest ==> t.id != u.id
    ensures DistinctIds(rs + [s] + rest)
  {
    var p := rs + [s] + rest;
    forall i, j | 0 <= i < j < |p| ensures p[i].id != p[j].id {
      if j > |rs| {
        assert p[j] == rest[j - |rs| - 1];
        assert i > |rs| ==> p[i] == rest[i - |rs| - 1];
      }
    }
  }

  lemma DiffersSomewhere(v: View, pending: seq<Attempt>, open: seq<Session>, p: seq<Session>, q: seq<Session>, i: nat, j: nat)
    requires Permutes(p, open) && Permutes(q, open) && i < |p| && j < |q| && p[i] == q[j]
    requires Classes(v, pending, p)[i] != Classes(v, pending, q)[j]
    ensures !ClassesIgnoreOrder(v, pending, open)
  {
    hide Permutes, Walk;
  }

  /**
   Where attempts go round the order is of no account. Where it is, no free session has as many rivals that match
   nothing else as it has attempts; so where sessions sharing attempts are alike, only there.
   */
  lemma OrderMattersIfShort(v: View, pending: seq<Attempt>, open: seq<Session>)
    requires DistinctAttempts(pending) && DistinctIds(open)
    ensures Enough(v, pending, open) ==> ClassesIgnoreOrder(v, pending, open)
    ensures ClassesIgnoreOrder(v, pending, open) ==>
      forall s :: s in open && Free(v, s) && Matching(pending, s) > 0 ==> |Inner(v, pending, open, s)| < Matching(pending, s)
    ensures Alike(v, pending, open) ==> (ClassesIgnoreOrder(v, pending, open) <==> Enough(v, pending, open))
  {
    hide Walk, ClassOf, Matching, Share, Inner, ClassesIgnoreOrder, Permutes, Alike;
    forall s | s in open && Free(v, s) && Matching(pending, s) > 0
      ensures ClassesIgnoreOrder(v, pending, open) ==> |Inner(v, pending, open, s)| < Matching(pending, s)
    {
      if |Inner(v, pending, open, s)| >= Matching(pending, s) {
        RivalryShows(v, pending, open, s);
      }
    }
    if Enough(v, pending, open) {
      OrderIsOfNoAccount(v, pending, open);
    } else if Alike(v, pending, open) {
      var s :| s in open && Free(v, s) && Matching(pending, s) > 0 && |Rivals(v, pending, open, s)| >= Matching(pending, s);
      AlikeAreInner(v, pending, open, s);
    }
  }

  lemma OrderIsOfNoAccount(v: View, pending: seq<Attempt>, open: seq<Session>)
    requires DistinctAttempts(pending) && DistinctIds(open) && Enough(v, pending, open)
    ensures ClassesIgnoreOrder(v, pending, open)
  {
    hide Walk, ClassOf, Enough;
    forall p, q, i, j | Permutes(p, open) && Permutes(q, open) && 0 <= i < |p| && 0 <= j < |q| && p[i] == q[j]
      ensures Classes(v, pending, p)[i] == Classes(v, pending, q)[j]
    {
      EnoughIgnoresOrder(v, pending, open, p);
      VerdictsIgnoreOrder(v, pending, p, q, i, j);
    }
  }

  lemma AlikeAreInner(v: View, pending: seq<Attempt>, open: seq<Session>, s: Session)
    requires Alike(v, pending, open) && s in open && Free(v, s)
    ensures Inner(v, pending, open, s) == Rivals(v, pending, open, s)
  {
    hide Share, Free;
  }

  // The attempts left.

  /** No attempt can have opened two free listed sessions. */
  ghost predicate Uncontested(v: View, pending: seq<Attempt>, open: seq<Session>) {
    forall s, t :: s in open && t in open && s.id != t.id && Free(v, s) && Free(v, t) ==> !Share(pending, s, t)
  }

  lemma UncontestedIsEnough(v: View, pending: seq<Attempt>, open: seq<Session>)
    requires Uncontested(v, pending, open)
    ensures Enough(v, pending, open)
  {
    hide Share, Matching;
    forall s | s in open && Free(v, s) ensures Rivals(v, pending, open, s) == {} {
    }
  }

  /** The attempts that are the first match of a free listed session. */
  ghost function Taken(v: View, pending: seq<Attempt>, open: seq<Session>): set<nat> {
    set s | s in open && Free(v, s) && MatchOf(pending, s).Some? :: MatchOf(pending, s).value.id
  }

  function Without(pending: seq<Attempt>, ids: set<nat>): (r: seq<Attempt>)
    ensures forall a :: a in r <==> a in pending && a.id !in ids
  {
    if pending == [] then []
    else if pending[0].id in ids then Without(pending[1..], ids)
    else [pending[0]] + Without(pending[1..], ids)
  }

  lemma {:induction false} MatchWithout(pending: seq<Attempt>, ids: set<nat>, s: Session)
    requires forall a :: a in pending && a.Matches(s) ==> a.id !in ids
    ensures MatchOf(Without(pending, ids), s) == MatchOf(pending, s)
  {
    hide Attempt.Matches;
    if pending != [] {
      MatchWithout(pending[1..], ids, s);
      if pending[0].id !in ids {
        assert ([pending[0]] + Without(pending[1..], ids))[1..] == Without(pending[1..], ids);
      }
    }
  }

  lemma {:induction false} ResolveWithout(pending: seq<Attempt>, ids: set<nat>, a: Attempt)
    requires DistinctAttempts(pending) && a in pending && a.id !in ids
    ensures Resolve(Without(pending, ids), a) == Without(pending, ids + {a.id})
  {
    hide Resolve;
    var rest := pending[1..];
    if pending[0].id == a.id {
      WithoutAnother(rest, ids, a.id);
      ResolveHead(pending[0], Without(rest, ids), a);
    } else {
      ResolveWithout(rest, ids, a);
      if pending[0].id !in ids {
        ResolveHead(pending[0], Without(rest, ids), a);
      }
    }
  }

  lemma ResolveHead(x: Attempt, rest: seq<Attempt>, a: Attempt)
    ensures Resolve([x] + rest, a) == if x.id == a.id then rest else [x] + Resolve(rest, a)
  {
    assert ([x] + rest)[1..] == rest;
  }

  lemma {:induction false} WithoutAnother(pending: seq<Attempt>, ids: set<nat>, id: nat)
    requires forall a :: a in pending ==> a.id != id
    ensures Without(pending, ids) == Without(pending, ids + {id})
  {
    if pending != [] {
      WithoutAnother(pending[1..], ids, id);
    }
  }

  lemma {:induction false} WithoutNone(pending: seq<Attempt>)
    ensures Without(pending, {}) == pending
  {
    if pending != [] {
      WithoutNone(pending[1..]);
    }
  }

  /** Where no attempt is contested each session takes its first match, so what is left does not depend on the order. */
  lemma {:induction false} LeftIsWithout(v: View, pending: seq<Attempt>, open: seq<Session>)
    requires DistinctAttempts(pending) && DistinctIds(open) && Uncontested(v, pending, open)
    ensures Walk(v, pending, open).1 == Without(pending, Taken(v, pending, open))
  {
    hide Without;
    if open == [] {
      WithoutNone(pending);
      assert Taken(v, pending, open) == {};
    } else {
      var n := |open| - 1;
      LeftIsWithout(v, pending, open[..n]);
      LeftStep(v, pending, open[..n], open[n]);
      assert open == open[..n] + [open[n]];
    }
  }

  lemma LeftStep(v: View, pending: seq<Attempt>, open: seq<Session>, s: Session)
    requires DistinctAttempts(pending) && DistinctIds(open + [s]) && Uncontested(v, pending, open + [s])
    requires Walk(v, pending, open).1 == Without(pending, Taken(v, pending, open))
    ensures Walk(v, pending, open + [s]).1 == Without(pending, Taken(v, pending, open + [s]))
  {
    hide Walk, Without, Taken, ClassOf, Enough, Free, MatchOf, Resolve, DistinctIds, DistinctAttempts, Uncontested;
    var taken := Taken(v, pending, open);
    WalkStep(v, pending, open, s);
    UncontestedIsEnough(v, pending, open + [s]);
    ClassIsItsOwn(v, pending, open + [s], |open|);
    OwnIs(v, pending, s);
    TakenNext(v, pending, open, s);
    if Free(v, s) && MatchOf(pending, s).Some? {
      NotTaken(v, pending, open, s);
      MatchWithout(pending, taken, s);
      var a := MatchOf(pending, s).value;
      assert a in pending && a.id !in taken;
      ResolveWithout(pending, taken, a);
    } else {
      assert Taken(v, pending, open + [s]) == taken;
    }
  }

  lemma OwnIs(v: View, pending: seq<Attempt>, s: Session)
    ensures var c := ClassOf(v, pending, s); (c.OwnOpen? || c.OwnExpired?) <==> Free(v, s) && MatchOf(pending, s).Some?
  {
  }

  lemma TakenNext(v: View, pending: seq<Attempt>, open: seq<Session>, s: Session)
    ensures var a := MatchOf(pending, s);
      Taken(v, pending, open + [s]) == Taken(v, pending, open) + (if Free(v, s) && a.Some? then {a.value.id} else {})
  {
    hide Free, MatchOf;
  }

  lemma NotTaken(v: View, pending: seq<Attempt>, open: seq<Session>, s: Session)
    requires DistinctAttempts(pending) && DistinctIds(open + [s]) && Uncontested(v, pending, open + [s]) && Free(v, s)
    ensures forall a :: a in pending && a.Matches(s) ==> a.id !in Taken(v, pending, open)
  {
    hide Free;
    forall a | a in pending && a.Matches(s) ensures a.id !in Taken(v, pending, open) {
      forall t | t in open && Free(v, t) && MatchOf(pending, t).Some? ensures MatchOf(pending, t).value.id != a.id {
        var i :| 0 <= i < |open| && open[i] == t;
        assert (open + [s])[i] == t && (open + [s])[|open|] == s && t.id != s.id;
        assert !Share(pending, t, s);
        assert MatchOf(pending, t).value != a;
      }
    }
  }

  /** With no attempt contested, permuting the list leaves the same attempts pending. */
  lemma LeftIgnoresOrder(v: View, pending: seq<Attempt>, open: seq<Session>, other: seq<Session>)
    requires DistinctAttempts(pending) && DistinctIds(open) && Permutes(other, open) && Uncontested(v, pending, open)
    ensures Walk(v, pending, open).1 == Walk(v, pending, other).1
  {
    hide Walk, Without, Share;
    LeftIsWithout(v, pending, open);
    LeftIsWithout(v, pending, other);
    assert Taken(v, pending, open) == Taken(v, pending, other);
  }

  /** For one: the first listed of two young sessions on a pending open's bid is adopted, the other left. */
  lemma OrderMattersToAttempts(x: Session, y: Session, a: Attempt, v: View)
    requires x.id != y.id && a.Matches(x) && a.Matches(y) && Usable(x, v.now) && Usable(y, v.now)
    requires TooYoung(x, v.now) && TooYoung(y, v.now)
    requires v.entries == map[] && v.sess == map[] && v.marks == map[] && v.knownDup == {}
    ensures VerdictOf(v, [x, y], Classes(v, [a], [x, y]), 0) == Adopt
    ensures VerdictOf(v, [x, y], Classes(v, [a], [x, y]), 1) == LeftYoung
  {
    var open := [x, y];
    var cs := Classes(v, [a], open);
    var b0 := WalkAt(v, [a], open, 0);
    assert open[..1] == [x] && open[..0] == [] && [x][..0] == [];
    assert Walk(v, [a], []).1 == [a];
    assert Walk(v, [a], [x]).1 == Resolve([a], a) == [];
    var b1 := WalkAt(v, [a], open, 1);
    assert cs == [OwnOpen, Young];
    var g := Group(open, cs, OwnOpen, x.model);
    assert cs[..1] == [OwnOpen] && open[..1][..0] == [] && cs[..1][..0] == [];
    assert Group(open[..1], cs[..1], OwnOpen, x.model) == [x];
    assert g == [x];
  }
}
