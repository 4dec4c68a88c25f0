/**
 What one scan of the wallet's session list must do, said without its loops: the class of each listed session, the
 session each model keeps, and a verdict per session. Pool.ApplyScan is proved to do this; the lemmas here say what
 it means.
 */
module Sweep {
  import opened Basics
  import opened Sessions
  import opened Leases

  const PRUNE_GRACE: Time := 2 * MINUTE
  const ATTEMPT_SKEW: Time := 30 * SECOND
  const ATTEMPT_KEEP: Time := 13 * MINUTE
  const STUCK_KEEP: Time := HOUR
  const MAX_PENDING := 32

  /** An open that was sent and whose outcome is not known; id tells attempts apart. */
  datatype Attempt = Attempt(id: nat, model: string, bid: string, start: Time, cut: bool, stuck: bool)
  {
    function KeepFor(): Time {
      if stuck then STUCK_KEEP else ATTEMPT_KEEP
    }

    predicate Matches(s: Session) {
      && s.model == model && s.bid == bid
      && start - ATTEMPT_SKEW <= FromUnix(s.openedAt) <= start + KeepFor() + ATTEMPT_SKEW
    }

    predicate Live(now: Time) {
      now < start + KeepFor() + ATTEMPT_SKEW
    }
  }

  function ListedIds(open: seq<Session>): set<string> {
    set s | s in open :: s.id
  }

  /** The first attempt s can be the result of. */
  function MatchOf(pending: seq<Attempt>, s: Session): (r: Option<Attempt>)
    ensures r.Some? ==> r.value in pending && r.value.Matches(s)
    ensures r.None? ==> forall a :: a in pending ==> !a.Matches(s)
  {
    if pending == [] then None
    else if pending[0].Matches(s) then Some(pending[0])
    else MatchOf(pending[1..], s)
  }

  function Resolve(pending: seq<Attempt>, a: Attempt): (r: seq<Attempt>)
    ensures forall x :: x in r ==> x in pending
    ensures forall x :: x in pending && x.id != a.id ==> x in r
  {
    if pending == [] then []
    else if pending[0].id == a.id then pending[1..]
    else [pending[0]] + Resolve(pending[1..], a)
  }

  /** The listed sessions att can have opened and the pool may still take: not closing, not tracked, not near their end. */
  function Results(att: Attempt, open: seq<Session>, barred: set<string>, now: Time): (r: seq<Session>)
    ensures forall s :: s in r <==> s in open && att.Matches(s) && s.id !in barred && Usable(s, now)
  {
    if open == [] then []
    else
      var s, r := open[|open| - 1], Results(att, open[..|open| - 1], barred, now);
      if att.Matches(s) && s.id !in barred && Usable(s, now) then r + [s] else r
  }

  /** The pool as a scan reads it: cut marks that ended are gone, retired and excluded are the failover memory. */
  datatype View = View(now: Time, entries: map<string, Entry>, sess: map<string, Sess>, marks: map<string, Mark>,
                       knownDup: set<string>, retired: set<string>, excluded: set<string>)
  {
    predicate Unheld(st: Sess) {
      st.retired && !st.closing && st.inflight == 0
    }

    ghost predicate InSlot(id: string) {
      exists k :: k in entries && entries[k].sessionID == id
    }

    ghost predicate Held(id: string) {
      InSlot(id) || (id in sess && !Unheld(sess[id]))
    }

    predicate UsableSlot(key: string) {
      && key in entries && now < entries[key].expiresAt && entries[key].sessionID !in marks
      && (entries[key].sessionID in sess ==> Serving(entries[key].sessionID))
    }

    predicate Serving(id: string)
      requires id in sess
    {
      !sess[id].retired && !sess[id].closing
    }
  }

  datatype Class =
    | Marked        // a close is under way
    | InUse         // held by a slot or by leases
    | SlotExpired   // held, past its use, nothing in flight
    | OwnOpen       // the result of a pending open
    | OwnExpired    // the same, past its use
    | PastUse
    | KnownExtra
    | Young         // perhaps an open still in flight
    | WasRetired
    | FromExcluded
    | Spare         // older and unheld

  predicate TooYoung(s: Session, now: Time) {
    FromUnix(s.openedAt) > now - PRUNE_GRACE
  }

  ghost function ClassOf(v: View, pending: seq<Attempt>, s: Session): Class {
    if s.id in v.marks then Marked
    else if v.Held(s.id) then
      if !Usable(s, v.now) && (s.id in v.sess ==> v.sess[s.id].inflight == 0 && v.Serving(s.id)) then SlotExpired else InUse
    else if MatchOf(pending, s).Some? then if Usable(s, v.now) then OwnOpen else OwnExpired
    else if !Usable(s, v.now) then PastUse
    else if s.id in v.knownDup then KnownExtra
    else if TooYoung(s, v.now) then Young
    else if s.id in v.retired || (s.id in v.sess && v.sess[s.id].retired) then WasRetired
    else if s.provider in v.excluded then FromExcluded
    else Spare
  }

  /** Classes in list order and the attempts left: each match uses up its attempt. */
  ghost function Walk(v: View, pending: seq<Attempt>, open: seq<Session>): (r: (seq<Class>, seq<Attempt>))
    ensures |r.0| == |open|
  {
    if open == [] then ([], pending)
    else
      var (cs, rest), s := Walk(v, pending, open[..|open| - 1]), open[|open| - 1];
      var c := ClassOf(v, rest, s);
      (cs + [c], if c.OwnOpen? || c.OwnExpired? then Resolve(rest, MatchOf(rest, s).value) else rest)
  }

  /** The listed sessions of one class and model, in list order. */
  ghost function Group(open: seq<Session>, cs: seq<Class>, c: Class, key: string): (r: seq<Session>)
    requires |cs| == |open|
    ensures forall x :: x in r <==> exists i :: 0 <= i < |open| && open[i] == x && cs[i] == c && x.model == key
  {
    if open == [] then []
    else
      var n := |open| - 1;
      var r := Group(open[..n], cs[..n], c, key);
      if cs[n] == c && open[n].model == key then r + [open[n]] else r
  }

  /** The session a scan adopts for a model: none while its slot is usable, else the best of its own opens, else of the spare. */
  ghost function Keep(v: View, open: seq<Session>, cs: seq<Class>, key: string): Option<Session>
    requires |cs| == |open|
  {
    var own, spare := Group(open, cs, OwnOpen, key), Group(open, cs, Spare, key);
    if v.UsableSlot(key) then None
    else if own != [] then Some(Best(own))
    else if spare != [] then Some(Best(spare))
    else None
  }

  datatype Reason = Expired | Duplicate | Retired | Excluded

  datatype Verdict = LeftClosing | LeftHeld | LeftYoung | Adopt | Due(reason: Reason)

  function DirectReason(c: Class): Option<Reason> {
    match c
    case SlotExpired => Some(Expired)
    case OwnExpired => Some(Expired)
    case PastUse => Some(Expired)
    case KnownExtra => Some(Duplicate)
    case WasRetired => Some(Retired)
    case FromExcluded => Some(Excluded)
    case _ => None
  }

  ghost function VerdictOf(v: View, open: seq<Session>, cs: seq<Class>, i: nat): Verdict
    requires |cs| == |open| && i < |open|
  {
    match cs[i]
    case Marked => LeftClosing
    case InUse => LeftHeld
    case Young => LeftYoung
    case OwnOpen => if Keep(v, open, cs, open[i].model) == Some(open[i]) then Adopt else Due(Duplicate)
    case Spare => if Keep(v, open, cs, open[i].model) == Some(open[i]) then Adopt else Due(Duplicate)
    case c => Due(DirectReason(c).value)
  }

  datatype Cand = Cand(s: Session, reason: Reason)

  ghost predicate IsDue(v: View, open: seq<Session>, cs: seq<Class>, c: Cand)
    requires |cs| == |open|
  {
    exists i :: 0 <= i < |open| && open[i] == c.s && VerdictOf(v, open, cs, i) == Due(c.reason)
  }

  ghost predicate IsAdopted(v: View, open: seq<Session>, cs: seq<Class>, id: string)
    requires |cs| == |open|
  {
    exists i :: 0 <= i < |open| && open[i].id == id && VerdictOf(v, open, cs, i) == Adopt
  }

  function MarkedAll(marks: map<string, Mark>, ids: set<string>): map<string, Mark> {
    map id | id in marks.Keys + ids :: if id in ids then InProgress else marks[id]
  }

  lemma NoneMarked(marks: map<string, Mark>)
    ensures MarkedAll(marks, ListedIds([])) == marks
  {
  }

  lemma MarkedNext(marks: map<string, Mark>, ss: seq<Session>, i: nat)
    requires i < |ss|
    ensures MarkedAll(marks, ListedIds(ss[..i + 1])) == MarkedAll(marks, ListedIds(ss[..i]))[ss[i].id := InProgress]
  {
    assert ss[..i + 1] == ss[..i] + [ss[i]];
    assert ListedIds(ss[..i + 1]) == ListedIds(ss[..i]) + {ss[i].id};
  }

  /** The closing marks after those of cut closes that ended are gone: not listed any more, or lapsed. */
  function MarksLeft(marks: map<string, Mark>, listed: set<string>, now: Time): map<string, Mark> {
    map id | id in marks && (marks[id].InProgress? || (id in listed && now < marks[id].exp)) :: marks[id]
  }

  /** Cut closes, other than those in ids, whose session is off the list. */
  function LateUntil(marks: map<string, Mark>, ids: set<string>, listed: set<string>): set<string> {
    set id | id in marks && id !in ids && marks[id].Until? && id !in listed
  }

  lemma LateAre(marks: map<string, Mark>, listed: set<string>)
    ensures forall id :: id in LateUntil(marks, {}, listed) <==> id in marks && marks[id].Until? && id !in listed
  {
  }

  /** The marks once all but those in ids were looked at. */
  ghost function MarksUntil(marks: map<string, Mark>, ids: set<string>, listed: set<string>, now: Time): map<string, Mark> {
    map id | id in marks && (id in ids || id in MarksLeft(marks, listed, now)) :: marks[id]
  }

  lemma MarksLeftStand(marks: map<string, Mark>, listed: set<string>, now: Time)
    ensures var m := MarksLeft(marks, listed, now); forall id :: id in m && m[id].Until? ==> now < m[id].exp
  {
  }

  lemma MarksUntilAll(marks: map<string, Mark>, listed: set<string>, now: Time)
    ensures MarksUntil(marks, marks.Keys, listed, now) == marks && LateUntil(marks, marks.Keys, listed) == {}
  {
  }

  lemma MarksUntilNone(marks: map<string, Mark>, listed: set<string>, now: Time)
    ensures MarksUntil(marks, {}, listed, now) == MarksLeft(marks, listed, now)
  {
  }

  lemma MarksUntilNext(marks: map<string, Mark>, ids: set<string>, id: string, listed: set<string>, now: Time)
    requires id in ids && id in marks
    ensures var m, ends := MarksUntil(marks, ids, listed, now), marks[id].Until? && (id !in listed || marks[id].exp <= now);
      && id in m && m[id] == marks[id]
      && MarksUntil(marks, ids - {id}, listed, now) == (if ends then m - {id} else m)
    ensures LateUntil(marks, ids - {id}, listed)
      == LateUntil(marks, ids, listed) + if marks[id].Until? && id !in listed then {id} else {}
  {
  }

  function Pruned(pending: seq<Attempt>, now: Time): seq<Attempt> {
    Filter(pending, (a: Attempt) => a.Live(now))
  }

  /** The model's slot once the scan has adopted. */
  ghost function SlotAfter(v: View, open: seq<Session>, cs: seq<Class>, key: string): Option<Entry>
    requires |cs| == |open|
  {
    var keep := Keep(v, open, cs, key);
    if keep.Some? then Some(EntryOf(keep.value))
    else if key in v.entries then Some(v.entries[key])
    else None
  }

  /** A slot is dropped when its session is not listed, nothing is in flight, and it did not open around the scan. */
  predicate Drops(v: View, listed: set<string>, scanStart: Time, e: Entry) {
    e.sessionID !in listed
    && (e.sessionID in v.sess ==> v.sess[e.sessionID].inflight == 0 && v.sess[e.sessionID].openedAt <= scanStart - PRUNE_GRACE)
  }

  /** The sessions due whatever their model keeps, in list order. */
  ghost function DirectDue(open: seq<Session>, cs: seq<Class>): (r: seq<Cand>)
    requires |cs| == |open|
    ensures forall c :: c in r <==> exists i :: 0 <= i < |open| && open[i] == c.s && DirectReason(cs[i]) == Some(c.reason)
  {
    if open == [] then []
    else
      var n := |open| - 1;
      var r, d := DirectDue(open[..n], cs[..n]), DirectReason(cs[n]);
      if d.Some? then r + [Cand(open[n], d.value)] else r
  }

  ghost function OwnIds(open: seq<Session>, cs: seq<Class>): set<string>
    requires |cs| == |open|
  {
    set i | 0 <= i < |open| && (cs[i].OwnOpen? || cs[i].OwnExpired?) :: open[i].id
  }

  /** m holds each model's sessions of class c, in list order. */
  ghost predicate Grouped(m: map<string, seq<Session>>, open: seq<Session>, cs: seq<Class>, c: Class)
    requires |cs| == |open|
  {
    forall k :: (k in m <==> Group(open, cs, c, k) != []) && (k in m ==> m[k] == Group(open, cs, c, k))
  }

  function AddTo(m: map<string, seq<Session>>, s: Session): map<string, seq<Session>> {
    m[s.model := (if s.model in m then m[s.model] else []) + [s]]
  }

  lemma GroupedStep(m: map<string, seq<Session>>, open: seq<Session>, cs: seq<Class>, c: Class, s: Session, d: Class)
    requires |cs| == |open| && Grouped(m, open, cs, c)
    ensures Grouped(if d == c then AddTo(m, s) else m, open + [s], cs + [d], c)
  {
    var m' := if d == c then AddTo(m, s) else m;
    assert (open + [s])[..|open|] == open && (cs + [d])[..|cs|] == cs;
    forall k
      ensures (k in m' <==> Group(open + [s], cs + [d], c, k) != []) && (k in m' ==> m'[k] == Group(open + [s], cs + [d], c, k))
    {
      assert Group(open + [s], cs + [d], c, k) == Group(open, cs, c, k) + (if d == c && s.model == k then [s] else []);
    }
  }

  lemma DirectStep(open: seq<Session>, cs: seq<Class>, s: Session, d: Class)
    requires |cs| == |open|
    ensures var r := DirectReason(d);
      DirectDue(open + [s], cs + [d]) == DirectDue(open, cs) + (if r.Some? then [Cand(s, r.value)] else [])
    ensures OwnIds(open + [s], cs + [d]) == OwnIds(open, cs) + (if d.OwnOpen? || d.OwnExpired? then {s.id} else {})
  {
    assert (open + [s])[..|open|] == open && (cs + [d])[..|cs|] == cs;
    var a, b := OwnIds(open + [s], cs + [d]), OwnIds(open, cs) + (if d.OwnOpen? || d.OwnExpired? then {s.id} else {});
    forall id | id in b ensures id in a {
      if id in OwnIds(open, cs) {
        var i :| 0 <= i < |open| && (cs[i].OwnOpen? || cs[i].OwnExpired?) && open[i].id == id;
        assert (open + [s])[i].id == id && (cs + [d])[i] == cs[i];
      } else {
        assert (open + [s])[|open|].id == id && (cs + [d])[|open|] == d;
      }
    }
  }

  /** What the first pass of a scan builds: the due, the results of our own opens by model, the spare by model, and the ids matched. */
  datatype Piles = Piles(due: seq<Cand>, own: map<string, seq<Session>>, spare: map<string, seq<Session>>, ids: set<string>)

  function Put(p: Piles, s: Session, c: Class): Piles {
    match c
    case OwnOpen => p.(own := AddTo(p.own, s), ids := p.ids + {s.id})
    case OwnExpired => p.(due := p.due + [Cand(s, Expired)], ids := p.ids + {s.id})
    case Spare => p.(spare := AddTo(p.spare, s))
    case _ => if DirectReason(c).Some? then p.(due := p.due + [Cand(s, DirectReason(c).value)]) else p
  }

  ghost predicate SortedOut(open: seq<Session>, cs: seq<Class>, p: Piles) {
    |cs| == |open| && p.due == DirectDue(open, cs) && p.ids == OwnIds(open, cs)
    && Grouped(p.own, open, cs, OwnOpen) && Grouped(p.spare, open, cs, Spare)
  }

  lemma NothingSorted(v: View, pending: seq<Attempt>)
    ensures Walk(v, pending, []) == ([], pending) && SortedOut([], [], Piles([], map[], map[], {}))
  {
  }

  lemma SortedOutStep(open: seq<Session>, cs: seq<Class>, p: Piles, s: Session, c: Class)
    requires SortedOut(open, cs, p)
    ensures SortedOut(open + [s], cs + [c], Put(p, s, c))
  {
    GroupedStep(p.own, open, cs, OwnOpen, s, c);
    GroupedStep(p.spare, open, cs, Spare, s, c);
    DirectStep(open, cs, s, c);
  }

  lemma WalkStep(v: View, pending: seq<Attempt>, open: seq<Session>, s: Session)
    ensures var (cs, rest) := Walk(v, pending, open);
      var c := ClassOf(v, rest, s);
      Walk(v, pending, open + [s]) == (cs + [c], if c.OwnOpen? || c.OwnExpired? then Resolve(rest, MatchOf(rest, s).value) else rest)
  {
    assert (open + [s])[..|open|] == open;
  }

  /** Older of two due sessions goes first; ids break ties. */
  predicate DueBefore(dueAt: map<string, Time>, a: Cand, b: Cand)
    requires a.s.id in dueAt && b.s.id in dueAt
  {
    if dueAt[a.s.id] != dueAt[b.s.id] then dueAt[a.s.id] < dueAt[b.s.id] else Less(a.s.id, b.s.id)
  }

  lemma DueBeforeIsOrder(dueAt: map<string, Time>, a: Cand, b: Cand, c: Cand)
    requires a.s.id in dueAt && b.s.id in dueAt && c.s.id in dueAt
    ensures !DueBefore(dueAt, a, a)
    ensures DueBefore(dueAt, a, b) && DueBefore(dueAt, b, c) ==> DueBefore(dueAt, a, c)
    ensures a.s.id != b.s.id ==> DueBefore(dueAt, a, b) != DueBefore(dueAt, b, a)
  {
    LessIrreflexive(a.s.id);
    LessTotal(a.s.id, b.s.id);
    if Less(a.s.id, b.s.id) && Less(b.s.id, c.s.id) {
      LessTransitive(a.s.id, b.s.id, c.s.id);
    }
    if Less(a.s.id, b.s.id) && Less(b.s.id, a.s.id) {
      LessTransitive(a.s.id, b.s.id, a.s.id);
    }
  }

  lemma GroupIn(open: seq<Session>, cs: seq<Class>, c: Class, key: string, s: Session)
    requires |cs| == |open| && s in Group(open, cs, c, key)
    ensures s in open && s.model == key
  {
  }

  /** No session of an adoptable class is in a slot, so adopting one changes no other model's slot or its session. */
  lemma {:induction false} KeptIsUnheld(v: View, pending: seq<Attempt>, open: seq<Session>, s: Session)
    requires DistinctIds(open)
    requires var cs := Walk(v, pending, open).0; s in Group(open, cs, OwnOpen, s.model) || s in Group(open, cs, Spare, s.model)
    ensures !v.Held(s.id) && Usable(s, v.now) && s.id !in v.marks
  {
    var cs := Walk(v, pending, open).0;
    var i :| 0 <= i < |open| && open[i] == s && (cs[i] == OwnOpen || cs[i] == Spare);
    var before := WalkAt(v, pending, open, i);
  }

  /** The class at i is the class of that session given the attempts the sessions before it left. */
  lemma {:induction false} WalkAt(v: View, pending: seq<Attempt>, open: seq<Session>, i: nat) returns (before: seq<Attempt>)
    requires i < |open|
    ensures before == Walk(v, pending, open[..i]).1
    ensures Walk(v, pending, open).0[i] == ClassOf(v, before, open[i])
  {
    hide ClassOf, MatchOf, Resolve;
    before := Walk(v, pending, open[..i]).1;
    var n := |open| - 1;
    if i < n {
      var b := WalkAt(v, pending, open[..n], i);
      assert open[..n][..i] == open[..i];
    }
  }

  function StateOfAdopted(s: Session, now: Time): Sess {
    NewSess(s.model, FromUnix(s.openedAt), FromUnix(s.endsAt), "", now)
  }

  /** What every model keeps: model -> the session the scan adopts for it. */
  ghost function Keeps(v: View, open: seq<Session>, cs: seq<Class>): map<string, Session>
    requires |cs| == |open|
  {
    map k | k in (set s | s in open :: s.model) && Keep(v, open, cs, k).Some? :: Keep(v, open, cs, k).value
  }

  ghost predicate KeepsDiffer(keeps: map<string, Session>) {
    && (forall k :: k in keeps ==> keeps[k].model == k)
    && (forall j, k :: j in keeps && k in keeps && keeps[j].id == keeps[k].id ==> j == k)
  }

  lemma KeepIsGrouped(v: View, open: seq<Session>, cs: seq<Class>, key: string)
    requires |cs| == |open| && Keep(v, open, cs, key).Some?
    ensures var s := Keep(v, open, cs, key).value;
      s.model == key && s in open && (s in Group(open, cs, OwnOpen, key) || s in Group(open, cs, Spare, key))
  {
  }

  lemma KeepsAreListed(v: View, open: seq<Session>, cs: seq<Class>)
    requires |cs| == |open|
    ensures forall k :: Keep(v, open, cs, k).Some? <==> k in Keeps(v, open, cs)
    ensures forall k :: k in Keeps(v, open, cs) ==> Keep(v, open, cs, k) == Some(Keeps(v, open, cs)[k])
    ensures DistinctIds(open) ==> KeepsDiffer(Keeps(v, open, cs))
  {
    var keeps := Keeps(v, open, cs);
    forall k | Keep(v, open, cs, k).Some? ensures k in keeps && keeps[k].model == k && keeps[k] in open {
      KeepIsGrouped(v, open, cs, k);
      assert k in set s | s in open :: s.model;
    }
  }

  lemma KeepsAt(v: View, open: seq<Session>, cs: seq<Class>, k: string)
    requires |cs| == |open|
    ensures Keep(v, open, cs, k).Some? <==> k in Keeps(v, open, cs)
    ensures k in Keeps(v, open, cs) ==> Keep(v, open, cs, k) == Some(Keeps(v, open, cs)[k])
  {
    KeepsAreListed(v, open, cs);
  }

  /** Slots and lease states once the models in done have adopted what they keep. */
  ghost predicate SlotsSettled(v: View, keeps: map<string, Session>, done: set<string>, entries: map<string, Entry>) {
    && (forall k :: k in entries <==> k in v.entries || (k in done && k in keeps))
    && (forall k :: k in entries ==> entries[k] == if k in done && k in keeps then EntryOf(keeps[k]) else v.entries[k])
  }

  ghost predicate StatesSettled(v: View, keeps: map<string, Session>, done: set<string>, sess: map<string, Sess>) {
    && (forall id :: id in v.sess ==> id in sess && sess[id] == v.sess[id])
    && (forall k :: k in done && k in keeps && keeps[k].id !in v.sess ==>
          keeps[k].id in sess && sess[keeps[k].id] == StateOfAdopted(keeps[k], v.now))
    && (forall id :: id in sess && id !in v.sess ==> exists k :: k in done && k in keeps && keeps[k].id == id)
  }

  ghost predicate Settled(v: View, keeps: map<string, Session>, done: set<string>, entries: map<string, Entry>, sess: map<string, Sess>) {
    SlotsSettled(v, keeps, done, entries) && StatesSettled(v, keeps, done, sess)
  }

  function SlotWith(keeps: map<string, Session>, key: string, entries: map<string, Entry>): map<string, Entry> {
    if key in keeps then entries[key := EntryOf(keeps[key])] else entries
  }

  function StateWith(keeps: map<string, Session>, key: string, sess: map<string, Sess>, now: Time): map<string, Sess> {
    if key in keeps && keeps[key].id !in sess then sess[keeps[key].id := StateOfAdopted(keeps[key], now)] else sess
  }

  /** One more model settled: what it keeps goes into its slot, with a lease state if it had none. */
  lemma SettledStep(v: View, keeps: map<string, Session>, done: set<string>, key: string,
                    entries: map<string, Entry>, sess: map<string, Sess>)
    requires Settled(v, keeps, done, entries, sess) && KeepsDiffer(keeps) && (key !in done || key !in keeps)
    ensures Settled(v, keeps, done + {key}, SlotWith(keeps, key, entries), StateWith(keeps, key, sess, v.now))
  {
    StatesStep(v, keeps, done, key, sess);
  }

  lemma StatesStep(v: View, keeps: map<string, Session>, done: set<string>, key: string, sess: map<string, Sess>)
    requires StatesSettled(v, keeps, done, sess) && KeepsDiffer(keeps) && (key !in done || key !in keeps)
    ensures StatesSettled(v, keeps, done + {key}, StateWith(keeps, key, sess, v.now))
  {
  }

  /** A session of the models in done that its model does not keep. */
  ghost predicate Extra(m: map<string, seq<Session>>, keeps: map<string, Session>, done: set<string>, s: Session) {
    s.model in done && s.model in m && s in m[s.model] && !(s.model in keeps && keeps[s.model] == s)
  }

  ghost function ExtraIds(m: map<string, seq<Session>>, keeps: map<string, Session>, done: set<string>): set<string> {
    set k, s | k in m && s in m[k] && Extra(m, keeps, done, s) :: s.id
  }

  /** The due once the own results of the models in own, and the spare of those in spare, are settled. */
  ghost predicate DueIs(p: Piles, keeps: map<string, Session>, own: set<string>, spare: set<string>, due: seq<Cand>) {
    forall c :: c in due <==>
      (c in p.due || (c.reason == Duplicate && (Extra(p.own, keeps, own, c.s) || Extra(p.spare, keeps, spare, c.s))))
  }

  /** Sessions of one model with different ids; there is at least one. */
  ghost predicate OfModel(ss: seq<Session>, key: string) {
    ss != [] && DistinctIds(ss) && forall s :: s in ss ==> s.model == key
  }

  ghost predicate ByModel(m: map<string, seq<Session>>) {
    forall k :: k in m ==> OfModel(m[k], k)
  }

  ghost predicate Apart(ss: seq<Session>, ts: seq<Session>) {
    forall s :: s in ss ==> s !in ts
  }

  /** keeps is what the models keep, in terms of the piles. */
  ghost predicate KeepsFrom(v: View, p: Piles, keeps: map<string, Session>) {
    && ByModel(p.own) && ByModel(p.spare) && KeepsDiffer(keeps)
    && (forall k :: k in keeps <==> !v.UsableSlot(k) && (k in p.own || k in p.spare))
    && (forall k :: k in keeps ==> keeps[k] == if k in p.own then Best(p.own[k]) else Best(p.spare[k]))
    && (forall k :: k in keeps ==> !v.Held(keeps[k].id))
    && (forall k :: k in p.own && k in p.spare ==> Apart(p.own[k], p.spare[k]))
  }

  lemma {:induction false} GroupOfModel(open: seq<Session>, cs: seq<Class>, c: Class, key: string)
    requires |cs| == |open| && DistinctIds(open) && Group(open, cs, c, key) != []
    ensures OfModel(Group(open, cs, c, key), key)
  {
    var n := |open| - 1;
    var r := Group(open[..n], cs[..n], c, key);
    if r != [] {
      GroupOfModel(open[..n], cs[..n], c, key);
    }
    if cs[n] == c && open[n].model == key {
      forall i | 0 <= i < |r| ensures r[i].id != open[n].id {
        var j :| 0 <= j < n && open[..n][j] == r[i];
      }
    }
  }

  lemma GroupsApart(open: seq<Session>, cs: seq<Class>, c: Class, d: Class, key: string)
    requires |cs| == |open| && DistinctIds(open) && c != d
    ensures Apart(Group(open, cs, c, key), Group(open, cs, d, key))
  {
  }

  lemma PilesByModel(open: seq<Session>, cs: seq<Class>, p: Piles)
    requires DistinctIds(open) && SortedOut(open, cs, p)
    ensures ByModel(p.own) && ByModel(p.spare)
    ensures forall k :: k in p.own && k in p.spare ==> Apart(p.own[k], p.spare[k])
  {
    forall k ensures (k in p.own ==> OfModel(p.own[k], k)) && (k in p.spare ==> OfModel(p.spare[k], k))
      && (k in p.own && k in p.spare ==> Apart(p.own[k], p.spare[k]))
    {
      if k in p.own {
        GroupOfModel(open, cs, OwnOpen, k);
      }
      if k in p.spare {
        GroupOfModel(open, cs, Spare, k);
      }
      GroupsApart(open, cs, OwnOpen, Spare, k);
    }
  }

  lemma KeepsFromPiles(v: View, pending: seq<Attempt>, open: seq<Session>, p: Piles)
    requires DistinctIds(open) && SortedOut(open, Walk(v, pending, open).0, p)
    ensures KeepsFrom(v, p, Keeps(v, open, Walk(v, pending, open).0))
  {
    var cs := Walk(v, pending, open).0;
    var keeps := Keeps(v, open, cs);
    PilesByModel(open, cs, p);
    KeepsAreListed(v, open, cs);
    KeepsAreUnheld(v, pending, open);
    forall k
      ensures k in keeps <==> !v.UsableSlot(k) && (k in p.own || k in p.spare)
      ensures k in keeps ==> keeps[k] == if k in p.own then Best(p.own[k]) else Best(p.spare[k])
    {
      KeepsAt(v, open, cs, k);
    }
  }

  predicate UsableNow(entries: map<string, Entry>, sess: map<string, Sess>, marks: map<string, Mark>, now: Time, key: string) {
    && key in entries && now < entries[key].expiresAt && entries[key].sessionID !in marks
    && (entries[key].sessionID in sess ==> !sess[entries[key].sessionID].retired && !sess[entries[key].sessionID].closing)
  }

  /** Until a model is settled its slot is as usable as when the scan began. */
  lemma UsableIsStable(v: View, keeps: map<string, Session>, done: set<string>, entries: map<string, Entry>, sess: map<string, Sess>,
                       key: string)
    requires Settled(v, keeps, done, entries, sess) && (key !in done || key !in keeps)
    requires forall k :: k in keeps ==> !v.Held(keeps[k].id)
    ensures UsableNow(entries, sess, v.marks, v.now, key) == v.UsableSlot(key)
  {
    if key in v.entries {
      assert v.InSlot(v.entries[key].sessionID);
    }
  }

  lemma KeepsAreUnheld(v: View, pending: seq<Attempt>, open: seq<Session>)
    requires DistinctIds(open)
    ensures var keeps := Keeps(v, open, Walk(v, pending, open).0);
      forall k :: k in keeps ==> !v.Held(keeps[k].id) && Usable(keeps[k], v.now) && keeps[k].id !in v.marks
  {
    var cs := Walk(v, pending, open).0;
    forall k | k in Keeps(v, open, cs)
      ensures var s := Keeps(v, open, cs)[k]; !v.Held(s.id) && Usable(s, v.now) && s.id !in v.marks
    {
      KeepIsGrouped(v, open, cs, k);
      KeptIsUnheld(v, pending, open, Keeps(v, open, cs)[k]);
    }
  }

  /** The duplicates among ss, in order: all but the session with id keepID. */
  function Dups(ss: seq<Session>, keepID: Option<string>): (r: seq<Cand>)
    ensures forall c :: c in r <==> c.reason == Duplicate && c.s in ss && keepID != Some(c.s.id)
  {
    if ss == [] then []
    else
      var s, r := ss[|ss| - 1], Dups(ss[..|ss| - 1], keepID);
      if keepID != Some(s.id) then r + [Cand(s, Duplicate)] else r
  }

  function DupIds(ss: seq<Session>, keepID: Option<string>): set<string> {
    set s | s in ss && keepID != Some(s.id) :: s.id
  }

  lemma NoDups(keepID: Option<string>)
    ensures Dups([], keepID) == [] && DupIds([], keepID) == {}
  {
  }

  lemma DupsNext(ss: seq<Session>, i: nat, keepID: Option<string>)
    requires i < |ss|
    ensures Dups(ss[..i + 1], keepID) == Dups(ss[..i], keepID) + if keepID != Some(ss[i].id) then [Cand(ss[i], Duplicate)] else []
    ensures DupIds(ss[..i + 1], keepID) == DupIds(ss[..i], keepID) + if keepID != Some(ss[i].id) then {ss[i].id} else {}
  {
    assert ss[..i + 1][..i] == ss[..i];
    assert ss[..i + 1] == ss[..i] + [ss[i]];
  }

  function KeepID(keeps: map<string, Session>, key: string): Option<string> {
    if key in keeps then Some(keeps[key].id) else None
  }

  /** What keepID names is the one of m[key] that is kept, if any is. */
  ghost predicate Fits(m: map<string, seq<Session>>, keeps: map<string, Session>, key: string, keepID: Option<string>) {
    && key in m && OfModel(m[key], key)
    && (keepID.Some? ==> key in keeps && keeps[key] in m[key] && keepID == Some(keeps[key].id))
    && (keepID.None? && key in keeps ==> keeps[key] !in m[key])
  }

  /** One more model done adds exactly its own sessions, bar the one it keeps. */
  lemma ExtraStep(m: map<string, seq<Session>>, keeps: map<string, Session>, done: set<string>, key: string, keepID: Option<string>, s: Session)
    requires Fits(m, keeps, key, keepID)
    ensures Extra(m, keeps, done + {key}, s) <==> Extra(m, keeps, done, s) || (s in m[key] && keepID != Some(s.id))
  {
    if s in m[key] && keepID == Some(s.id) {
      var i, j :| 0 <= i < |m[key]| && 0 <= j < |m[key]| && m[key][i] == s && m[key][j] == keeps[key];
      assert i == j;
    }
  }

  lemma DueStep(m: map<string, seq<Session>>, keeps: map<string, Session>, done: set<string>, key: string, keepID: Option<string>)
    requires Fits(m, keeps, key, keepID)
    ensures forall s :: Extra(m, keeps, done + {key}, s) <==> Extra(m, keeps, done, s) || Cand(s, Duplicate) in Dups(m[key], keepID)
    ensures ExtraIds(m, keeps, done + {key}) == ExtraIds(m, keeps, done) + DupIds(m[key], keepID)
  {
    forall s ensures Extra(m, keeps, done + {key}, s) <==> Extra(m, keeps, done, s) || (s in m[key] && keepID != Some(s.id)) {
      ExtraStep(m, keeps, done, key, keepID, s);
    }
    var a, b := ExtraIds(m, keeps, done + {key}), ExtraIds(m, keeps, done) + DupIds(m[key], keepID);
    forall id | id in DupIds(m[key], keepID) ensures id in a {
      var s :| s in m[key] && keepID != Some(s.id) && s.id == id;
      assert Extra(m, keeps, done + {key}, s);
    }
    forall id | id in ExtraIds(m, keeps, done) ensures id in a {
      var k, s :| k in m && s in m[k] && Extra(m, keeps, done, s) && s.id == id;
      assert Extra(m, keeps, done + {key}, s);
    }
    forall id | id in a ensures id in b {
      var k, s :| k in m && s in m[k] && Extra(m, keeps, done + {key}, s) && s.id == id;
    }
  }

  lemma KeepIDFits(v: View, p: Piles, keeps: map<string, Session>, key: string)
    requires KeepsFrom(v, p, keeps)
    ensures key in p.own ==> Fits(p.own, keeps, key, KeepID(keeps, key))
    ensures key in p.spare ==> Fits(p.spare, keeps, key, if key in p.own then None else KeepID(keeps, key))
    ensures key in p.own ==> (v.UsableSlot(key) <==> key !in keeps)
    ensures key in p.own && key in keeps ==> keeps[key] == Best(p.own[key]) && keeps[key].model == key
  {
  }

  lemma OwnStep(p: Piles, keeps: map<string, Session>, own: set<string>, spare: set<string>, due: seq<Cand>, key: string, keepID: Option<string>)
    requires Fits(p.own, keeps, key, keepID) && DueIs(p, keeps, own, spare, due)
    ensures DueIs(p, keeps, own + {key}, spare, due + Dups(p.own[key], keepID))
  {
    DueStep(p.own, keeps, own, key, keepID);
  }

  lemma SpareStep(p: Piles, keeps: map<string, Session>, own: set<string>, spare: set<string>, due: seq<Cand>, key: string, keepID: Option<string>)
    requires Fits(p.spare, keeps, key, keepID) && DueIs(p, keeps, own, spare, due)
    ensures DueIs(p, keeps, own, spare + {key}, due + Dups(p.spare[key], keepID))
  {
    DueStep(p.spare, keeps, spare, key, keepID);
  }

  /** The pool's slots, lease states and known extras while the models are settled, and what is due so far. */
  datatype Work = Work(entries: map<string, Entry>, sess: map<string, Sess>, known: set<string>,
                       due: seq<Cand>, spare: map<string, seq<Session>>, adopted: nat)
  {
    function Take(keep: Session, now: Time): Work {
      this.(entries := entries[keep.model := EntryOf(keep)],
            sess := if keep.id in sess then sess else sess[keep.id := StateOfAdopted(keep, now)],
            adopted := adopted + 1)
    }
  }

  function SettleOwn(w: Work, own: map<string, seq<Session>>, marks: map<string, Mark>, now: Time, key: string): Work
    requires key in own && own[key] != []
  {
    var ss := own[key];
    if UsableNow(w.entries, w.sess, marks, now, key) then
      w.(due := w.due + Dups(ss, None), known := w.known + DupIds(ss, None))
    else
      var keep := Best(ss);
      var t := w.Take(keep, now);
      var u := t.(due := t.due + Dups(ss, Some(keep.id)), known := t.known + DupIds(ss, Some(keep.id)));
      if key in u.spare then u.(due := u.due + Dups(u.spare[key], None), spare := u.spare - {key}) else u
  }

  function SettleSpare(w: Work, marks: map<string, Mark>, now: Time, key: string): Work
    requires key in w.spare && w.spare[key] != []
  {
    var ss := w.spare[key];
    if UsableNow(w.entries, w.sess, marks, now, key) then w.(due := w.due + Dups(ss, None))
    else
      var t := w.Take(Best(ss), now);
      t.(due := t.due + Dups(ss, Some(Best(ss).id)))
  }

  /** The spare of the models whose own results, among those in done, left them without an adoption. */
  function SpareLeft(p: Piles, keeps: map<string, Session>, done: set<string>): map<string, seq<Session>> {
    map k | k in p.spare && !(k in done && k in keeps) :: p.spare[k]
  }

  ghost predicate OwnInv(v: View, p: Piles, keeps: map<string, Session>, done: set<string>, w: Work) {
    && Settled(v, keeps, done, w.entries, w.sess)
    && DueIs(p, keeps, done, done * p.spare.Keys * keeps.Keys, w.due)
    && w.spare == SpareLeft(p, keeps, done)
    && w.known == v.knownDup + ExtraIds(p.own, keeps, done)
    && w.adopted == |done * keeps.Keys|
  }

  lemma OwnInvStart(v: View, p: Piles, keeps: map<string, Session>)
    ensures OwnInv(v, p, keeps, {}, Work(v.entries, v.sess, v.knownDup, p.due, p.spare, 0))
  {
    hide DueIs, Settled, ExtraIds, SpareLeft;
    assert {} * keeps.Keys == {};
    SettledAtStart(v, p, keeps);
    NothingLeftOut(p, keeps);
  }

  lemma NothingLeftOut(p: Piles, keeps: map<string, Session>)
    ensures ExtraIds(p.own, keeps, {}) == {} && SpareLeft(p, keeps, {}) == p.spare
  {
  }

  lemma SettledAtStart(v: View, p: Piles, keeps: map<string, Session>)
    ensures DueIs(p, keeps, {}, {} * p.spare.Keys * keeps.Keys, p.due) && Settled(v, keeps, {}, v.entries, v.sess)
  {
  }

  /** What settling one model's own results comes to, in terms of what it keeps. */
  function OwnSettled(w: Work, own: map<string, seq<Session>>, keeps: map<string, Session>, now: Time, key: string): Work
    requires key in own
  {
    var id := KeepID(keeps, key);
    var drop := key in keeps && key in w.spare;
    Work(SlotWith(keeps, key, w.entries), StateWith(keeps, key, w.sess, now), w.known + DupIds(own[key], id),
         w.due + Dups(own[key], id) + (if drop then Dups(w.spare[key], None) else []),
         if drop then w.spare - {key} else w.spare,
         if key in keeps then w.adopted + 1 else w.adopted)
  }

  lemma OwnForm(v: View, p: Piles, keeps: map<string, Session>, w: Work, key: string)
    requires Fits(p.own, keeps, key, KeepID(keeps, key))
    requires UsableNow(w.entries, w.sess, v.marks, v.now, key) <==> key !in keeps
    requires key in keeps ==> keeps[key] == Best(p.own[key]) && keeps[key].model == key
    ensures SettleOwn(w, p.own, v.marks, v.now, key) == OwnSettled(w, p.own, keeps, v.now, key)
  {
    assert w.due + Dups(p.own[key], KeepID(keeps, key)) + [] == w.due + Dups(p.own[key], KeepID(keeps, key));
  }

  lemma OwnDue(p: Piles, keeps: map<string, Session>, done: set<string>, due: seq<Cand>, key: string)
    requires Fits(p.own, keeps, key, KeepID(keeps, key)) && key !in done
    requires key in keeps && key in p.spare ==> Fits(p.spare, keeps, key, None)
    requires DueIs(p, keeps, done, done * p.spare.Keys * keeps.Keys, due)
    ensures DueIs(p, keeps, done + {key}, (done + {key}) * p.spare.Keys * keeps.Keys,
                  due + Dups(p.own[key], KeepID(keeps, key))
                  + (if key in keeps && key in p.spare then Dups(p.spare[key], None) else []))
  {
    var before, after := done * p.spare.Keys * keeps.Keys, (done + {key}) * p.spare.Keys * keeps.Keys;
    OwnStep(p, keeps, done, before, due, key, KeepID(keeps, key));
    var due1 := due + Dups(p.own[key], KeepID(keeps, key));
    if key in keeps && key in p.spare {
      SpareStep(p, keeps, done + {key}, before, due1, key, None);
      assert after == before + {key};
    } else {
      assert after == before;
      assert due1 + [] == due1;
    }
  }

  lemma AdoptedStep(done: set<string>, keys: set<string>, key: string)
    requires key !in done
    ensures |(done + {key}) * keys| == |done * keys| + (if key in keys then 1 else 0)
  {
    if key in keys {
      assert (done + {key}) * keys == done * keys + {key};
    } else {
      assert (done + {key}) * keys == done * keys;
    }
  }

  lemma SpareLeftStep(p: Piles, keeps: map<string, Session>, done: set<string>, key: string)
    requires key !in done
    ensures key in SpareLeft(p, keeps, done) <==> key in p.spare
    ensures SpareLeft(p, keeps, done + {key}) ==
      if key in keeps && key in p.spare then SpareLeft(p, keeps, done) - {key} else SpareLeft(p, keeps, done)
  {
    var a, b := SpareLeft(p, keeps, done), SpareLeft(p, keeps, done + {key});
    assert forall k :: k in b <==> k in a && !(k == key && key in keeps);
  }

  lemma OwnFormOf(v: View, p: Piles, keeps: map<string, Session>, done: set<string>, w: Work, key: string)
    requires KeepsFrom(v, p, keeps) && Settled(v, keeps, done, w.entries, w.sess) && key in p.own && key !in done
    ensures OfModel(p.own[key], key)
    ensures SettleOwn(w, p.own, v.marks, v.now, key) == OwnSettled(w, p.own, keeps, v.now, key)
  {
    UsableIsStable(v, keeps, done, w.entries, w.sess, key);
    KeepIDFits(v, p, keeps, key);
    OwnForm(v, p, keeps, w, key);
  }

  lemma OwnDueOf(v: View, p: Piles, keeps: map<string, Session>, done: set<string>, due: seq<Cand>, key: string)
    requires KeepsFrom(v, p, keeps) && key in p.own && key !in done
    requires DueIs(p, keeps, done, done * p.spare.Keys * keeps.Keys, due)
    ensures DueIs(p, keeps, done + {key}, (done + {key}) * p.spare.Keys * keeps.Keys,
                  due + Dups(p.own[key], KeepID(keeps, key))
                  + (if key in keeps && key in p.spare then Dups(p.spare[key], None) else []))
    ensures ExtraIds(p.own, keeps, done + {key}) == ExtraIds(p.own, keeps, done) + DupIds(p.own[key], KeepID(keeps, key))
  {
    KeepIDFits(v, p, keeps, key);
    OwnDue(p, keeps, done, due, key);
    DueStep(p.own, keeps, done, key, KeepID(keeps, key));
  }

  lemma OwnJoin(v: View, p: Piles, keeps: map<string, Session>, done: set<string>, w: Work, key: string)
    requires key in p.own && key !in done
    requires w.spare == SpareLeft(p, keeps, done) && w.adopted == |done * keeps.Keys|
    requires w.known == v.knownDup + ExtraIds(p.own, keeps, done)
    requires Settled(v, keeps, done + {key}, SlotWith(keeps, key, w.entries), StateWith(keeps, key, w.sess, v.now))
    requires DueIs(p, keeps, done + {key}, (done + {key}) * p.spare.Keys * keeps.Keys,
                   w.due + Dups(p.own[key], KeepID(keeps, key))
                   + (if key in keeps && key in p.spare then Dups(p.spare[key], None) else []))
    requires ExtraIds(p.own, keeps, done + {key}) == ExtraIds(p.own, keeps, done) + DupIds(p.own[key], KeepID(keeps, key))
    ensures OwnInv(v, p, keeps, done + {key}, OwnSettled(w, p.own, keeps, v.now, key))
  {
    AdoptedStep(done, keeps.Keys, key);
    SpareLeftStep(p, keeps, done, key);
  }

  lemma OwnInvStep(v: View, p: Piles, keeps: map<string, Session>, done: set<string>, w: Work, key: string)
    requires KeepsFrom(v, p, keeps) && OwnInv(v, p, keeps, done, w) && key in p.own && key !in done
    ensures OfModel(p.own[key], key)
    ensures OwnInv(v, p, keeps, done + {key}, SettleOwn(w, p.own, v.marks, v.now, key))
  {
    OwnFormOf(v, p, keeps, done, w, key);
    SettledStep(v, keeps, done, key, w.entries, w.sess);
    OwnDueOf(v, p, keeps, done, w.due, key);
    OwnJoin(v, p, keeps, done, w, key);
  }

  /** Models whose older sessions became duplicates when one of their own opens was adopted. */
  ghost function Freed(p: Piles, keeps: map<string, Session>): set<string> {
    p.own.Keys * p.spare.Keys * keeps.Keys
  }

  ghost predicate SpareInv(v: View, p: Piles, keeps: map<string, Session>, done: set<string>, w: Work) {
    && Settled(v, keeps, p.own.Keys + done, w.entries, w.sess)
    && DueIs(p, keeps, p.own.Keys, Freed(p, keeps) + done, w.due)
    && w.spare == SpareLeft(p, keeps, p.own.Keys)
    && w.known == v.knownDup + ExtraIds(p.own, keeps, p.own.Keys)
    && w.adopted == |(p.own.Keys + done) * keeps.Keys|
  }

  lemma SpareInvStart(v: View, p: Piles, keeps: map<string, Session>, w: Work)
    requires OwnInv(v, p, keeps, p.own.Keys, w)
    ensures SpareInv(v, p, keeps, {}, w)
  {
    assert p.own.Keys + {} == p.own.Keys && Freed(p, keeps) + {} == Freed(p, keeps);
  }

  function SpareSettled(w: Work, keeps: map<string, Session>, now: Time, key: string): Work
    requires key in w.spare
  {
    w.(entries := SlotWith(keeps, key, w.entries), sess := StateWith(keeps, key, w.sess, now),
       due := w.due + Dups(w.spare[key], KeepID(keeps, key)),
       adopted := if key in keeps then w.adopted + 1 else w.adopted)
  }

  lemma SpareFits(v: View, p: Piles, keeps: map<string, Session>, key: string)
    requires KeepsFrom(v, p, keeps) && key in SpareLeft(p, keeps, p.own.Keys)
    ensures Fits(p.spare, keeps, key, KeepID(keeps, key))
    ensures v.UsableSlot(key) <==> key !in keeps
    ensures key in keeps ==> keeps[key] == Best(p.spare[key]) && keeps[key].model == key && key !in p.own
  {
  }

  lemma KeptAreUnheld(v: View, p: Piles, keeps: map<string, Session>)
    requires KeepsFrom(v, p, keeps)
    ensures forall k :: k in keeps ==> !v.Held(keeps[k].id)
  {
  }

  lemma SpareForm(v: View, p: Piles, keeps: map<string, Session>, done: set<string>, w: Work, key: string)
    requires KeepsFrom(v, p, keeps) && w.spare == SpareLeft(p, keeps, p.own.Keys) && key in w.spare && key !in done
    requires Settled(v, keeps, p.own.Keys + done, w.entries, w.sess)
    ensures OfModel(w.spare[key], key)
    ensures SettleSpare(w, v.marks, v.now, key) == SpareSettled(w, keeps, v.now, key)
  {
    hide KeepsFrom, Settled, DueIs;
    SpareFits(v, p, keeps, key);
    KeptAreUnheld(v, p, keeps);
    UsableIsStable(v, keeps, p.own.Keys + done, w.entries, w.sess, key);
  }

  lemma SpareDue(v: View, p: Piles, keeps: map<string, Session>, done: set<string>, due: seq<Cand>, key: string)
    requires KeepsFrom(v, p, keeps) && key in SpareLeft(p, keeps, p.own.Keys)
    requires DueIs(p, keeps, p.own.Keys, Freed(p, keeps) + done, due)
    ensures DueIs(p, keeps, p.own.Keys, Freed(p, keeps) + (done + {key}), due + Dups(p.spare[key], KeepID(keeps, key)))
  {
    SpareFits(v, p, keeps, key);
    SpareStep(p, keeps, p.own.Keys, Freed(p, keeps) + done, due, key, KeepID(keeps, key));
    assert Freed(p, keeps) + (done + {key}) == (Freed(p, keeps) + done) + {key};
  }

  lemma SpareJoin(v: View, p: Piles, keeps: map<string, Session>, done: set<string>, w: Work, key: string)
    requires key in w.spare && w.spare == SpareLeft(p, keeps, p.own.Keys) && key !in done
    requires w.known == v.knownDup + ExtraIds(p.own, keeps, p.own.Keys) && w.adopted == |(p.own.Keys + done) * keeps.Keys|
    requires key in keeps ==> key !in p.own
    requires Settled(v, keeps, p.own.Keys + done + {key}, SlotWith(keeps, key, w.entries), StateWith(keeps, key, w.sess, v.now))
    requires DueIs(p, keeps, p.own.Keys, Freed(p, keeps) + (done + {key}), w.due + Dups(p.spare[key], KeepID(keeps, key)))
    ensures SpareInv(v, p, keeps, done + {key}, SpareSettled(w, keeps, v.now, key))
  {
    hide Settled, DueIs, ExtraIds, KeepsFrom;
    var all := p.own.Keys + done;
    assert p.own.Keys + (done + {key}) == all + {key};
    if key in all {
      assert all + {key} == all;
    } else {
      AdoptedStep(all, keeps.Keys, key);
    }
  }

  lemma SpareInvStep(v: View, p: Piles, keeps: map<string, Session>, done: set<string>, w: Work, key: string)
    requires KeepsFrom(v, p, keeps) && SpareInv(v, p, keeps, done, w) && key in w.spare && key !in done
    ensures OfModel(w.spare[key], key)
    ensures SpareInv(v, p, keeps, done + {key}, SettleSpare(w, v.marks, v.now, key))
  {
    SpareForm(v, p, keeps, done, w, key);
    SpareFits(v, p, keeps, key);
    SettledStep(v, keeps, p.own.Keys + done, key, w.entries, w.sess);
    SpareDue(v, p, keeps, done, w.due, key);
    SpareJoin(v, p, keeps, done, w, key);
  }

  /** The verdicts, read off the piles: a due candidate has that verdict. */
  lemma DueHasVerdict(v: View, open: seq<Session>, cs: seq<Class>, p: Piles, spare: set<string>, c: Cand)
    requires SortedOut(open, cs, p)
    requires c in p.due || (c.reason == Duplicate
      && (Extra(p.own, Keeps(v, open, cs), p.own.Keys, c.s) || Extra(p.spare, Keeps(v, open, cs), spare, c.s)))
    ensures IsDue(v, open, cs, c)
  {
    hide DueIs, Keeps, Keep;
    var k := c.s.model;
    KeepsAt(v, open, cs, k);
    if c in p.due {
      var i :| 0 <= i < |open| && open[i] == c.s && DirectReason(cs[i]) == Some(c.reason);
      assert VerdictOf(v, open, cs, i) == Due(c.reason);
    } else if Extra(p.own, Keeps(v, open, cs), p.own.Keys, c.s) {
      assert c.s in Group(open, cs, OwnOpen, k);
      var i :| 0 <= i < |open| && open[i] == c.s && cs[i] == OwnOpen;
      assert VerdictOf(v, open, cs, i) == Due(Duplicate);
    } else {
      assert c.s in Group(open, cs, Spare, k);
      var i :| 0 <= i < |open| && open[i] == c.s && cs[i] == Spare;
      assert VerdictOf(v, open, cs, i) == Due(Duplicate);
    }
  }

  lemma VerdictIsDue(v: View, open: seq<Session>, cs: seq<Class>, p: Piles, spare: set<string>, c: Cand)
    requires SortedOut(open, cs, p) && p.spare.Keys <= spare && IsDue(v, open, cs, c)
    ensures c in p.due || (c.reason == Duplicate
      && (Extra(p.own, Keeps(v, open, cs), p.own.Keys, c.s) || Extra(p.spare, Keeps(v, open, cs), spare, c.s)))
  {
    hide Keep, View.UsableSlot;
    var k := c.s.model;
    var i :| 0 <= i < |open| && open[i] == c.s && VerdictOf(v, open, cs, i) == Due(c.reason);
    if cs[i] == OwnOpen || cs[i] == Spare {
      KeepsAt(v, open, cs, k);
      assert c.s in Group(open, cs, cs[i], k);
    } else {
      assert DirectReason(cs[i]) == Some(c.reason);
      assert c in p.due;
    }
  }

  lemma DueIsVerdict(v: View, open: seq<Session>, cs: seq<Class>, p: Piles, spare: set<string>, due: seq<Cand>)
    requires SortedOut(open, cs, p) && p.spare.Keys <= spare && DueIs(p, Keeps(v, open, cs), p.own.Keys, spare, due)
    ensures forall c :: c in due <==> IsDue(v, open, cs, c)
  {
    forall c ensures c in due <==> IsDue(v, open, cs, c) {
      if c in due {
        DueHasVerdict(v, open, cs, p, spare, c);
      }
      if IsDue(v, open, cs, c) {
        VerdictIsDue(v, open, cs, p, spare, c);
      }
    }
  }

  predicate NoneEmpty(m: map<string, seq<Session>>) {
    forall k :: k in m ==> m[k] != []
  }

  ghost predicate OrderOf(order: seq<string>, keys: set<string>) {
    && (forall i, j :: 0 <= i < j < |order| ==> order[i] != order[j])
    && (forall k :: k in order <==> k in keys)
  }

  /** The models settled one after the other. */
  function SettleOwns(w: Work, own: map<string, seq<Session>>, marks: map<string, Mark>, now: Time, order: seq<string>): (r: Work)
    requires NoneEmpty(own) && forall k :: k in order ==> k in own
    ensures forall k :: k in r.spare ==> k in w.spare && r.spare[k] == w.spare[k]
  {
    if order == [] then w
    else
      var n := |order| - 1;
      SettleOwn(SettleOwns(w, own, marks, now, order[..n]), own, marks, now, order[n])
  }

  /** The same for the spare, which settling does not change. */
  function SettleSpares(w: Work, marks: map<string, Mark>, now: Time, order: seq<string>): (r: Work)
    requires NoneEmpty(w.spare) && forall k :: k in order ==> k in w.spare
    ensures r.spare == w.spare
  {
    if order == [] then w
    else
      var n := |order| - 1;
      SettleSpare(SettleSpares(w, marks, now, order[..n]), marks, now, order[n])
  }

  function KeySet(order: seq<string>): set<string> {
    set k | k in order
  }

  lemma KeySetStep(order: seq<string>)
    requires order != []
    ensures KeySet(order) == KeySet(order[..|order| - 1]) + {order[|order| - 1]}
  {
    assert order == order[..|order| - 1] + [order[|order| - 1]];
  }

  lemma {:induction false} SettleOwnsInv(v: View, p: Piles, keeps: map<string, Session>, w: Work, order: seq<string>)
    requires KeepsFrom(v, p, keeps) && NoneEmpty(p.own) && OwnInv(v, p, keeps, {}, w)
    requires forall k :: k in order ==> k in p.own
    requires forall i, j :: 0 <= i < j < |order| ==> order[i] != order[j]
    ensures OwnInv(v, p, keeps, KeySet(order), SettleOwns(w, p.own, v.marks, v.now, order))
  {
    hide KeepsFrom, OwnInv, SettleOwn;
    if order == [] {
      assert KeySet(order) == {};
    } else {
      var n := |order| - 1;
      SettleOwnsInv(v, p, keeps, w, order[..n]);
      KeySetStep(order);
      OwnInvStep(v, p, keeps, KeySet(order[..n]), SettleOwns(w, p.own, v.marks, v.now, order[..n]), order[n]);
    }
  }

  lemma {:induction false} SettleSparesInv(v: View, p: Piles, keeps: map<string, Session>, w: Work, order: seq<string>)
    requires KeepsFrom(v, p, keeps) && NoneEmpty(w.spare) && SpareInv(v, p, keeps, {}, w)
    requires forall k :: k in order ==> k in w.spare
    requires forall i, j :: 0 <= i < j < |order| ==> order[i] != order[j]
    ensures SpareInv(v, p, keeps, KeySet(order), SettleSpares(w, v.marks, v.now, order))
  {
    hide KeepsFrom, SpareInv, SettleSpare;
    if order == [] {
      assert KeySet(order) == {};
    } else {
      var n := |order| - 1;
      SettleSparesInv(v, p, keeps, w, order[..n]);
      KeySetStep(order);
      SpareInvStep(v, p, keeps, KeySet(order[..n]), SettleSpares(w, v.marks, v.now, order[..n]), order[n]);
    }
  }

  /** Every model settled, in whatever order the two loops take them: slots, lease states, extras, count and verdicts. */
  ghost predicate ScanDone(v: View, open: seq<Session>, cs: seq<Class>, own: map<string, seq<Session>>, w: Work)
    requires |cs| == |open|
  {
    var keeps := Keeps(v, open, cs);
    && SlotsSettled(v, keeps, keeps.Keys, w.entries) && StatesSettled(v, keeps, keeps.Keys, w.sess)
    && w.known == v.knownDup + ExtraIds(own, keeps, own.Keys)
    && w.adopted == |keeps|
    && (forall c :: c in w.due <==> IsDue(v, open, cs, c))
  }

  lemma SettledAll(v: View, keeps: map<string, Session>, done: set<string>, entries: map<string, Entry>, sess: map<string, Sess>)
    requires Settled(v, keeps, done, entries, sess) && keeps.Keys <= done
    ensures SlotsSettled(v, keeps, keeps.Keys, entries) && StatesSettled(v, keeps, keeps.Keys, sess)
  {
  }

  lemma ScanDoneFrom(v: View, open: seq<Session>, cs: seq<Class>, p: Piles, keeps: map<string, Session>, done: set<string>, w: Work)
    requires SortedOut(open, cs, p) && keeps == Keeps(v, open, cs) && SpareInv(v, p, keeps, done, w)
    requires keeps.Keys <= p.own.Keys + done && p.spare.Keys <= Freed(p, keeps) + done
    ensures ScanDone(v, open, cs, p.own, w)
  {
    hide DueIs, IsDue, SlotsSettled, StatesSettled, SortedOut, Keeps, ExtraIds;
    SettledAll(v, keeps, p.own.Keys + done, w.entries, w.sess);
    assert (p.own.Keys + done) * keeps.Keys == keeps.Keys;
    DueIsVerdict(v, open, cs, p, Freed(p, keeps) + done, w.due);
  }

  lemma KeySetOf(order: seq<string>, keys: set<string>)
    requires OrderOf(order, keys)
    ensures KeySet(order) == keys
  {
  }

  lemma AllSettled(v: View, pending: seq<Attempt>, open: seq<Session>, p: Piles, ownOrder: seq<string>, spareOrder: seq<string>)
    requires DistinctIds(open) && SortedOut(open, Walk(v, pending, open).0, p)
    requires NoneEmpty(p.own) && NoneEmpty(p.spare) && OrderOf(ownOrder, p.own.Keys)
    requires var w := SettleOwns(Work(v.entries, v.sess, v.knownDup, p.due, p.spare, 0), p.own, v.marks, v.now, ownOrder);
      NoneEmpty(w.spare) && OrderOf(spareOrder, w.spare.Keys)
    ensures var w := SettleOwns(Work(v.entries, v.sess, v.knownDup, p.due, p.spare, 0), p.own, v.marks, v.now, ownOrder);
      ScanDone(v, open, Walk(v, pending, open).0, p.own, SettleSpares(w, v.marks, v.now, spareOrder))
  {
    hide KeepsFrom, SortedOut, SettleOwns, SettleSpares, Walk, Keeps, DueIs, Settled, ScanDone, DistinctIds;
    var cs := Walk(v, pending, open).0;
    var keeps := Keeps(v, open, cs);
    var w0 := Work(v.entries, v.sess, v.knownDup, p.due, p.spare, 0);
    var w1 := SettleOwns(w0, p.own, v.marks, v.now, ownOrder);
    var w2 := SettleSpares(w1, v.marks, v.now, spareOrder);
    KeepsFromPiles(v, pending, open, p);
    OwnInvStart(v, p, keeps);
    SettleOwnsInv(v, p, keeps, w0, ownOrder);
    KeySetOf(ownOrder, p.own.Keys);
    SpareInvStart(v, p, keeps, w1);
    SettleSparesInv(v, p, keeps, w1, spareOrder);
    KeySetOf(spareOrder, w1.spare.Keys);
    CoversKeeps(v, p, keeps);
    ScanDoneFrom(v, open, cs, p, keeps, w1.spare.Keys, w2);
  }

  lemma CoversKeeps(v: View, p: Piles, keeps: map<string, Session>)
    requires KeepsFrom(v, p, keeps)
    ensures keeps.Keys <= p.own.Keys + SpareLeft(p, keeps, p.own.Keys).Keys
    ensures p.spare.Keys <= Freed(p, keeps) + SpareLeft(p, keeps, p.own.Keys).Keys
  {
  }

  // What the whole scan leaves behind.

  /** The slots after the scan: what SlotAfter says, less the ones dropped. */
  ghost predicate SlotsAfter(v: View, open: seq<Session>, cs: seq<Class>, scanStart: Time, entries: map<string, Entry>)
    requires |cs| == |open|
  {
    forall k ::
      (k in entries <==>
        SlotAfter(v, open, cs, k).Some? && !Drops(v, ListedIds(open), scanStart, SlotAfter(v, open, cs, k).value))
      && (k in entries ==> Some(entries[k]) == SlotAfter(v, open, cs, k))
  }

  predicate DropsNow(sess: map<string, Sess>, listed: set<string>, scanStart: Time, e: Entry) {
    e.sessionID !in listed
    && !(e.sessionID in sess && (sess[e.sessionID].inflight > 0 || sess[e.sessionID].openedAt > scanStart - PRUNE_GRACE))
  }

  /** The slots once all but those in keys were looked at. */
  ghost function SlotsUntil(entries: map<string, Entry>, keys: set<string>, sess: map<string, Sess>, listed: set<string>, scanStart: Time)
    : map<string, Entry>
  {
    map k | k in entries && (k in keys || !DropsNow(sess, listed, scanStart, entries[k])) :: entries[k]
  }

  lemma SlotsUntilAll(entries: map<string, Entry>, sess: map<string, Sess>, listed: set<string>, scanStart: Time)
    ensures SlotsUntil(entries, entries.Keys, sess, listed, scanStart) == entries
  {
  }

  lemma SlotsUntilNone(entries: map<string, Entry>, sess: map<string, Sess>, listed: set<string>, scanStart: Time)
    ensures SlotsUntil(entries, {}, sess, listed, scanStart)
      == map k | k in entries && !DropsNow(sess, listed, scanStart, entries[k]) :: entries[k]
  {
  }

  lemma SlotsUntilNext(entries: map<string, Entry>, keys: set<string>, k: string, sess: map<string, Sess>, listed: set<string>,
                       scanStart: Time)
    requires k in keys && k in entries
    ensures var m := SlotsUntil(entries, keys, sess, listed, scanStart);
      && k in m && m[k] == entries[k]
      && SlotsUntil(entries, keys - {k}, sess, listed, scanStart) == (if DropsNow(sess, listed, scanStart, entries[k]) then m - {k} else m)
  {
  }

  /** Adopting first does not change which slots are dropped: what was adopted is listed. */
  lemma DropsSettled(v: View, open: seq<Session>, cs: seq<Class>, sess: map<string, Sess>, scanStart: Time, e: Entry)
    requires |cs| == |open| && StatesSettled(v, Keeps(v, open, cs), Keeps(v, open, cs).Keys, sess)
    ensures DropsNow(sess, ListedIds(open), scanStart, e) <==> Drops(v, ListedIds(open), scanStart, e)
  {
    var keeps := Keeps(v, open, cs);
    if e.sessionID in sess && e.sessionID !in v.sess {
      var k :| k in keeps && keeps[k].id == e.sessionID;
      KeepsAt(v, open, cs, k);
      KeepIsGrouped(v, open, cs, k);
    }
  }

  lemma SlotsDropped(v: View, open: seq<Session>, cs: seq<Class>, scanStart: Time, settled: map<string, Entry>, sess: map<string, Sess>,
                     entries: map<string, Entry>)
    requires |cs| == |open|
    requires SlotsSettled(v, Keeps(v, open, cs), Keeps(v, open, cs).Keys, settled)
    requires StatesSettled(v, Keeps(v, open, cs), Keeps(v, open, cs).Keys, sess)
    requires entries == map k | k in settled && !DropsNow(sess, ListedIds(open), scanStart, settled[k]) :: settled[k]
    ensures SlotsAfter(v, open, cs, scanStart, entries)
  {
    hide Keeps, StatesSettled, Keep, Drops, DropsNow;
    forall k
      ensures k in settled <==> SlotAfter(v, open, cs, k).Some?
      ensures k in settled ==> Some(settled[k]) == SlotAfter(v, open, cs, k)
      ensures k in settled ==>
        (DropsNow(sess, ListedIds(open), scanStart, settled[k]) <==> Drops(v, ListedIds(open), scanStart, settled[k]))
    {
      KeepsAt(v, open, cs, k);
      if k in settled {
        DropsSettled(v, open, cs, sess, scanStart, settled[k]);
      }
    }
  }

  /** The results of our own opens that a model does not keep. */
  ghost function OwnExtras(v: View, open: seq<Session>, cs: seq<Class>): set<string>
    requires |cs| == |open|
  {
    set i | 0 <= i < |open| && cs[i].OwnOpen? && VerdictOf(v, open, cs, i) == Due(Duplicate) :: open[i].id
  }

  lemma ExtraIsOwn(v: View, open: seq<Session>, cs: seq<Class>, p: Piles, s: Session)
    requires SortedOut(open, cs, p) && Extra(p.own, Keeps(v, open, cs), p.own.Keys, s)
    ensures s.id in OwnExtras(v, open, cs)
  {
    hide Keeps, Keep, DirectDue, OwnIds;
    KeepsAt(v, open, cs, s.model);
    assert s in Group(open, cs, OwnOpen, s.model);
    var i :| 0 <= i < |open| && open[i] == s && cs[i] == OwnOpen;
    assert VerdictOf(v, open, cs, i) == Due(Duplicate);
  }

  lemma OwnIsExtra(v: View, open: seq<Session>, cs: seq<Class>, p: Piles, i: nat)
    requires SortedOut(open, cs, p) && i < |open| && cs[i].OwnOpen? && VerdictOf(v, open, cs, i) == Due(Duplicate)
    ensures Extra(p.own, Keeps(v, open, cs), p.own.Keys, open[i])
  {
    hide Keeps, Keep, DirectDue, OwnIds;
    KeepsAt(v, open, cs, open[i].model);
    assert open[i] in Group(open, cs, OwnOpen, open[i].model);
  }

  lemma ExtrasAreOwn(v: View, open: seq<Session>, cs: seq<Class>, p: Piles)
    requires SortedOut(open, cs, p)
    ensures ExtraIds(p.own, Keeps(v, open, cs), p.own.Keys) == OwnExtras(v, open, cs)
  {
    hide Keeps, Grouped, DirectDue, OwnIds, VerdictOf;
    var keeps := Keeps(v, open, cs);
    var a, b := ExtraIds(p.own, keeps, p.own.Keys), OwnExtras(v, open, cs);
    forall id | id in a ensures id in b {
      var k, s :| k in p.own && s in p.own[k] && Extra(p.own, keeps, p.own.Keys, s) && s.id == id;
      ExtraIsOwn(v, open, cs, p, s);
    }
    forall id | id in b ensures id in a {
      var i :| 0 <= i < |open| && cs[i].OwnOpen? && VerdictOf(v, open, cs, i) == Due(Duplicate) && open[i].id == id;
      OwnIsExtra(v, open, cs, p, i);
    }
  }

  ghost function DueIds(v: View, open: seq<Session>, cs: seq<Class>): set<string>
    requires |cs| == |open|
  {
    set i | 0 <= i < |open| && VerdictOf(v, open, cs, i).Due? :: open[i].id
  }

  function CandIds(due: seq<Cand>): set<string> {
    set c | c in due :: c.s.id
  }

  lemma CandIdsAreDue(v: View, open: seq<Session>, cs: seq<Class>, due: seq<Cand>)
    requires |cs| == |open| && forall c :: c in due <==> IsDue(v, open, cs, c)
    ensures CandIds(due) == DueIds(v, open, cs)
  {
    hide VerdictOf;
    forall id | id in DueIds(v, open, cs) ensures id in CandIds(due) {
      var i :| 0 <= i < |open| && VerdictOf(v, open, cs, i).Due? && open[i].id == id;
      var c := Cand(open[i], VerdictOf(v, open, cs, i).reason);
      assert IsDue(v, open, cs, c);
    }
  }

  /** Since when each due session has been due; what is no longer due is forgotten. */
  function Aged(dueAt: map<string, Time>, ids: set<string>, now: Time): map<string, Time> {
    map id | id in ids :: if id in dueAt then dueAt[id] else now
  }

  predicate CutLeft(marks: map<string, Mark>) {
    exists id :: id in marks && marks[id].Until?
  }

  /** The one close picked: the longest due, the lowest id among equals. */
  ghost predicate IsFirstDue(v: View, open: seq<Session>, cs: seq<Class>, dueAt: map<string, Time>, c: Cand)
    requires |cs| == |open|
  {
    IsDue(v, open, cs, c) && c.s.id in dueAt
    && forall d :: IsDue(v, open, cs, d) ==> d.s.id in dueAt && !DueBefore(dueAt, d, c)
  }

  lemma SortedPiles(open: seq<Session>, cs: seq<Class>, p: Piles)
    requires SortedOut(open, cs, p)
    ensures NoneEmpty(p.own) && NoneEmpty(p.spare)
    ensures forall k, s :: k in p.own && s in p.own[k] ==> s in open
    ensures forall k, s :: k in p.spare && s in p.spare[k] ==> s in open
  {
    forall k, s | k in p.own && s in p.own[k] ensures s in open {
      GroupIn(open, cs, OwnOpen, k, s);
    }
    forall k, s | k in p.spare && s in p.spare[k] ensures s in open {
      GroupIn(open, cs, Spare, k, s);
    }
  }

  lemma ScanDoneSays(v: View, open: seq<Session>, cs: seq<Class>, p: Piles, w: Work)
    requires SortedOut(open, cs, p) && exists spare :: ScanDone(v, open, cs, p.own, w.(spare := spare))
    ensures SlotsSettled(v, Keeps(v, open, cs), Keeps(v, open, cs).Keys, w.entries)
    ensures StatesSettled(v, Keeps(v, open, cs), Keeps(v, open, cs).Keys, w.sess)
    ensures w.adopted == |Keeps(v, open, cs)| && p.ids == OwnIds(open, cs)
    ensures w.known == v.knownDup + OwnExtras(v, open, cs)
    ensures forall c :: c in w.due <==> IsDue(v, open, cs, c)
  {
    hide Keeps, SlotsSettled, StatesSettled, OwnExtras, IsDue, Grouped;
    ExtrasAreOwn(v, open, cs, p);
  }
}
