/** The first pass of a scan, in the order it reads the list. */
module Scan {
  import opened Basics
  import opened Sessions
  import opened Leases
  import opened Sweep

  /** The class of one listed session; held is every id in a slot or tracked by leases. */
  method ClassifyOne(v: View, pending: seq<Attempt>, held: set<string>, s: Session) returns (c: Class, rest: seq<Attempt>)
    requires s.id in held <==> v.Held(s.id)
    ensures c == ClassOf(v, pending, s)
    ensures rest == if c.OwnOpen? || c.OwnExpired? then Resolve(pending, MatchOf(pending, s).value) else pending
  {
    rest := pending;
    var usable := Usable(s, v.now);
    if s.id in v.marks {
      return Marked, rest;
    }
    if s.id in held {
      if !usable && (s.id !in v.sess || (v.sess[s.id].inflight == 0 && !v.sess[s.id].closing && !v.sess[s.id].retired)) {
        return SlotExpired, rest;
      }
      return InUse, rest;
    }
    var a := MatchOf(pending, s);
    if a.Some? {
      rest := Resolve(pending, a.value);
      return if usable then OwnOpen else OwnExpired, rest;
    }
    var wasRetired := s.id in v.retired || (s.id in v.sess && v.sess[s.id].retired);
    if !usable {
      c := PastUse;
    } else if s.id in v.knownDup {
      c := KnownExtra;
    } else if FromUnix(s.openedAt) > v.now - PRUNE_GRACE {
      c := Young;
    } else if wasRetired {
      c := WasRetired;
    } else if s.provider in v.excluded {
      c := FromExcluded;
    } else {
      c := Spare;
    }
  }

  method Classify(v: View, pending: seq<Attempt>, list: seq<Session>) returns (p: Piles, rest: seq<Attempt>, ghost cs: seq<Class>)
    ensures cs == Walk(v, pending, list).0 && rest == Walk(v, pending, list).1
    ensures SortedOut(list, Walk(v, pending, list).0, p)
  {
    hide Walk, SortedOut, Put, ClassOf, Resolve;
    NothingSorted(v, pending);
    assert list[..0] == [];
    var held := (set k | k in v.entries :: v.entries[k].sessionID) + (set id | id in v.sess && !v.Unheld(v.sess[id]));
    assert forall id :: id in held <==> v.Held(id);
    p, rest, cs := Piles([], map[], map[], {}), pending, [];
    for i := 0 to |list|
      invariant SortedOut(list[..i], cs, p)
      invariant (cs, rest) == Walk(v, pending, list[..i])
    {
      var s := list[i];
      assert list[..i + 1] == list[..i] + [s];
      WalkStep(v, pending, list[..i], s);
      var c, left := ClassifyOne(v, rest, held, s);
      SortedOutStep(list[..i], cs, p, s, c);
      p, rest, cs := Put(p, s, c), left, cs + [c];
    }
    assert list[..|list|] == list;
  }

  method Duplicates(ss: seq<Session>, keepID: Option<string>) returns (cands: seq<Cand>, ids: set<string>)
    ensures cands == Dups(ss, keepID) && ids == DupIds(ss, keepID)
  {
    hide Dups, DupIds;
    NoDups(keepID);
    assert ss[..0] == [];
    cands, ids := [], {};
    for i := 0 to |ss|
      invariant cands == Dups(ss[..i], keepID) && ids == DupIds(ss[..i], keepID)
    {
      DupsNext(ss, i, keepID);
      if keepID != Some(ss[i].id) {
        cands, ids := cands + [Cand(ss[i], Duplicate)], ids + {ss[i].id};
      }
    }
    assert ss[..|ss|] == ss;
  }
}
