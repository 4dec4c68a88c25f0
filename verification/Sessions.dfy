/** On-chain sessions as the router lists them, and the choice of the one to keep among several. */
module Sessions {
  import opened Basics

  /** How long before its on-chain end a session stops being used. */
  const EXPIRY_BUFFER: Time := 90 * SECOND

  /** Ids, models, bids and providers are in normal form (trimmed, lower case); times are Unix seconds. */
  datatype Session = Session(id: string, model: string, bid: string, provider: string,
                             openedAt: int, endsAt: int, closedAt: int)

  predicate Usable(s: Session, now: Time) {
    s.endsAt > Unix(now) + EXPIRY_BUFFER / SECOND
  }

  ghost predicate DistinctIds(ss: seq<Session>) {
    forall i, j :: 0 <= i < j < |ss| ==> ss[i].id != ss[j].id
  }

  /** a is kept over b: it ends later, else it opened later, else its id is lower. */
  predicate Beats(a: Session, b: Session) {
    if a.endsAt != b.endsAt then a.endsAt > b.endsAt
    else if a.openedAt != b.openedAt then a.openedAt > b.openedAt
    else Less(a.id, b.id)
  }

  lemma BeatsIsStrictTotalOrder(a: Session, b: Session, c: Session)
    ensures !Beats(a, a)
    ensures Beats(a, b) && Beats(b, c) ==> Beats(a, c)
    ensures a.id != b.id ==> Beats(a, b) != Beats(b, a)
  {
    LessIrreflexive(a.id);
    LessTotal(a.id, b.id);
    if Less(a.id, b.id) && Less(b.id, c.id) {
      LessTransitive(a.id, b.id, c.id);
    }
    if Less(a.id, b.id) && Less(b.id, a.id) {
      LessTransitive(a.id, b.id, a.id);
    }
  }

  /** r is in ss and nothing in ss is kept over it. */
  ghost predicate IsBest(ss: seq<Session>, r: Session) {
    r in ss && forall s :: s in ss ==> !Beats(s, r)
  }

  /** The one to keep, reading the list from the left. */
  function Best(ss: seq<Session>): (r: Session)
    requires ss != []
    ensures r in ss
  {
    var last := ss[|ss| - 1];
    if |ss| == 1 then last
    else
      var b := Best(ss[..|ss| - 1]);
      if Beats(last, b) then last else b
  }

  lemma {:induction false} BestIsBest(ss: seq<Session>)
    requires ss != []
    ensures IsBest(ss, Best(ss))
  {
    var last := ss[|ss| - 1];
    BeatsIsStrictTotalOrder(last, last, last);
    if |ss| > 1 {
      var rest := ss[..|ss| - 1];
      BestIsBest(rest);
      var b := Best(rest);
      assert ss == rest + [last];
      BeatsIsStrictTotalOrder(b, b, b);
      forall x | x in ss ensures !Beats(x, Best(ss)) {
        BeatsIsStrictTotalOrder(x, last, b);
        BeatsIsStrictTotalOrder(last, b, last);
      }
    }
  }

  method PickOne(ss: seq<Session>) returns (best: Session)
    requires ss != []
    ensures best == Best(ss) && IsBest(ss, best)
    ensures best in ss && forall s :: s in ss ==> Outlasts(best, s)
  {
    best := ss[0];
    for i := 1 to |ss|
      invariant best == Best(ss[..i])
    {
      var s := ss[i];
      assert ss[..i + 1][..i] == ss[..i];
      if s.endsAt != best.endsAt {
        if s.endsAt > best.endsAt {
          best := s;
        }
      } else if s.openedAt != best.openedAt {
        if s.openedAt > best.openedAt {
          best := s;
        }
      } else if Less(s.id, best.id) {
        best := s;
      }
    }
    assert ss[..|ss|] == ss;
    BestIsBest(ss);
    BestOutlasts(ss);
  }

  /** a ends no earlier than s; if they end together it opened no earlier; if they opened together its id is no higher. */
  predicate Outlasts(a: Session, s: Session) {
    && a.endsAt >= s.endsAt
    && (a.endsAt == s.endsAt ==> a.openedAt >= s.openedAt)
    && (a.endsAt == s.endsAt && a.openedAt == s.openedAt ==> !Less(s.id, a.id))
  }

  /** The session kept is the one that can be used longest. */
  lemma BestOutlasts(ss: seq<Session>)
    requires ss != []
    ensures forall s :: s in ss ==> Outlasts(Best(ss), s)
  {
    BestIsBest(ss);
  }

  /** The order of the list does not matter: sessions with different ids have one best. */
  lemma BestIgnoresOrder(ss: seq<Session>, ts: seq<Session>)
    requires ss != [] && ts != []
    requires forall s, t :: s in ss && t in ss && s.id == t.id ==> s == t
    requires forall s :: s in ss <==> s in ts
    ensures Best(ss) == Best(ts)
  {
    BestIsBest(ss);
    BestIsBest(ts);
    BeatsIsStrictTotalOrder(Best(ss), Best(ts), Best(ss));
  }
}
