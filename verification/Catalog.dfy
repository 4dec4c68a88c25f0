/** The model catalog: the price a model lists with, and which of several rows a shared name means. */
module Catalog {
  import opened Basics

  /** price: the price per second read as a number, if it reads. Names, ids and providers are in normal form. */
  datatype Bid = Bid(id: string, provider: string, price: Option<int>, healthy: bool)

  datatype Model = Model(name: string, id: string, bids: seq<Bid>)

  predicate Priced(b: Bid) {
    b.price.Some? && b.price.value > 0
  }

  /** A bid that counts: priced, and healthy if only healthy ones do. */
  predicate Counts(b: Bid, onlyHealthy: bool) {
    Priced(b) && (onlyHealthy ==> b.healthy)
  }

  /** The least price among the bids that count. */
  ghost predicate IsLeast(bids: seq<Bid>, onlyHealthy: bool, p: Option<int>) {
    && (p.Some? ==> exists b :: b in bids && Counts(b, onlyHealthy) && b.price == p)
    && (forall b :: b in bids && Counts(b, onlyHealthy) ==> p.Some? && p.value <= b.price.value)
  }

  function Least(bids: seq<Bid>, onlyHealthy: bool): (p: Option<int>)
    ensures IsLeast(bids, onlyHealthy, p)
  {
    if bids == [] then None
    else
      var b, rest := bids[|bids| - 1], Least(bids[..|bids| - 1], onlyHealthy);
      assert bids == bids[..|bids| - 1] + [b];
      if Counts(b, onlyHealthy) && (rest.None? || b.price.value < rest.value) then b.price else rest
  }

  lemma LeastUnique(bids: seq<Bid>, onlyHealthy: bool, p: Option<int>, q: Option<int>)
    requires IsLeast(bids, onlyHealthy, p) && IsLeast(bids, onlyHealthy, q)
    ensures p == q
  {
  }

  /** What a model lists for: its least healthy price, or its least price if it has no healthy one. */
  function ListedPrice(m: Model): Option<int> {
    if Least(m.bids, true).Some? then Least(m.bids, true) else Least(m.bids, false)
  }

  method Pick(m: Model, onlyHealthy: bool) returns (best: Option<Bid>)
    ensures best.Some? <==> Least(m.bids, onlyHealthy).Some?
    ensures best.Some? ==> best.value in m.bids && Counts(best.value, onlyHealthy) && best.value.price == Least(m.bids, onlyHealthy)
  {
    hide IsLeast;
    best := None;
    for i := 0 to |m.bids|
      invariant best.Some? <==> Least(m.bids[..i], onlyHealthy).Some?
      invariant best.Some? ==>
        best.value in m.bids && Counts(best.value, onlyHealthy) && best.value.price == Least(m.bids[..i], onlyHealthy)
    {
      var b := m.bids[i];
      assert m.bids[..i + 1][..i] == m.bids[..i];
      if (onlyHealthy && !b.healthy) || b.price.None? || b.price.value <= 0 {
      } else if best.None? || b.price.value < best.value.price.value {
        best := Some(b);
      }
    }
    assert m.bids[..|m.bids|] == m.bids;
  }

  /** The bid a model lists with. */
  method LowestBid(m: Model) returns (best: Option<Bid>)
    ensures best.Some? <==> ListedPrice(m).Some?
    ensures best.Some? ==> best.value in m.bids && best.value.price == ListedPrice(m)
    ensures best.Some? && Least(m.bids, true).Some? ==> best.value.healthy
  {
    best := Pick(m, true);
    if best.None? {
      best := Pick(m, false);
    }
  }

  /** cand replaces cur for a name they share. */
  predicate PreferModel(cand: Model, cur: Model) {
    var c, u := Least(cand.bids, true), Least(cur.bids, true);
    if c.Some? != u.Some? then c.Some?
    else if c.Some? then if c.value != u.value then c.value < u.value else Less(cand.id, cur.id)
    else
      var p, q := ListedPrice(cand), ListedPrice(cur);
      if p.Some? != q.Some? then p.Some?
      else if p.Some? && p.value != q.value then p.value < q.value
      else Less(cand.id, cur.id)
  }

  /** Healthy rows before priced ones before the others. */
  function Tier(m: Model): nat {
    if Least(m.bids, true).Some? then 0 else if Least(m.bids, false).Some? then 1 else 2
  }

  function Price(m: Model): int {
    if ListedPrice(m).Some? then ListedPrice(m).value else 0
  }

  /**
   The choice is by tier, then by the very price the model lists with, then by id: a strict total order on rows with
   different ids.
   */
  lemma PreferIsByListedPrice(a: Model, b: Model)
    ensures PreferModel(a, b) <==>
      (if Tier(a) != Tier(b) then Tier(a) < Tier(b)
       else if Price(a) != Price(b) then Price(a) < Price(b)
       else Less(a.id, b.id))
  {
  }

  lemma PreferIsStrictTotalOrder(a: Model, b: Model, c: Model)
    ensures !PreferModel(a, a)
    ensures PreferModel(a, b) && PreferModel(b, c) ==> PreferModel(a, c)
    ensures a.id != b.id ==> PreferModel(a, b) != PreferModel(b, a)
  {
    PreferIsByListedPrice(a, a);
    PreferIsByListedPrice(a, b);
    PreferIsByListedPrice(b, c);
    PreferIsByListedPrice(a, c);
    PreferIsByListedPrice(b, a);
    LessIrreflexive(a.id);
    LessTotal(a.id, b.id);
    if Less(a.id, b.id) && Less(b.id, c.id) {
      LessTransitive(a.id, b.id, c.id);
    }
    if Less(a.id, b.id) && Less(b.id, a.id) {
      LessTransitive(a.id, b.id, a.id);
    }
  }

  /** The row a name means, reading the feed from the left. */
  function Chosen(models: seq<Model>, name: string): (r: Option<Model>)
    ensures r.Some? ==> r.value in models && r.value.name == name
    ensures r.None? <==> forall m :: m in models ==> m.name != name
  {
    if models == [] then None
    else
      var m, prev := models[|models| - 1], Chosen(models[..|models| - 1], name);
      assert models == models[..|models| - 1] + [m];
      if m.name == name && (prev.None? || PreferModel(m, prev.value)) then Some(m) else prev
  }

  ghost predicate DistinctIds(models: seq<Model>) {
    forall i, j :: 0 <= i < j < |models| ==> models[i].id != models[j].id
  }

  /** The chosen row is preferred to every other row of its name. */
  lemma {:induction false} ChosenIsPreferred(models: seq<Model>, name: string, m: Model)
    requires DistinctIds(models) && m in models && m.name == name
    ensures var c := Chosen(models, name); c.Some? && (c.value == m || PreferModel(c.value, m))
  {
    var last, front := models[|models| - 1], models[..|models| - 1];
    assert models == front + [last];
    if m in front {
      ChosenIsPreferred(front, name, m);
    }
    var prev := Chosen(front, name);
    if prev.Some? {
      var i :| 0 <= i < |front| && front[i] == prev.value;
      PreferIsStrictTotalOrder(last, prev.value, m);
      PreferIsStrictTotalOrder(prev.value, last, m);
    }
  }

  /** The feed's row order does not matter. */
  lemma ChoiceIgnoresOrder(models: seq<Model>, others: seq<Model>, name: string)
    requires DistinctIds(models) && DistinctIds(others) && forall m :: m in models <==> m in others
    ensures Chosen(models, name) == Chosen(others, name)
  {
    var a, b := Chosen(models, name), Chosen(others, name);
    if a.Some? {
      ChosenIsPreferred(others, name, a.value);
      ChosenIsPreferred(models, name, b.value);
      PreferIsStrictTotalOrder(a.value, b.value, a.value);
    }
  }

  function NameOf(models: seq<Model>, id: string): Option<string> {
    if models == [] then None
    else if models[|models| - 1].id == id then Some(models[|models| - 1].name)
    else NameOf(models[..|models| - 1], id)
  }

  ghost predicate Indexed(models: seq<Model>, byName: map<string, string>) {
    forall k :: (k in byName <==> Chosen(models, k).Some?) && (k in byName ==> byName[k] == Chosen(models, k).value.id)
  }

  lemma ChosenNext(models: seq<Model>, n: nat, k: string)
    requires n < |models|
    ensures var m, prev := models[n], Chosen(models[..n], k);
      Chosen(models[..n + 1], k) == if m.name == k && (prev.None? || PreferModel(m, prev.value)) then Some(m) else prev
  {
    assert models[..n + 1][..n] == models[..n];
  }

  /** byID names every row's id; the last row with an id names it. */
  ghost predicate Named(models: seq<Model>, byID: map<string, string>) {
    forall id :: (id in byID <==> NameOf(models, id).Some?) && (id in byID ==> byID[id] == NameOf(models, id).value)
  }

  lemma {:induction false} NamesAre(models: seq<Model>)
    ensures forall m :: m in models ==> NameOf(models, m.id).Some?
    ensures DistinctIds(models) ==> forall m :: m in models ==> NameOf(models, m.id) == Some(m.name)
  {
    if models != [] {
      var front, last := models[..|models| - 1], models[|models| - 1];
      assert models == front + [last];
      NamesAre(front);
      if DistinctIds(models) {
        forall m | m in front ensures m.id != last.id {
          var i :| 0 <= i < |front| && front[i] == m;
        }
      }
    }
  }

  lemma NamedNext(models: seq<Model>, n: nat, byID: map<string, string>)
    requires n < |models| && Named(models[..n], byID)
    ensures Named(models[..n + 1], byID[models[n].id := models[n].name])
  {
    assert models[..n + 1][..n] == models[..n];
  }

  /** Every row's name resolves, to the id of a row of that name, and every row's id to its name. */
  lemma IndexSays(models: seq<Model>, byName: map<string, string>, byID: map<string, string>)
    requires Indexed(models, byName) && Named(models, byID) && DistinctIds(models)
    ensures forall m :: m in models ==> m.name in byName && m.id in byID && byID[m.id] == m.name
    ensures forall k :: k in byName ==> byName[k] in byID && byID[byName[k]] == k
  {
    hide Chosen, NameOf;
    NamesAre(models);
    forall m | m in models ensures m.name in byName {
      assert Chosen(models, m.name).Some?;
    }
    forall k | k in byName ensures byName[k] in byID && byID[byName[k]] == k {
      assert Chosen(models, k).value in models;
    }
  }

  method IndexModels(models: seq<Model>) returns (byName: map<string, string>, byID: map<string, string>)
    ensures Indexed(models, byName)
    ensures Named(models, byID)
  {
    hide PreferModel, Chosen, Named;
    var chosen: map<string, Model> := map[];
    byName, byID := map[], map[];
    NothingYet();
    assert models[..0] == [];
    for i := 0 to |models|
      invariant forall k :: (k in chosen <==> Chosen(models[..i], k).Some?) && (k in chosen ==> Some(chosen[k]) == Chosen(models[..i], k))
      invariant Named(models[..i], byID)
    {
      var m := models[i];
      forall k ensures var prev := Chosen(models[..i], k);
        Chosen(models[..i + 1], k) == if m.name == k && (prev.None? || PreferModel(m, prev.value)) then Some(m) else prev
      {
        ChosenNext(models, i, k);
      }
      NamedNext(models, i, byID);
      byID := byID[m.id := m.name];
      if m.name !in chosen || PreferModel(m, chosen[m.name]) {
        chosen := chosen[m.name := m];
      }
    }
    assert models[..|models|] == models;
    byName := map k | k in chosen :: chosen[k].id;
  }

  lemma NothingYet()
    ensures Named([], map[]) && forall k :: Chosen([], k).None?
  {
  }

  // Excluded providers.

  function Allowed(bids: seq<Bid>, excluded: set<string>): seq<Bid> {
    Filter(bids, (b: Bid) => b.provider !in excluded)
  }

  /** The rows as clients see them. A row left with no bid is hidden; one that never had any is not. */
  function Visible(models: seq<Model>, excluded: set<string>): seq<Model> {
    if models == [] then []
    else
      var m, front := models[|models| - 1], Visible(models[..|models| - 1], excluded);
      if excluded == {} || m.bids == [] then front + [m]
      else if Allowed(m.bids, excluded) == [] then front
      else front + [m.(bids := Allowed(m.bids, excluded))]
  }

  method AllowedBids(bids: seq<Bid>, excluded: set<string>) returns (r: seq<Bid>)
    ensures r == Allowed(bids, excluded)
  {
    r := [];
    for j := 0 to |bids|
      invariant r + Allowed(bids[j..], excluded) == Allowed(bids, excluded)
    {
      if bids[j].provider !in excluded {
        r := r + [bids[j]];
      }
    }
    assert bids[|bids|..] == [];
  }

  method WithoutExcluded(models: seq<Model>, excluded: set<string>) returns (out: seq<Model>)
    ensures out == Visible(models, excluded)
    ensures forall v :: v in out ==> exists m :: m in models && ShownAs(m, v, excluded)
    ensures forall m :: m in models && (m.bids == [] || exists b :: b in m.bids && b.provider !in excluded) ==>
      exists v :: v in out && ShownAs(m, v, excluded)
  {
    VisibleRows(models, excluded);
    out := [];
    for i := 0 to |models|
      invariant out == Visible(models[..i], excluded)
    {
      var m := models[i];
      assert models[..i + 1][..i] == models[..i];
      if excluded == {} || m.bids == [] {
        out := out + [m];
        continue;
      }
      var bids := AllowedBids(m.bids, excluded);
      if bids != [] {
        out := out + [m.(bids := bids)];
      }
    }
    assert models[..|models|] == models;
  }

  /** v is how the row m shows, if it shows. */
  predicate Shows(m: Model, v: Model, excluded: set<string>) {
    if excluded == {} || m.bids == [] then v == m
    else Allowed(m.bids, excluded) != [] && v == m.(bids := Allowed(m.bids, excluded))
  }

  lemma {:induction false} VisibleAre(models: seq<Model>, excluded: set<string>)
    ensures forall v :: v in Visible(models, excluded) <==> exists m :: m in models && Shows(m, v, excluded)
    ensures DistinctIds(models) ==> DistinctIds(Visible(models, excluded))
  {
    if models != [] {
      var last, front := models[|models| - 1], models[..|models| - 1];
      assert models == front + [last];
      VisibleAre(front, excluded);
      forall v | v in Visible(models, excluded) ensures exists m :: m in models && Shows(m, v, excluded) {
        if v in Visible(front, excluded) {
          var m :| m in front && Shows(m, v, excluded);
          assert m in models;
        } else {
          assert Shows(last, v, excluded);
        }
      }
      if DistinctIds(models) {
        forall v | v in Visible(front, excluded) ensures v.id != last.id {
          var m :| m in front && Shows(m, v, excluded);
        }
      }
    }
  }

  /** The same row with the bids of providers that are not excluded; it has none only if it never had any. */
  ghost predicate ShownAs(m: Model, v: Model, excluded: set<string>) {
    && v.name == m.name && v.id == m.id
    && (forall b :: b in v.bids <==> b in m.bids && b.provider !in excluded)
    && (v.bids == [] ==> m.bids == [])
  }

  /** The rows shown are the feed's, each with its allowed bids; a row is hidden just when all its bids are excluded. */
  lemma VisibleRows(models: seq<Model>, excluded: set<string>)
    ensures forall v :: v in Visible(models, excluded) ==> exists m :: m in models && ShownAs(m, v, excluded)
    ensures forall m :: m in models && (m.bids == [] || exists b :: b in m.bids && b.provider !in excluded) ==>
      exists v :: v in Visible(models, excluded) && ShownAs(m, v, excluded)
  {
    hide Visible;
    VisibleAre(models, excluded);
    forall v | v in Visible(models, excluded) ensures exists m :: m in models && ShownAs(m, v, excluded) {
      var m :| m in models && Shows(m, v, excluded);
      assert ShownAs(m, v, excluded);
    }
    forall m | m in models && (m.bids == [] || exists b :: b in m.bids && b.provider !in excluded)
      ensures exists v :: v in Visible(models, excluded) && ShownAs(m, v, excluded)
    {
      var v := if excluded == {} || m.bids == [] then m else m.(bids := Allowed(m.bids, excluded));
      assert Shows(m, v, excluded) && ShownAs(m, v, excluded);
    }
  }

  /** What a name resolves to: the choice among visible rows, or the feed's where every row of the name is hidden. */
  function Resolved(models: seq<Model>, excluded: set<string>, name: string): Option<Model> {
    var v := Chosen(Visible(models, excluded), name);
    if v.Some? then v else Chosen(models, name)
  }

  method IndexLocked(models: seq<Model>, excluded: set<string>) returns (byName: map<string, string>, byID: map<string, string>)
    ensures forall k :: k in byName <==> Resolved(models, excluded, k).Some?
    ensures forall k :: k in byName ==> byName[k] == Resolved(models, excluded, k).value.id
    ensures Named(models, byID)
  {
    hide Chosen, Named, Visible;
    byName, byID := IndexModels(models);
    VisibleAre(models, excluded);
    if excluded == {} {
      NoneHidden(models);
      return;
    }
    var shown := WithoutExcluded(models, excluded);
    var visible, _ := IndexModels(shown);
    byName := byName + visible;
  }

  lemma {:induction false} NoneHidden(models: seq<Model>)
    ensures Visible(models, {}) == models
  {
    if models != [] {
      NoneHidden(models[..|models| - 1]);
    }
  }

  /** Exclusions or not, the row a name resolves to does not depend on the feed's order, and no name is lost. */
  lemma ResolveIgnoresOrder(models: seq<Model>, others: seq<Model>, excluded: set<string>, name: string)
    requires DistinctIds(models) && DistinctIds(others) && forall m :: m in models <==> m in others
    ensures Resolved(models, excluded, name) == Resolved(others, excluded, name)
    ensures Resolved(models, excluded, name).None? <==> forall m :: m in models ==> m.name != name
  {
    VisibleAre(models, excluded);
    VisibleAre(others, excluded);
    ChoiceIgnoresOrder(models, others, name);
    ChoiceIgnoresOrder(Visible(models, excluded), Visible(others, excluded), name);
  }

  /** The resolved row is the best of those that show, by the prices of providers that are not excluded. */
  lemma ResolvedIsBestShown(models: seq<Model>, excluded: set<string>, m: Model, v: Model)
    requires DistinctIds(models) && m in models && Shows(m, v, excluded)
    ensures var r := Resolved(models, excluded, m.name); r.Some? && (r.value == v || PreferModel(r.value, v))
    ensures forall b :: b in Resolved(models, excluded, m.name).value.bids ==> b.provider !in excluded
  {
    VisibleAre(models, excluded);
    var shown := Visible(models, excluded);
    ChosenIsPreferred(shown, m.name, v);
    var r := Chosen(shown, m.name).value;
    var o :| o in models && Shows(o, r, excluded);
  }
}
