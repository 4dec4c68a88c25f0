/** Repeated audit events: one line at once, the repeats of a window counted and written as one summary line. */
module Aggregator {
  import opened Basics

  datatype Event = Event(kind: string, ip: string, actor: string, message: string)

  datatype Key = Key(kind: string, key: string)

  datatype Bucket = Bucket(start: Time, suppressed: nat, last: Event, stream: string)

  /** A line written: an event at once, or the summary of the repeats a bucket held back. */
  datatype Line = First(key: Key, stream: string, event: Event, at: Time) | Summary(key: Key, stream: string, last: Event, count: nat, at: Time)

  const OTHER := "\0other"

  /** firsts: when a bucket with that key was last begun. */
  datatype State = State(window: Time, maxPerKind: nat, maxTotal: nat, buckets: map<Key, Bucket>, perKind: map<string, int>, keyed: int,
                         queue: seq<Key>, firsts: map<Key, Time>)

  function Get(m: map<string, int>, k: string): int {
    if k in m then m[k] else 0
  }

  /** The line a bucket owes when its window ends. The shared bucket tells no one's address. */
  function Owed(k: Key, b: Bucket, now: Time): seq<Line> {
    if b.suppressed == 0 then []
    else [Summary(k, b.stream, if k.key == OTHER then b.last.(ip := "", actor := "", message := "other") else b.last, b.suppressed, now)]
  }

  function DropFront(s: State): State
    requires s.queue != []
  {
    var k := s.queue[0];
    var t := s.(buckets := s.buckets - {k}, queue := s.queue[1..]);
    if k.key == OTHER then t else t.(perKind := s.perKind[k.kind := Get(s.perKind, k.kind) - 1], keyed := s.keyed - 1)
  }

  predicate Ready(s: State, now: Time) {
    s.queue != [] && s.queue[0] in s.buckets && now - s.buckets[s.queue[0]].start >= s.window
  }

  /** Ends the windows at the front of the queue. */
  function Flushed(s: State, now: Time): (State, seq<Line>)
    decreases |s.queue|
  {
    if !Ready(s, now) then (s, [])
    else
      var (t, lines) := Flushed(DropFront(s), now);
      (t, Owed(s.queue[0], s.buckets[s.queue[0]], now) + lines)
  }

  /** The bucket an event goes to: its own, or the one its kind shares once there are too many. */
  function Target(s: State, kind: string, key: string): Key {
    var k := Key(kind, key);
    if k !in s.buckets && (Get(s.perKind, kind) >= s.maxPerKind || s.keyed >= s.maxTotal) then Key(kind, OTHER) else k
  }

  function Began(s: State, k: Key, b: Bucket): State {
    var t := s.(buckets := s.buckets[k := b], queue := s.queue + [k], firsts := s.firsts[k := b.start]);
    if k.key == OTHER then t else t.(perKind := s.perKind[k.kind := Get(s.perKind, k.kind) + 1], keyed := s.keyed + 1)
  }

  function Recorded(s: State, stream: string, key: string, e: Event, now: Time): (State, seq<Line>) {
    var (t, lines) := Flushed(s, now);
    var k := Target(t, e.kind, key);
    if k in t.buckets then (t.(buckets := t.buckets[k := t.buckets[k].(suppressed := t.buckets[k].suppressed + 1, last := e)]), lines)
    else (Began(t, k, Bucket(now, 0, e, stream)), lines + [First(k, stream, e, now)])
  }

  // What holds of every state.

  ghost function KeysOf(s: State, kind: string): set<Key> {
    set k | k in s.buckets && k.kind == kind && k.key != OTHER
  }

  ghost function Keyed(s: State): set<Key> {
    set k | k in s.buckets && k.key != OTHER
  }

  ghost predicate Queued(s: State) {
    && (forall i, j :: 0 <= i < j < |s.queue| ==> s.queue[i] != s.queue[j])
    && (forall k :: k in s.queue <==> k in s.buckets)
  }

  /** Starts in queue order, none after the clock; a key's buckets begin a window apart. */
  ghost predicate Timed(s: State, clock: Time) {
    && (forall i, j :: 0 <= i < j < |s.queue| && s.queue[i] in s.buckets && s.queue[j] in s.buckets ==>
          s.buckets[s.queue[i]].start <= s.buckets[s.queue[j]].start)
    && (forall k :: k in s.buckets ==> s.buckets[k].start <= clock && k in s.firsts && s.firsts[k] == s.buckets[k].start)
    && (forall k :: k in s.firsts && k !in s.buckets ==> s.firsts[k] + s.window <= clock)
  }

  ghost predicate Counted(s: State) {
    && s.keyed == |Keyed(s)| <= s.maxTotal
    && (forall kind :: Get(s.perKind, kind) == |KeysOf(s, kind)| <= s.maxPerKind)
  }

  ghost predicate Inv(s: State, clock: Time) {
    Queued(s) && Timed(s, clock) && Counted(s)
  }

  /** Events of the kind still held back, over the queue. */
  ghost function Held(buckets: map<Key, Bucket>, queue: seq<Key>, kind: string): nat {
    if queue == [] then 0
    else (if queue[0] in buckets && queue[0].kind == kind then buckets[queue[0]].suppressed else 0) + Held(buckets, queue[1..], kind)
  }

  /** Events of the kind the lines stand for. */
  function Told(lines: seq<Line>, kind: string): nat {
    if lines == [] then 0
    else (if lines[0].key.kind != kind then 0 else if lines[0].First? then 1 else lines[0].count) + Told(lines[1..], kind)
  }

  lemma {:induction false} ToldJoins(a: seq<Line>, b: seq<Line>, kind: string)
    ensures Told(a + b, kind) == Told(a, kind) + Told(b, kind)
  {
    if a == [] {
      assert a + b == b;
    } else {
      ToldJoins(a[1..], b, kind);
      assert (a + b)[1..] == a[1..] + b;
    }
  }

  lemma {:induction false} HeldIgnores(a: map<Key, Bucket>, b: map<Key, Bucket>, queue: seq<Key>, kind: string)
    requires forall k :: k in queue ==> (k in a <==> k in b) && (k in a ==> a[k].suppressed == b[k].suppressed)
    ensures Held(a, queue, kind) == Held(b, queue, kind)
  {
    if queue != [] {
      HeldIgnores(a, b, queue[1..], kind);
    }
  }

  lemma {:induction false} HeldJoins(buckets: map<Key, Bucket>, a: seq<Key>, b: seq<Key>, kind: string)
    ensures Held(buckets, a + b, kind) == Held(buckets, a, kind) + Held(buckets, b, kind)
  {
    if a == [] {
      assert a + b == b;
    } else {
      HeldJoins(buckets, a[1..], b, kind);
      assert (a + b)[1..] == a[1..] + b;
    }
  }

  /** One more repeat in the bucket k. */
  lemma {:induction false} HeldOneMore(buckets: map<Key, Bucket>, queue: seq<Key>, k: Key, b: Bucket, kind: string)
    requires k in queue && k in buckets && b.suppressed == buckets[k].suppressed + 1
    requires forall i, j :: 0 <= i < j < |queue| ==> queue[i] != queue[j]
    ensures Held(buckets[k := b], queue, kind) == Held(buckets, queue, kind) + if k.kind == kind then 1 else 0
  {
    if queue[0] == k {
      assert forall x :: x in queue[1..] ==> x != k;
      HeldIgnores(buckets, buckets[k := b], queue[1..], kind);
    } else {
      HeldOneMore(buckets, queue[1..], k, b, kind);
    }
  }

  /** From s to t with these lines, each kind's events are accounted for; more is a new event's kind. */
  ghost predicate Accounts(s: State, t: State, lines: seq<Line>, more: Option<string>) {
    forall kind :: Held(t.buckets, t.queue, kind) + Told(lines, kind)
      == Held(s.buckets, s.queue, kind) + if more == Some(kind) then 1 else 0
  }

  ghost predicate SameBounds(s: State, t: State) {
    t.window == s.window && t.maxPerKind == s.maxPerKind && t.maxTotal == s.maxTotal
  }

  // Flushing.

  lemma KindDropped(s: State, kind: string)
    requires Queued(s) && s.queue != [] && Get(s.perKind, kind) == |KeysOf(s, kind)|
    ensures var t := DropFront(s); Get(t.perKind, kind) == |KeysOf(t, kind)| <= |KeysOf(s, kind)|
  {
    var k, t := s.queue[0], DropFront(s);
    assert k in s.buckets;
    if k.kind == kind && k.key != OTHER {
      assert KeysOf(t, kind) == KeysOf(s, kind) - {k};
    } else {
      assert KeysOf(t, kind) == KeysOf(s, kind);
    }
  }

  lemma DropCounts(s: State)
    requires Queued(s) && Counted(s) && s.queue != []
    ensures Counted(DropFront(s))
  {
    hide KeysOf, Queued;
    forall kind ensures Get(DropFront(s).perKind, kind) == |KeysOf(DropFront(s), kind)| <= s.maxPerKind {
      KindDropped(s, kind);
    }
    KeyedDropped(s);
  }

  lemma KeyedDropped(s: State)
    requires Queued(s) && s.queue != []
    ensures |Keyed(DropFront(s))| == |Keyed(s)| - if s.queue[0].key == OTHER then 0 else 1
  {
    var k := s.queue[0];
    assert k in s.buckets;
    if k.key == OTHER {
      assert Keyed(DropFront(s)) == Keyed(s);
    } else {
      assert Keyed(DropFront(s)) == Keyed(s) - {k};
    }
  }

  lemma DropQueued(s: State)
    requires Queued(s) && s.queue != []
    ensures Queued(DropFront(s))
  {
    var t := DropFront(s);
    assert forall k :: k in s.queue <==> k == s.queue[0] || k in t.queue;
  }

  lemma DropKeepsInv(s: State, clock: Time, now: Time)
    requires Inv(s, clock) && Ready(s, now) && clock <= now
    ensures Inv(DropFront(s), now)
  {
    hide Counted, Queued;
    DropCounts(s);
    DropQueued(s);
    DropTimed(s, clock, now);
  }

  lemma DropTimed(s: State, clock: Time, now: Time)
    requires Queued(s) && Timed(s, clock) && Ready(s, now) && clock <= now
    ensures Timed(DropFront(s), now)
  {
  }

  lemma InvLater(s: State, clock: Time, now: Time)
    requires Inv(s, clock) && clock <= now
    ensures Inv(s, now)
  {
    hide Counted, Queued;
  }

  lemma {:induction false} FlushKeepsInv(s: State, clock: Time, now: Time)
    requires Inv(s, clock) && clock <= now
    ensures Inv(Flushed(s, now).0, now)
    decreases |s.queue|
  {
    hide Inv;
    if Ready(s, now) {
      DropKeepsInv(s, clock, now);
      FlushKeepsInv(DropFront(s), now, now);
    } else {
      InvLater(s, clock, now);
    }
  }

  /** A flush ends exactly the windows that are over. */
  lemma {:induction false} FlushEndsWindows(s: State, clock: Time, now: Time)
    requires Inv(s, clock) && clock <= now
    ensures forall k :: k in Flushed(s, now).0.buckets <==> k in s.buckets && now - s.buckets[k].start < s.window
    ensures forall k :: k in Flushed(s, now).0.buckets ==> Flushed(s, now).0.buckets[k] == s.buckets[k]
    decreases |s.queue|
  {
    hide Counted;
    if Ready(s, now) {
      DropKeepsInv(s, clock, now);
      FlushEndsWindows(DropFront(s), now, now);
    } else if s.queue != [] {
      forall k | k in s.buckets ensures now - s.buckets[k].start < s.window {
        var i :| 0 <= i < |s.queue| && s.queue[i] == k;
        assert s.queue[0] in s.queue;
      }
    }
  }

  lemma DropAccounts(s: State, now: Time, lines: seq<Line>, kind: string)
    requires Queued(s) && s.queue != [] && s.queue[0] in s.buckets
    ensures Held(DropFront(s).buckets, DropFront(s).queue, kind) + Told(Owed(s.queue[0], s.buckets[s.queue[0]], now) + lines, kind)
      == Held(s.buckets, s.queue, kind) + Told(lines, kind)
  {
    var k, t := s.queue[0], DropFront(s);
    ToldJoins(Owed(k, s.buckets[k], now), lines, kind);
    assert forall x :: x in s.queue[1..] ==> x != k;
    HeldIgnores(s.buckets, t.buckets, s.queue[1..], kind);
  }

  /** A flush loses no event. */
  lemma {:induction false} FlushAccounts(s: State, now: Time)
    requires Queued(s)
    ensures Accounts(s, Flushed(s, now).0, Flushed(s, now).1, None)
    decreases |s.queue|
  {
    hide Queued, Held, Told, Owed, DropFront;
    if Ready(s, now) {
      DropQueued(s);
      ShorterQueue(s);
      FlushAccounts(DropFront(s), now);
      forall kind ensures Held(Flushed(s, now).0.buckets, Flushed(s, now).0.queue, kind) + Told(Flushed(s, now).1, kind)
        == Held(s.buckets, s.queue, kind)
      {
        DropAccounts(s, now, Flushed(DropFront(s), now).1, kind);
      }
    } else {
      NothingTold();
    }
  }

  lemma ShorterQueue(s: State)
    requires s.queue != []
    ensures |DropFront(s).queue| < |s.queue|
  {
  }

  lemma NothingTold()
    ensures forall kind :: Told([], kind) == 0
  {
  }

  lemma {:induction false} FlushKeepsRest(s: State, now: Time)
    ensures SameBounds(s, Flushed(s, now).0) && Flushed(s, now).0.firsts == s.firsts
    decreases |s.queue|
  {
    if Ready(s, now) {
      FlushKeepsRest(DropFront(s), now);
    }
  }

  // Recording.

  lemma KindBegan(s: State, k: Key, b: Bucket, kind: string)
    requires k !in s.buckets && Get(s.perKind, kind) == |KeysOf(s, kind)| <= s.maxPerKind
    requires k.key != OTHER ==> Get(s.perKind, k.kind) < s.maxPerKind
    ensures var t := Began(s, k, b); Get(t.perKind, kind) == |KeysOf(t, kind)| <= s.maxPerKind
  {
    var t := Began(s, k, b);
    if k.kind == kind && k.key != OTHER {
      assert KeysOf(t, kind) == KeysOf(s, kind) + {k};
    } else {
      assert KeysOf(t, kind) == KeysOf(s, kind);
    }
  }

  lemma KeyedBegan(s: State, k: Key, b: Bucket)
    requires k !in s.buckets
    ensures |Keyed(Began(s, k, b))| == |Keyed(s)| + if k.key == OTHER then 0 else 1
  {
    if k.key == OTHER {
      assert Keyed(Began(s, k, b)) == Keyed(s);
    } else {
      assert Keyed(Began(s, k, b)) == Keyed(s) + {k};
    }
  }

  lemma BeganCounts(s: State, k: Key, b: Bucket)
    requires Counted(s) && k !in s.buckets
    requires k.key != OTHER ==> Get(s.perKind, k.kind) < s.maxPerKind && s.keyed < s.maxTotal
    ensures Counted(Began(s, k, b))
  {
    hide KeysOf, Keyed, Get;
    KeyedBegan(s, k, b);
    forall kind ensures Get(Began(s, k, b).perKind, kind) == |KeysOf(Began(s, k, b), kind)| <= s.maxPerKind {
      KindBegan(s, k, b, kind);
    }
  }

  lemma BeganQueued(s: State, k: Key, b: Bucket)
    requires Queued(s) && k !in s.buckets
    ensures Queued(Began(s, k, b))
  {
    assert forall x :: x in Began(s, k, b).queue <==> x in s.queue || x == k;
  }

  lemma BeganKeepsInv(s: State, k: Key, b: Bucket, now: Time)
    requires Inv(s, now) && k !in s.buckets && b.start == now
    requires k.key != OTHER ==> Get(s.perKind, k.kind) < s.maxPerKind && s.keyed < s.maxTotal
    ensures Inv(Began(s, k, b), now)
  {
    hide Counted, Get, Timed, Queued, Began;
    BeganCounts(s, k, b);
    BeganQueued(s, k, b);
    BeganTimed(s, k, b, now);
  }

  lemma BeganTimed(s: State, k: Key, b: Bucket, now: Time)
    requires Queued(s) && Timed(s, now) && k !in s.buckets && b.start == now
    ensures Timed(Began(s, k, b), now)
  {
    var t := Began(s, k, b);
    assert forall i :: 0 <= i < |s.queue| ==> t.queue[i] == s.queue[i] && s.queue[i] in s.queue;
  }

  lemma RepeatKeepsInv(s: State, k: Key, b: Bucket, now: Time)
    requires Inv(s, now) && k in s.buckets && b.start == s.buckets[k].start
    ensures Inv(s.(buckets := s.buckets[k := b]), now)
  {
    var t := s.(buckets := s.buckets[k := b]);
    assert Counted(t) by {
      assert Keyed(t) == Keyed(s);
      forall kind ensures KeysOf(t, kind) == KeysOf(s, kind) {
      }
    }
  }

  lemma RepeatAccounts(s: State, k: Key, b: Bucket)
    requires Queued(s) && k in s.buckets && b.suppressed == s.buckets[k].suppressed + 1
    ensures Accounts(s, s.(buckets := s.buckets[k := b]), [], Some(k.kind))
  {
    forall kind ensures Held(s.buckets[k := b], s.queue, kind) == Held(s.buckets, s.queue, kind) + if kind == k.kind then 1 else 0 {
      HeldOneMore(s.buckets, s.queue, k, b, kind);
    }
  }

  lemma BeganAccounts(s: State, k: Key, b: Bucket, line: Line)
    requires Queued(s) && k !in s.buckets && b.suppressed == 0 && line.First? && line.key == k
    ensures Accounts(s, Began(s, k, b), [line], Some(k.kind))
  {
    var t := Began(s, k, b);
    forall kind ensures Held(t.buckets, t.queue, kind) == Held(s.buckets, s.queue, kind) {
      HeldJoins(t.buckets, s.queue, [k], kind);
      HeldIgnores(s.buckets, t.buckets, s.queue, kind);
    }
  }

  lemma AccountsJoin(s: State, t: State, u: State, a: seq<Line>, b: seq<Line>, more: Option<string>)
    requires Accounts(s, t, a, None) && Accounts(t, u, b, more)
    ensures Accounts(s, u, a + b, more)
  {
    forall kind ensures Told(a + b, kind) == Told(a, kind) + Told(b, kind) {
      ToldJoins(a, b, kind);
    }
  }

  /** Where the event of kind goes, the bounds let it go. */
  lemma TargetFits(s: State, kind: string, key: string)
    ensures var k := Target(s, kind, key);
      k.kind == kind && (k !in s.buckets && k.key != OTHER ==> Get(s.perKind, kind) < s.maxPerKind && s.keyed < s.maxTotal)
  {
  }

  /** Recording keeps the invariant and accounts for the event: it is a line at once or one more repeat. */
  lemma RecordKeeps(s: State, clock: Time, stream: string, key: string, e: Event, now: Time)
    requires Inv(s, clock) && clock <= now
    ensures var (t, lines) := Recorded(s, stream, key, e, now); Inv(t, now) && Accounts(s, t, lines, Some(e.kind)) && SameBounds(s, t)
  {
    hide Counted, Accounts, Timed, Queued, Began, Target, Flushed;
    FlushKeepsInv(s, clock, now);
    FlushAccounts(s, now);
    FlushKeepsRest(s, now);
    var (f, lines) := Flushed(s, now);
    TargetFits(f, e.kind, key);
    var k := Target(f, e.kind, key);
    if k in f.buckets {
      var b := f.buckets[k].(suppressed := f.buckets[k].suppressed + 1, last := e);
      RepeatKeepsInv(f, k, b, now);
      RepeatAccounts(f, k, b);
      AccountsJoin(s, f, f.(buckets := f.buckets[k := b]), lines, [], Some(e.kind));
      assert lines + [] == lines;
    } else {
      var b := Bucket(now, 0, e, stream);
      BeganKeepsInv(f, k, b, now);
      BeganAccounts(f, k, b, First(k, stream, e, now));
      BeganBounds(f, k, b);
      AccountsJoin(s, f, Began(f, k, b), lines, [First(k, stream, e, now)], Some(e.kind));
    }
  }

  lemma BeganBounds(s: State, k: Key, b: Bucket)
    ensures SameBounds(s, Began(s, k, b))
  {
  }

  /** A key's lines at once come at least a window apart. */
  lemma FirstsAreApart(s: State, clock: Time, stream: string, key: string, e: Event, now: Time, k: Key)
    requires Inv(s, clock) && clock <= now && k in s.firsts
    ensures var t := Recorded(s, stream, key, e, now).0;
      k in t.firsts && (t.firsts[k] == s.firsts[k] || t.firsts[k] == now >= s.firsts[k] + s.window)
  {
    hide Counted;
    FlushKeepsInv(s, clock, now);
    FlushEndsWindows(s, clock, now);
    FlushKeepsRest(s, now);
  }

  // What goes where.

  /** The key has a bucket whose window is not over. */
  predicate Live(s: State, k: Key, now: Time) {
    k in s.buckets && now - s.buckets[k].start < s.window
  }

  /** A kind has as many keys with live buckets as it may have, or all kinds together do. */
  ghost predicate Full(s: State, kind: string, now: Time) {
    || |set k | k in s.buckets && Live(s, k, now) && k.kind == kind && k.key != OTHER| >= s.maxPerKind
    || |set k | k in s.buckets && Live(s, k, now) && k.key != OTHER| >= s.maxTotal
  }

  /** From s to t one more repeat went into the bucket k, and only there. */
  predicate Repeated(s: State, t: State, k: Key, e: Event) {
    && k in s.buckets && k in t.buckets
    && t.buckets[k] == s.buckets[k].(suppressed := s.buckets[k].suppressed + 1, last := e)
  }

  /** The event was written at once, as the last of lines, and k has a bucket of its own from now on. */
  predicate Written(t: State, lines: seq<Line>, k: Key, stream: string, e: Event, now: Time) {
    && lines != [] && lines[|lines| - 1] == First(k, stream, e, now)
    && k in t.buckets && t.buckets[k] == Bucket(now, 0, e, stream)
  }

  /** What a flush leaves are the live buckets, and its counters say whether there are too many. */
  lemma LiveAreLeft(s: State, clock: Time, kind: string, now: Time)
    requires Inv(s, clock) && clock <= now
    ensures var f := Flushed(s, now).0;
      && SameBounds(s, f)
      && (forall k :: k in f.buckets <==> Live(s, k, now))
      && (forall k :: k in f.buckets ==> k in s.buckets && f.buckets[k] == s.buckets[k])
      && (Full(s, kind, now) <==> Get(f.perKind, kind) >= s.maxPerKind || f.keyed >= s.maxTotal)
  {
    hide Flushed, Timed, Queued;
    FlushKeepsInv(s, clock, now);
    FlushEndsWindows(s, clock, now);
    FlushKeepsRest(s, now);
    var f := Flushed(s, now).0;
    assert KeysOf(f, kind) == set k | k in s.buckets && Live(s, k, now) && k.kind == kind && k.key != OTHER;
    assert Keyed(f) == set k | k in s.buckets && Live(s, k, now) && k.key != OTHER;
    assert Get(f.perKind, kind) == |KeysOf(f, kind)|;
  }

  /**
   Where a recorded event goes. With its key's window running it is counted there. Else it is written at once and its
   key gets a bucket, unless there are too many keys: then it goes to the bucket its kind shares, counted or written in
   the same way. No other live bucket changes.
   */
  lemma RecordGoes(s: State, clock: Time, stream: string, key: string, e: Event, now: Time)
    requires Inv(s, clock) && clock <= now && key != OTHER
    ensures var (t, lines) := Recorded(s, stream, key, e, now);
      var own, shared := Key(e.kind, key), Key(e.kind, OTHER);
      && (Live(s, own, now) ==> Repeated(s, t, own, e))
      && (!Live(s, own, now) && !Full(s, e.kind, now) ==> Written(t, lines, own, stream, e, now))
      && (!Live(s, own, now) && Full(s, e.kind, now) && Live(s, shared, now) ==> Repeated(s, t, shared, e))
      && (!Live(s, own, now) && Full(s, e.kind, now) && !Live(s, shared, now) ==> Written(t, lines, shared, stream, e, now))
    ensures var t := Recorded(s, stream, key, e, now).0;
      forall k :: Live(s, k, now) && k != Key(e.kind, key) && k != Key(e.kind, OTHER) ==> k in t.buckets && t.buckets[k] == s.buckets[k]
  {
    hide Flushed, Inv, Live, Full;
    LiveAreLeft(s, clock, e.kind, now);
  }

  /** A line that ends the window of k in s: how often the event came again, and the last of them; a shared bucket's tells nobody's address. */
  predicate Summarizes(s: State, l: Line, k: Key, now: Time) {
    && k in s.buckets && now - s.buckets[k].start >= s.window
    && l.Summary? && l.key == k && l.at == now && l.stream == s.buckets[k].stream
    && l.count == s.buckets[k].suppressed > 0
    && (if k.key == OTHER then l.last.ip == "" && l.last.actor == "" && l.last.kind == s.buckets[k].last.kind
        else l.last == s.buckets[k].last)
  }

  /** Every line summarizes a window that is over, and every window that is over and held repeats back has a line. */
  ghost predicate TellsAll(s: State, lines: seq<Line>, now: Time) {
    && (forall l :: l in lines ==> Summarizes(s, l, l.key, now))
    && (forall k :: k in s.buckets && now - s.buckets[k].start >= s.window && s.buckets[k].suppressed > 0 ==>
          exists l :: l in lines && l.key == k)
  }

  lemma NoneOver(s: State, clock: Time, now: Time)
    requires Inv(s, clock) && !Ready(s, now)
    ensures TellsAll(s, [], now)
  {
    hide Counted;
    forall k | k in s.buckets ensures now - s.buckets[k].start < s.window {
      var i :| 0 <= i < |s.queue| && s.queue[i] == k;
      assert s.queue[0] in s.queue;
    }
  }

  lemma TellsNext(s: State, now: Time, more: seq<Line>)
    requires Queued(s) && Ready(s, now) && TellsAll(DropFront(s), more, now)
    ensures TellsAll(s, Owed(s.queue[0], s.buckets[s.queue[0]], now) + more, now)
  {
    hide Queued;
    var t, q := DropFront(s), s.queue[0];
    var owed := Owed(q, s.buckets[q], now);
    forall l | l in owed + more ensures Summarizes(s, l, l.key, now) {
      if l in more {
        assert Summarizes(t, l, l.key, now);
      }
    }
    forall k | k in s.buckets && now - s.buckets[k].start >= s.window && s.buckets[k].suppressed > 0
      ensures exists l :: l in owed + more && l.key == k
    {
      if k == q {
        assert owed[0] in owed + more && owed[0].key == k;
      } else {
        assert k in t.buckets;
        var l :| l in more && l.key == k;
        assert l in owed + more;
      }
    }
  }

  /** What a flush writes. */
  lemma {:induction false} FlushTells(s: State, clock: Time, now: Time)
    requires Inv(s, clock) && clock <= now
    ensures TellsAll(s, Flushed(s, now).1, now)
    decreases |s.queue|
  {
    hide Counted, Timed, TellsAll;
    if Ready(s, now) {
      DropKeepsInv(s, clock, now);
      ShorterQueue(s);
      FlushTells(DropFront(s), now, now);
      TellsNext(s, now, Flushed(DropFront(s), now).1);
    } else {
      NoneOver(s, clock, now);
    }
  }

  // Runs.

  datatype Call = Record(stream: string, key: string, event: Event, now: Time) | Flush(now: Time)

  function Step(s: State, c: Call): (State, seq<Line>) {
    match c
    case Record(stream, key, e, now) => Recorded(s, stream, key, e, now)
    case Flush(now) => Flushed(s, now)
  }

  function Start(window: Time, maxPerKind: nat, maxTotal: nat): State {
    State(window, maxPerKind, maxTotal, map[], map[], 0, [], map[])
  }

  /** The calls in order, on a clock that does not go back; lines is everything written. */
  ghost predicate Run(s: State, clock: Time, calls: seq<Call>, s': State, end: Time, lines: seq<Line>)
    decreases |calls|
  {
    if calls == [] then s == s' && clock == end && lines == []
    else
      var front, c := calls[..|calls| - 1], calls[|calls| - 1];
      exists t, now, told :: Run(s, clock, front, t, now, told) && now <= c.now
        && (s', lines) == (Step(t, c).0, told + Step(t, c).1) && end == c.now
  }

  function Recordings(calls: seq<Call>, kind: string): nat {
    if calls == [] then 0
    else
      var c := calls[|calls| - 1];
      Recordings(calls[..|calls| - 1], kind) + if c.Record? && c.event.kind == kind then 1 else 0
  }

  lemma StepKeeps(s: State, clock: Time, c: Call)
    requires Inv(s, clock) && clock <= c.now
    ensures Inv(Step(s, c).0, c.now) && SameBounds(s, Step(s, c).0)
    ensures Accounts(s, Step(s, c).0, Step(s, c).1, if c.Record? then Some(c.event.kind) else None)
  {
    hide Counted, Timed, Accounts, Flushed, Recorded, SameBounds;
    match c
    case Record(stream, key, e, now) => RecordKeeps(s, clock, stream, key, e, now);
    case Flush(now) =>
      FlushKeepsInv(s, clock, now);
      FlushAccounts(s, now);
      FlushKeepsRest(s, now);
  }

  /**
   In every run, for every kind: the events recorded are those written at once, those counted on summaries and those
   live buckets still hold. The queue lists each live bucket once, in start order; the counters are the live keys and
   stay within their bounds.
   */
  lemma {:induction false} NoEventIsLost(window: Time, maxPerKind: nat, maxTotal: nat, clock: Time, calls: seq<Call>,
                                         s: State, end: Time, lines: seq<Line>, kind: string)
    requires Run(Start(window, maxPerKind, maxTotal), clock, calls, s, end, lines)
    ensures Recordings(calls, kind) == Told(lines, kind) + Held(s.buckets, s.queue, kind)
    ensures Inv(s, end) && s.maxPerKind == maxPerKind && s.maxTotal == maxTotal
    ensures |KeysOf(s, kind)| <= maxPerKind && |s.buckets| == |s.queue|
    decreases |calls|
  {
    var start := Start(window, maxPerKind, maxTotal);
    if calls == [] {
      assert Keyed(start) == {};
      forall k ensures KeysOf(start, k) == {} {
      }
    } else {
      var front, c := calls[..|calls| - 1], calls[|calls| - 1];
      var t, now, told :| Run(start, clock, front, t, now, told) && now <= c.now
        && (s, lines) == (Step(t, c).0, told + Step(t, c).1) && end == c.now;
      NoEventIsLost(window, maxPerKind, maxTotal, clock, front, t, now, told, kind);
      OneMoreCall(t, now, c, told, kind);
    }
    QueueSize(s);
  }

  lemma OneMoreCall(t: State, now: Time, c: Call, told: seq<Line>, kind: string)
    requires Inv(t, now) && now <= c.now
    ensures var (s, lines) := Step(t, c);
      && Told(told + lines, kind) + Held(s.buckets, s.queue, kind)
        == Told(told, kind) + Held(t.buckets, t.queue, kind) + (if c.Record? && c.event.kind == kind then 1 else 0)
      && Inv(s, c.now) && SameBounds(t, s) && |KeysOf(s, kind)| <= s.maxPerKind
  {
    hide Timed, Queued, Keyed, Step, KeysOf;
    StepKeeps(t, now, c);
    ToldJoins(told, Step(t, c).1, kind);
    assert Get(Step(t, c).0.perKind, kind) == |KeysOf(Step(t, c).0, kind)|;
  }

  lemma QueueSize(s: State)
    requires Queued(s)
    ensures |s.buckets| == |s.queue|
  {
    var keys := set k | k in s.queue;
    assert keys == s.buckets.Keys;
    DistinctSize(s.queue);
  }

  lemma {:induction false} DistinctSize(q: seq<Key>)
    requires forall i, j :: 0 <= i < j < |q| ==> q[i] != q[j]
    ensures |set k | k in q| == |q|
  {
    if q == [] {
      assert (set k | k in q) == {};
    } else {
      var rest := q[1..];
      DistinctSize(rest);
      assert (set k | k in q) == (set k | k in rest) + {q[0]};
    }
  }

  /** A flush under way: what it has written, and what flushing the rest adds. */
  ghost function Rest(s: State, now: Time, out: seq<Line>): (State, seq<Line>) {
    var (t, more) := Flushed(s, now);
    (t, out + more)
  }

  lemma RestStarts(s: State, now: Time)
    ensures Rest(s, now, []) == Flushed(s, now)
  {
    assert [] + Flushed(s, now).1 == Flushed(s, now).1;
  }

  lemma RestGoesOn(s: State, now: Time, out: seq<Line>)
    requires Queued(s)
    ensures s.queue != [] ==> s.queue[0] in s.buckets
    ensures Ready(s, now) ==> Rest(s, now, out) == Rest(DropFront(s), now, out + Owed(s.queue[0], s.buckets[s.queue[0]], now))
    ensures Ready(s, now) ==> Queued(DropFront(s))
    ensures !Ready(s, now) ==> Rest(s, now, out) == (s, out)
  {
    if Ready(s, now) {
      DropQueued(s);
      var owed, more := Owed(s.queue[0], s.buckets[s.queue[0]], now), Flushed(DropFront(s), now).1;
      assert out + (owed + more) == out + owed + more;
    } else {
      assert out + [] == out;
      assert s.queue != [] ==> s.queue[0] in s.queue;
    }
  }

  class AuditAggregator {
    const window: Time
    const maxPerKind: nat
    const maxTotal: nat
    var buckets: map<Key, Bucket>
    var perKind: map<string, int>
    var keyed: int
    var queue: seq<Key>
    ghost var firsts: map<Key, Time>

    ghost function Abs(): State
      reads this
    {
      State(window, maxPerKind, maxTotal, buckets, perKind, keyed, queue, firsts)
    }

    constructor (window: Time, maxPerKind: nat, maxTotal: nat)
      ensures Abs() == Start(window, maxPerKind, maxTotal)
    {
      this.window, this.maxPerKind, this.maxTotal := window, maxPerKind, maxTotal;
      buckets, perKind, keyed, queue, firsts := map[], map[], 0, [], map[];
    }

    method FlushLocked(now: Time) returns (out: seq<Line>)
      requires Queued(Abs())
      modifies this`buckets, this`perKind, this`keyed, this`queue
      ensures (Abs(), out) == Flushed(old(Abs()), now)
    {
      hide Flushed, Rest, Queued;
      out := [];
      var i := 0;
      RestStarts(Abs(), now);
      RestGoesOn(Abs(), now, []);
      assert queue[0..] == queue;
      while i < |queue|
        invariant i <= |queue| && queue == old(queue)
        invariant Queued(Abs().(queue := queue[i..]))
        invariant Rest(Abs().(queue := queue[i..]), now, out) == Flushed(old(Abs()), now)
      {
        var k := queue[i];
        ghost var s := Abs().(queue := queue[i..]);
        assert s.queue[0] == k && s.queue[1..] == queue[i + 1..];
        RestGoesOn(s, now, out);
        var b := buckets[k];
        if now - b.start < window {
          break;
        }
        assert out + [] == out;
        if b.suppressed > 0 {
          out := out + Owed(k, b, now);
        }
        buckets := buckets - {k};
        if k.key != OTHER {
          perKind := perKind[k.kind := Get(perKind, k.kind) - 1];
          keyed := keyed - 1;
        }
        i := i + 1;
        assert Abs().(queue := queue[i..]) == DropFront(s);
      }
      RestGoesOn(Abs().(queue := queue[i..]), now, out);
      queue := queue[i..];
    }

    /** Writes the event now, or counts it when its key was already written in the current window. */
    method Record(stream: string, key: string, e: Event, now: Time) returns (out: seq<Line>)
      requires Queued(Abs())
      modifies this`buckets, this`perKind, this`keyed, this`queue, this`firsts
      ensures (Abs(), out) == Recorded(old(Abs()), stream, key, e, now)
    {
      hide Queued, Flushed;
      out := FlushLocked(now);
      var k := Key(e.kind, key);
      if k !in buckets && (Get(perKind, e.kind) >= maxPerKind || keyed >= maxTotal) {
        k := Key(e.kind, OTHER);
      }
      if k in buckets {
        var b := buckets[k];
        buckets := buckets[k := b.(suppressed := b.suppressed + 1, last := e)];
        return;
      }
      buckets := buckets[k := Bucket(now, 0, e, stream)];
      firsts := firsts[k := now];
      queue := queue + [k];
      if k.key != OTHER {
        perKind := perKind[e.kind := Get(perKind, e.kind) + 1];
        keyed := keyed + 1;
      }
      out := out + [First(k, stream, e, now)];
    }
  }
}
