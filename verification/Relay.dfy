/**
 The relay of a provider's event stream to the client: bytes go through as they arrive, each whole line is looked at,
 and a provider error line is replaced. What a line's JSON says is left to the tests in Env.
 */
module Relay {
  import opened Basics

  newtype byte = x: int | 0 <= x < 256

  type Bytes = seq<byte>

  const NL: byte := 10
  const MAX_SSE_LINE := 0x10_0000
  const READ_SIZE := 32 * 1024
  const BAD_GATEWAY := 502

  datatype Cut = NoCut | Upstream | ByClient | Canceled | UplinkTimeout

  datatype End = EOF | ReadError

  /**
   What a line says (error: a provider error with its status), the event that stands for an error, whether the client
   takes its k-th write, and what ended the stream if it was our side, at a failed write and at the end of the body.
   */
  datatype Env = Env(error: Bytes -> Option<nat>, usage: Bytes -> Option<(int, int)>, done: Bytes -> bool, finish: Bytes -> bool,
                     event: nat -> Bytes, takes: nat -> bool, oursAtWrite: Cut, oursAtEnd: Cut)

  /** stopped: nothing more is relayed. */
  datatype Out = Out(written: Bytes, writes: nat, usage: (int, int), providerError: bool, status: nat, sawDone: bool, sawFinish: bool,
                     cut: Cut, readError: bool, clientError: bool, stopped: bool)

  const START := Out([], 0, (0, 0), false, 0, false, false, NoCut, false, false, false)

  function Write(env: Env, o: Out, b: Bytes): Out {
    if b == [] then o
    else if env.takes(o.writes) then o.(written := o.written + b, writes := o.writes + 1)
    else o.(writes := o.writes + 1, clientError := true, stopped := true,
            cut := if env.oursAtWrite == NoCut then ByClient else env.oursAtWrite)
  }

  /** What a line that is no error says of the stream. */
  function Noted(env: Env, o: Out, line: Bytes): Out {
    var usage, done := env.usage(line), env.done(line);
    o.(usage := if usage.Some? then usage.value else o.usage,
       sawDone := o.sawDone || done, sawFinish := o.sawFinish || (!done && env.finish(line)))
  }

  /** One line, with its newline if it has one. */
  function Handle(env: Env, o: Out, line: Bytes): Out {
    var error := env.error(line);
    if error.Some? then
      Write(env, o.(providerError := true, status := error.value, cut := Upstream), env.event(error.value)).(stopped := true)
    else
      Write(env, Noted(env, o, line), line)
  }

  /** After the last byte: our own end is no fault; a read error, or an end without a mark of one, is the provider's. */
  function Ended(env: Env, o: Out, end: End): Out {
    var t := o.(readError := end == ReadError, stopped := true);
    if env.oursAtEnd != NoCut then t.(cut := env.oursAtEnd)
    else if end == ReadError || (!t.sawDone && !t.sawFinish) then
      Write(env, t, env.event(BAD_GATEWAY)).(providerError := true, status := 0, cut := Upstream)
    else t
  }

  // The specification: the whole body, line by line.

  /** Where the first newline is; the length if there is none. */
  function Newline(s: Bytes): (k: nat)
    ensures k <= |s| && (k < |s| ==> s[k] == NL) && forall j :: 0 <= j < k ==> s[j] != NL
  {
    if s == [] || s[0] == NL then 0 else 1 + Newline(s[1..])
  }

  function Relayed(env: Env, o: Out, s: Bytes): Out
    decreases |s|
  {
    if o.stopped || s == [] then o
    else
      var k := Newline(s);
      if k == |s| then Handle(env, o, s) else Relayed(env, Handle(env, o, s[..k + 1]), s[k + 1..])
  }

  function Whole(env: Env, body: Bytes, end: End): Out {
    var o := Relayed(env, START, body);
    if o.stopped then o else Ended(env, o, end)
  }

  /** No line is longer than the relay keeps to look at. */
  predicate LinesFit(s: Bytes)
    decreases |s|
  {
    var k := Newline(s);
    k <= MAX_SSE_LINE && (k < |s| ==> LinesFit(s[k + 1..]))
  }

  // The relay as it runs: chunk by chunk.

  datatype St = St(o: Out, pending: Bytes, passthrough: bool)

  /** One read. A line that grows too long before its newline came is let through unread up to that newline. */
  function Feed(env: Env, st: St, chunk: Bytes): St
    decreases |chunk|
  {
    if st.o.stopped || chunk == [] then st
    else
      var nl := Newline(chunk);
      if st.passthrough then
        var stop := if nl < |chunk| then nl + 1 else |chunk|;
        Feed(env, st.(o := Write(env, st.o, chunk[..stop]), passthrough := nl == |chunk|), chunk[stop..])
      else if nl == |chunk| then
        var p := st.pending + chunk;
        if |p| > MAX_SSE_LINE then St(Write(env, st.o, p), [], true) else st.(pending := p)
      else Feed(env, St(Handle(env, st.o, st.pending + chunk[..nl + 1]), [], false), chunk[nl + 1..])
  }

  function Feeds(env: Env, st: St, chunks: seq<Bytes>): St {
    if chunks == [] then st else Feed(env, Feeds(env, st, chunks[..|chunks| - 1]), chunks[|chunks| - 1])
  }

  function Finish(env: Env, st: St, end: End): Out {
    if st.o.stopped then st.o
    else
      var o := if st.pending != [] && !st.passthrough then Handle(env, st.o, st.pending) else st.o;
      if o.stopped then o else Ended(env, o, end)
  }

  function Join(chunks: seq<Bytes>): Bytes {
    if chunks == [] then [] else Join(chunks[..|chunks| - 1]) + chunks[|chunks| - 1]
  }

  method FlushCopy(env: Env, chunks: seq<Bytes>, end: End) returns (out: Out)
    ensures out == Finish(env, Feeds(env, St(START, [], false), chunks), end)
  {
    hide Write, Handle, Ended, Newline;
    var o, pending, passthrough := START, [], false;
    for i := 0 to |chunks|
      invariant St(o, pending, passthrough) == Feeds(env, St(START, [], false), chunks[..i]) && !o.stopped
    {
      assert chunks[..i + 1][..i] == chunks[..i];
      ghost var before := St(o, pending, passthrough);
      var chunk := chunks[i];
      while chunk != []
        invariant !o.stopped && Feed(env, St(o, pending, passthrough), chunk) == Feed(env, before, chunks[i])
        decreases |chunk|
      {
        var nl := Newline(chunk);
        if passthrough {
          var stop := |chunk|;
          if nl < |chunk| {
            stop, passthrough := nl + 1, false;
          }
          o := Write(env, o, chunk[..stop]);
          chunk := chunk[stop..];
        } else if nl == |chunk| {
          pending, chunk := pending + chunk, [];
          if |pending| > MAX_SSE_LINE {
            o := Write(env, o, pending);
            pending, passthrough := [], true;
          }
        } else {
          o := Handle(env, o, pending + chunk[..nl + 1]);
          pending, chunk := [], chunk[nl + 1..];
        }
        if o.stopped {
          StoppedStays(env, St(START, [], false), chunks, i + 1);
          return o;
        }
      }
    }
    assert chunks[..|chunks|] == chunks;
    if pending != [] && !passthrough {
      o := Handle(env, o, pending);
      if o.stopped {
        return o;
      }
    }
    out := Ended(env, o, end);
  }

  lemma {:induction false} StoppedStays(env: Env, st: St, chunks: seq<Bytes>, i: nat)
    requires i <= |chunks| && Feeds(env, st, chunks[..i]).o.stopped
    ensures Feeds(env, st, chunks) == Feeds(env, st, chunks[..i])
    decreases |chunks|
  {
    if i < |chunks| {
      var front := chunks[..|chunks| - 1];
      assert front[..i] == chunks[..i];
      StoppedStays(env, st, front, i);
    } else {
      assert chunks[..i] == chunks;
    }
  }

  // How the upstream cuts its bytes does not matter.

  lemma {:induction false} NewlineAt(s: Bytes, k: nat)
    requires k < |s| && s[k] == NL && forall j :: 0 <= j < k ==> s[j] != NL
    ensures Newline(s) == k
  {
  }

  /** A state between reads as the specification sees it: what is pending and what comes still make up the body. */
  predicate Between(st: St, rest: Bytes) {
    st.o.stopped || (!st.passthrough && (forall j :: 0 <= j < |st.pending| ==> st.pending[j] != NL) && LinesFit(st.pending + rest))
  }

  /** With no newline before n, the first line of s is longer than n. */
  lemma LineIsLonger(s: Bytes, n: nat)
    requires n <= |s| && forall j :: 0 <= j < n ==> s[j] != NL
    ensures n <= Newline(s)
  {
  }

  lemma FirstLineOff(env: Env, o: Out, s: Bytes, k: nat)
    requires k < |s| && Newline(s) == k && !o.stopped && LinesFit(s)
    ensures LinesFit(s[k + 1..]) && Relayed(env, o, s) == Relayed(env, Handle(env, o, s[..k + 1]), s[k + 1..])
  {
    hide Handle;
  }

  /** Where the first line of the pending bytes, a chunk and the rest ends, and what is left after it. */
  lemma LineAcross(pending: Bytes, chunk: Bytes, rest: Bytes)
    requires (forall j :: 0 <= j < |pending| ==> pending[j] != NL) && Newline(chunk) < |chunk|
    ensures var s, nl := pending + (chunk + rest), Newline(chunk);
      var k := |pending| + nl;
      Newline(s) == k < |s| && s[..k + 1] == pending + chunk[..nl + 1] && s[k + 1..] == [] + (chunk[nl + 1..] + rest)
  {
    var s, nl := pending + (chunk + rest), Newline(chunk);
    var k := |pending| + nl;
    SplitJoinedLate(pending, chunk + rest, k + 1);
    SplitJoined(chunk, rest, nl + 1);
    assert [] + (chunk[nl + 1..] + rest) == chunk[nl + 1..] + rest;
    NewlineAt(s, k);
  }

  lemma {:induction false} FeedIsRelay(env: Env, st: St, chunk: Bytes, rest: Bytes)
    requires Between(st, chunk + rest)
    ensures Between(Feed(env, st, chunk), rest)
    ensures Relayed(env, Feed(env, st, chunk).o, Feed(env, st, chunk).pending + rest) == Relayed(env, st.o, st.pending + (chunk + rest))
    decreases |chunk|
  {
    hide Handle, Write, Relayed, LinesFit;
    if st.o.stopped {
      StoppedRelays(env, st.o);
    } else if chunk == [] {
      assert chunk + rest == rest;
    } else {
      var nl := Newline(chunk);
      if nl == |chunk| {
        assert st.pending + (chunk + rest) == (st.pending + chunk) + rest;
        LineIsLonger((st.pending + chunk) + rest, |st.pending + chunk|);
        FirstLineFits((st.pending + chunk) + rest);
      } else {
        LineAcross(st.pending, chunk, rest);
        FirstLineOff(env, st.o, st.pending + (chunk + rest), |st.pending| + nl);
        FeedIsRelay(env, St(Handle(env, st.o, st.pending + chunk[..nl + 1]), [], false), chunk[nl + 1..], rest);
      }
    }
  }

  lemma StoppedRelays(env: Env, o: Out)
    requires o.stopped
    ensures forall s :: Relayed(env, o, s) == o
  {
  }

  lemma FirstLineFits(s: Bytes)
    requires LinesFit(s)
    ensures Newline(s) <= MAX_SSE_LINE
  {
  }

  lemma {:induction false} FeedsIsRelay(env: Env, chunks: seq<Bytes>, rest: Bytes)
    requires LinesFit(Join(chunks) + rest)
    ensures var st := Feeds(env, St(START, [], false), chunks);
      Between(st, rest) && Relayed(env, st.o, st.pending + rest) == Relayed(env, START, Join(chunks) + rest)
  {
    if chunks == [] {
      assert [] + rest == rest;
    } else {
      var front, last := chunks[..|chunks| - 1], chunks[|chunks| - 1];
      assert Join(chunks) + rest == Join(front) + (last + rest);
      FeedsIsRelay(env, front, last + rest);
      FeedIsRelay(env, Feeds(env, St(START, [], false), front), last, rest);
    }
  }

  /**
   For a body whose lines fit, the bytes written and everything reported are those of the whole body taken line by
   line: however it was cut into reads, whichever writes fail and whatever ended it.
   */
  lemma ChunksDoNotMatter(env: Env, chunks: seq<Bytes>, end: End)
    requires LinesFit(Join(chunks))
    ensures Finish(env, Feeds(env, St(START, [], false), chunks), end) == Whole(env, Join(chunks), end)
  {
    var st := Feeds(env, St(START, [], false), chunks);
    assert Join(chunks) + [] == Join(chunks) && st.pending + [] == st.pending;
    FeedsIsRelay(env, chunks, []);
    if !st.o.stopped && st.pending != [] {
      assert Newline(st.pending) == |st.pending|;
    }
  }

  // What the specification says.

  /** No line of s is a provider error. */
  predicate Clean(env: Env, s: Bytes)
    decreases |s|
  {
    s == [] ||
    (var k := Newline(s);
     if k == |s| then env.error(s).None? else env.error(s[..k + 1]).None? && Clean(env, s[k + 1..]))
  }

  ghost predicate Listening(env: Env) {
    forall k :: env.takes(k)
  }

  ghost predicate Working(env: Env) {
    Listening(env) && env.oursAtEnd == NoCut
  }

  /** Whole lines: nothing, or the last byte is a newline. */
  predicate WholeLines(s: Bytes) {
    s == [] || s[|s| - 1] == NL
  }

  lemma HandleClean(env: Env, o: Out, line: Bytes)
    requires Listening(env) && !o.stopped && env.error(line).None?
    ensures var t := Handle(env, o, line); !t.stopped && t.written == o.written + line && t.cut == o.cut
  {
    assert o.written + [] == o.written;
  }

  /** To a client that listens, lines without a provider error go through byte for byte. */
  lemma {:induction false} CleanGoesThrough(env: Env, o: Out, s: Bytes)
    requires Listening(env) && !o.stopped && Clean(env, s)
    ensures var r := Relayed(env, o, s); !r.stopped && r.written == o.written + s && r.cut == o.cut
    decreases |s|
  {
    hide Handle;
    if s != [] {
      var k := Newline(s);
      if k == |s| {
        HandleClean(env, o, s);
      } else {
        HandleClean(env, o, s[..k + 1]);
        CleanGoesThrough(env, Handle(env, o, s[..k + 1]), s[k + 1..]);
        assert s[..k + 1] + s[k + 1..] == s;
      }
    }
  }

  /** Whole lines may be relayed first, and the rest after. */
  lemma {:induction false} RelayedJoins(env: Env, o: Out, a: Bytes, rest: Bytes)
    requires WholeLines(a)
    ensures Relayed(env, o, a + rest) == Relayed(env, Relayed(env, o, a), rest)
    decreases |a|
  {
    hide Handle;
    if a == [] || o.stopped {
      assert a == [] ==> a + rest == rest;
    } else {
      var k := Newline(a);
      NewlineAt(a + rest, k);
      assert (a + rest)[..k + 1] == a[..k + 1] && (a + rest)[k + 1..] == a[k + 1..] + rest;
      RelayedJoins(env, Handle(env, o, a[..k + 1]), a[k + 1..], rest);
    }
  }

  /**
   The first provider error line ends the stream: every byte before it is relayed once and in order, the error event
   stands in its place, and nothing after it is sent.
   */
  lemma ErrorLineEndsTheStream(env: Env, a: Bytes, line: Bytes, b: Bytes, end: End)
    requires Working(env) && Clean(env, a) && WholeLines(a)
    requires line != [] && env.error(line).Some? && env.event(env.error(line).value) != []
    requires Newline(line) == |line| - 1 || (Newline(line) == |line| && b == [])
    ensures var o := Whole(env, a + line + b, end);
      && o.written == a + env.event(env.error(line).value)
      && o.providerError && o.status == env.error(line).value && o.cut == Upstream
  {
    hide Relayed, Handle, Clean, WholeLines;
    assert a + line + b == a + (line + b);
    RelayedJoins(env, START, a, line + b);
    CleanGoesThrough(env, START, a);
    assert START.written + a == a;
    ErrorLineFirst(env, Relayed(env, START, a), line, b);
  }

  lemma ErrorLineFirst(env: Env, o: Out, line: Bytes, b: Bytes)
    requires Working(env) && !o.stopped && line != [] && env.error(line).Some? && env.event(env.error(line).value) != []
    requires Newline(line) == |line| - 1 || (Newline(line) == |line| && b == [])
    ensures var t, status := Relayed(env, o, line + b), env.error(line).value;
      t.stopped && t.written == o.written + env.event(status) && t.providerError && t.status == status && t.cut == Upstream
  {
    FirstLine(env, o, line, b);
    var t := Handle(env, o, line);
    assert t.stopped;
  }

  /** The first line is handled first. */
  lemma FirstLine(env: Env, o: Out, line: Bytes, b: Bytes)
    requires !o.stopped && line != []
    requires Newline(line) == |line| - 1 || (Newline(line) == |line| && b == [])
    ensures Relayed(env, o, line + b) == if b == [] then Handle(env, o, line) else Relayed(env, Handle(env, o, line), b)
  {
    hide Handle;
    if Newline(line) == |line| - 1 {
      NewlineAt(line + b, |line| - 1);
      assert (line + b)[..|line|] == line && (line + b)[|line|..] == b;
    } else {
      assert line + b == line;
    }
  }

  /** Without one the whole body goes through. It counts as complete just when it ended, and some line said so. */
  lemma CleanBodyIsRelayed(env: Env, body: Bytes, end: End)
    requires Working(env) && Clean(env, body)
    ensures var o, r := Whole(env, body, end), Relayed(env, START, body);
      && !r.stopped && r.written == body
      && (o.cut == NoCut <==> end == EOF && (r.sawDone || r.sawFinish))
      && o.written == (if o.cut == NoCut then body else body + env.event(BAD_GATEWAY))
  {
    hide Handle, Relayed, Clean;
    CleanGoesThrough(env, START, body);
    assert START.written + body == body;
  }

  // What the lines say.

  /** The lines of s, each with its newline but perhaps the last. */
  function Lines(s: Bytes): seq<Bytes>
    decreases |s|
  {
    if s == [] then []
    else
      var k := Newline(s);
      if k == |s| then [s] else [s[..k + 1]] + Lines(s[k + 1..])
  }

  /** The usage the last line that tells one tells. */
  function LastUsage(env: Env, lines: seq<Bytes>, u: (int, int)): (int, int) {
    if lines == [] then u
    else LastUsage(env, lines[1..], if env.usage(lines[0]).Some? then env.usage(lines[0]).value else u)
  }

  lemma NotedOne(env: Env, o: Out, line: Bytes)
    requires Listening(env) && !o.stopped && env.error(line).None?
    ensures var t := Handle(env, o, line);
      && !t.stopped
      && (t.sawDone <==> o.sawDone || env.done(line)) && (t.sawFinish <==> o.sawFinish || (!env.done(line) && env.finish(line)))
      && t.usage == (if env.usage(line).Some? then env.usage(line).value else o.usage)
      && t.providerError == o.providerError && t.status == o.status && t.clientError == o.clientError
  {
  }

  /** After a clean body the stream ended properly just if some line said so, and its usage is the last one told. */
  lemma {:induction false} LinesAreNoted(env: Env, o: Out, s: Bytes)
    requires Listening(env) && !o.stopped && Clean(env, s)
    ensures var r := Relayed(env, o, s);
      && !r.stopped
      && (r.sawDone <==> o.sawDone || exists i :: 0 <= i < |Lines(s)| && env.done(Lines(s)[i]))
      && (r.sawFinish <==> o.sawFinish || exists i :: 0 <= i < |Lines(s)| && !env.done(Lines(s)[i]) && env.finish(Lines(s)[i]))
      && r.usage == LastUsage(env, Lines(s), o.usage)
      && r.providerError == o.providerError && r.status == o.status && r.clientError == o.clientError
    decreases |s|
  {
    hide Handle;
    if s != [] {
      var k := Newline(s);
      var line, rest := if k == |s| then s else s[..k + 1], if k == |s| then [] else s[k + 1..];
      NotedOne(env, o, line);
      if k < |s| {
        LinesAreNoted(env, Handle(env, o, line), rest);
        assert Lines(s)[1..] == Lines(rest);
        assert forall i :: 0 <= i < |Lines(rest)| ==> Lines(s)[i + 1] == Lines(rest)[i];
        assert forall i :: 0 < i < |Lines(s)| ==> Lines(s)[i] == Lines(rest)[i - 1];
      } else {
        assert LastUsage(env, [], o.usage) == o.usage;
      }
      assert Lines(s)[0] == line;
    }
  }

  /** A stream that our side ended is no fault of the provider: all that came was relayed, and no event is added. */
  lemma OurEndIsNoFault(env: Env, body: Bytes, end: End)
    requires Listening(env) && Clean(env, body) && env.oursAtEnd != NoCut
    ensures var o := Whole(env, body, end);
      o.written == body && o.cut == env.oursAtEnd && !o.providerError && o.usage == LastUsage(env, Lines(body), (0, 0))
  {
    hide Handle, Relayed, Clean, Lines;
    CleanGoesThrough(env, START, body);
    LinesAreNoted(env, START, body);
    assert START.written + body == body;
  }

  // Failed writes.

  /** Only the last write may have failed, and then nothing more is relayed; it is the client's end unless our side caused it. */
  ghost predicate WritesFit(env: Env, o: Out) {
    && (forall k :: 0 <= k < o.writes - (if o.clientError then 1 else 0) ==> env.takes(k))
    && (o.clientError ==> o.stopped && o.writes > 0 && !env.takes(o.writes - 1))
    && (o.clientError && !o.providerError ==> o.cut == if env.oursAtWrite == NoCut then ByClient else env.oursAtWrite)
  }

  lemma WriteFits(env: Env, o: Out, b: Bytes)
    requires WritesFit(env, o) && !o.stopped
    ensures WritesFit(env, Write(env, o, b))
  {
  }

  lemma HandleFits(env: Env, o: Out, line: Bytes)
    requires WritesFit(env, o) && !o.stopped
    ensures WritesFit(env, Handle(env, o, line))
  {
    hide Write;
    var error := env.error(line);
    if error.Some? {
      WriteFits(env, o.(providerError := true, status := error.value, cut := Upstream), env.event(error.value));
      WriteStops(env, o.(providerError := true, status := error.value, cut := Upstream), env.event(error.value));
    } else {
      WriteFits(env, Noted(env, o, line), line);
    }
  }

  lemma WriteStops(env: Env, o: Out, b: Bytes)
    ensures Write(env, o, b).providerError == o.providerError
  {
  }

  lemma EndedFits(env: Env, o: Out, end: End)
    requires WritesFit(env, o) && !o.stopped
    ensures WritesFit(env, Ended(env, o, end))
  {
  }

  lemma {:induction false} FeedFits(env: Env, st: St, chunk: Bytes)
    requires WritesFit(env, st.o)
    ensures WritesFit(env, Feed(env, st, chunk).o)
    decreases |chunk|
  {
    hide Handle, Write, WritesFit;
    if !st.o.stopped && chunk != [] {
      var nl := Newline(chunk);
      var stop := if nl < |chunk| then nl + 1 else |chunk|;
      if st.passthrough {
        WriteFits(env, st.o, chunk[..stop]);
        FeedFits(env, st.(o := Write(env, st.o, chunk[..stop]), passthrough := nl == |chunk|), chunk[stop..]);
      } else if nl < |chunk| {
        HandleFits(env, st.o, st.pending + chunk[..stop]);
        FeedFits(env, St(Handle(env, st.o, st.pending + chunk[..stop]), [], false), chunk[stop..]);
      } else {
        WriteFits(env, st.o, st.pending + chunk);
      }
    }
  }

  lemma {:induction false} FeedsFit(env: Env, chunks: seq<Bytes>)
    ensures WritesFit(env, Feeds(env, St(START, [], false), chunks).o)
  {
    if chunks != [] {
      FeedsFit(env, chunks[..|chunks| - 1]);
      FeedFits(env, Feeds(env, St(START, [], false), chunks[..|chunks| - 1]), chunks[|chunks| - 1]);
    }
  }

  /** For every body and cut: the relay stops at the first write the client does not take, and reports whose end it was. */
  lemma FailedWriteEnds(env: Env, chunks: seq<Bytes>, end: End)
    ensures WritesFit(env, Finish(env, Feeds(env, St(START, [], false), chunks), end))
  {
    hide Handle, Ended, Feeds, WritesFit;
    FeedsFit(env, chunks);
    var st := Feeds(env, St(START, [], false), chunks);
    if !st.o.stopped {
      if st.pending != [] && !st.passthrough {
        HandleFits(env, st.o, st.pending);
        if !Handle(env, st.o, st.pending).stopped {
          EndedFits(env, Handle(env, st.o, st.pending), end);
        }
      } else {
        EndedFits(env, st.o, end);
      }
    }
  }

  // Any body, long lines and failing writes included.

  /** What was written is the body from its start, and perhaps an error event after it. */
  ghost predicate InOrder(env: Env, o: Out, src: Bytes) {
    exists n :: 0 <= n <= |src|
      && (o.written == src[..n] || (o.providerError && exists status :: o.written == src[..n] + env.event(status)))
  }

  ghost predicate Kept(env: Env, st: St, src: Bytes) {
    if st.o.stopped then InOrder(env, st.o, src)
    else st.o.written + st.pending == src && (st.passthrough ==> st.pending == [])
  }

  lemma InOrderOn(env: Env, o: Out, src: Bytes, more: Bytes)
    requires InOrder(env, o, src)
    ensures InOrder(env, o, src + more)
  {
    var n :| 0 <= n <= |src|
      && (o.written == src[..n] || (o.providerError && exists status :: o.written == src[..n] + env.event(status)));
    assert (src + more)[..n] == src[..n];
  }

  lemma WriteKeeps(env: Env, o: Out, b: Bytes, src: Bytes)
    requires !o.stopped && o.written + b == src
    ensures var t := Write(env, o, b); if t.stopped then InOrder(env, t, src) else t.written == src
  {
    assert src[..|o.written|] == o.written;
  }

  lemma HandleKeeps(env: Env, o: Out, line: Bytes, src: Bytes)
    requires !o.stopped && o.written + line == src
    ensures var t := Handle(env, o, line); if t.stopped then InOrder(env, t, src) else t.written == src
  {
    assert src[..|o.written|] == o.written;
    assert o.written + [] == o.written;
  }

  lemma {:induction false} FeedKeeps(env: Env, st: St, chunk: Bytes, src: Bytes)
    requires Kept(env, st, src)
    ensures Kept(env, Feed(env, st, chunk), src + chunk)
    decreases |chunk|
  {
    hide Handle, Write, InOrder;
    if st.o.stopped {
      InOrderOn(env, st.o, src, chunk);
    } else if chunk == [] {
      assert src + chunk == src;
    } else {
      var nl := Newline(chunk);
      var k := if nl < |chunk| then nl + 1 else |chunk|;
      assert src + chunk == (src + chunk[..k]) + chunk[k..];
      assert st.o.written + (st.pending + chunk[..k]) == src + chunk[..k];
      if st.passthrough {
        assert st.pending + chunk[..k] == chunk[..k];
        WriteKeeps(env, st.o, chunk[..k], src + chunk[..k]);
        FeedKeeps(env, st.(o := Write(env, st.o, chunk[..k]), passthrough := nl == |chunk|), chunk[k..], src + chunk[..k]);
      } else if nl < |chunk| {
        HandleKeeps(env, st.o, st.pending + chunk[..k], src + chunk[..k]);
        FeedKeeps(env, St(Handle(env, st.o, st.pending + chunk[..k]), [], false), chunk[k..], src + chunk[..k]);
      } else {
        assert chunk[..k] == chunk && src + chunk[..k] == src + chunk;
        WriteKeeps(env, st.o, st.pending + chunk, src + chunk);
      }
    }
  }

  lemma {:induction false} FeedsKeep(env: Env, chunks: seq<Bytes>)
    ensures Kept(env, Feeds(env, St(START, [], false), chunks), Join(chunks))
  {
    if chunks != [] {
      FeedsKeep(env, chunks[..|chunks| - 1]);
      FeedKeeps(env, Feeds(env, St(START, [], false), chunks[..|chunks| - 1]), chunks[|chunks| - 1], Join(chunks[..|chunks| - 1]));
    }
  }

  lemma EndedKeeps(env: Env, o: Out, end: End, src: Bytes)
    requires !o.stopped && o.written == src
    ensures InOrder(env, Ended(env, o, end), src)
  {
    assert src[..|src|] == src;
  }

  /** For every body, client and cut into reads: the body goes out in order, each byte at most once, and at most an error event after it. */
  lemma BytesStayInOrder(env: Env, chunks: seq<Bytes>, end: End)
    ensures InOrder(env, Finish(env, Feeds(env, St(START, [], false), chunks), end), Join(chunks))
  {
    hide Handle, Ended, InOrder, Feeds, Join;
    FeedsKeep(env, chunks);
    var st, src := Feeds(env, St(START, [], false), chunks), Join(chunks);
    if !st.o.stopped {
      if st.pending != [] && !st.passthrough {
        HandleKeeps(env, st.o, st.pending, src);
        var o := Handle(env, st.o, st.pending);
        if !o.stopped {
          EndedKeeps(env, o, end, src);
        }
      } else {
        assert st.o.written + [] == st.o.written;
        EndedKeeps(env, st.o, end, src);
      }
    }
  }

  // Longer lines: which are looked at, and when that depends on the reads.

  /** One read fills the buffer at most. */
  predicate Reads(chunks: seq<Bytes>) {
    forall i :: 0 <= i < |chunks| ==> |chunks[i]| <= READ_SIZE
  }

  /** No line longer than the relay keeps is so short that its last read could complete it before it is given up. */
  predicate NoneBetween(s: Bytes)
    decreases |s|
  {
    var k := Newline(s);
    k < |s| ==> !(MAX_SSE_LINE < k < MAX_SSE_LINE + READ_SIZE) && NoneBetween(s[k + 1..])
  }

  /** All that is reported of a stream but how many writes it took. */
  function Shown(o: Out): Out {
    o.(writes := 0)
  }

  function Passed(o: Out, line: Bytes): Out {
    o.(written := o.written + line)
  }

  function LineShown(env: Env, o: Out, line: Bytes, k: nat): Out {
    if k <= MAX_SSE_LINE then Shown(Handle(env, o, line)) else Passed(o, line)
  }

  /** Line by line: those the relay keeps are looked at, longer ones go through. */
  function Through(env: Env, o: Out, s: Bytes): Out
    decreases |s|
  {
    if o.stopped || s == [] then o
    else
      var k := Newline(s);
      if k == |s| then LineShown(env, o, s, k) else Through(env, LineShown(env, o, s[..k + 1], k), s[k + 1..])
  }

  function WholeShown(env: Env, body: Bytes, end: End): Out {
    var o := Through(env, START, body);
    if o.stopped then o else Shown(Ended(env, o, end))
  }

  /** The rest of a line that is let through, and what follows it. */
  function PassOn(env: Env, o: Out, s: Bytes): Out {
    var k := Newline(s);
    if o.stopped then o
    else if k == |s| then Passed(o, s)
    else Through(env, Passed(o, s[..k + 1]), s[k + 1..])
  }

  /** What comes of a state between reads when the rest is still to come. */
  function Ahead(env: Env, st: St, rest: Bytes): Out {
    if st.passthrough then PassOn(env, Shown(st.o), rest) else Through(env, Shown(st.o), st.pending + rest)
  }

  predicate BetweenReads(st: St, rest: Bytes) {
    || st.o.stopped
    || (if st.passthrough then st.pending == [] && (Newline(rest) < |rest| ==> NoneBetween(rest[Newline(rest) + 1..]))
        else |st.pending| <= MAX_SSE_LINE && (forall j :: 0 <= j < |st.pending| ==> st.pending[j] != NL)
             && NoneBetween(st.pending + rest))
  }

  lemma WriteShown(env: Env, o: Out, b: Bytes)
    requires Listening(env)
    ensures Shown(Write(env, o, b)) == Passed(Shown(o), b)
  {
    assert o.written + [] == o.written;
  }

  lemma NotedShown(env: Env, o: Out, line: Bytes)
    ensures Noted(env, Shown(o), line) == Shown(Noted(env, o, line))
  {
  }

  lemma HandleShown(env: Env, o: Out, line: Bytes)
    requires Listening(env)
    ensures Shown(Handle(env, Shown(o), line)) == Shown(Handle(env, o, line))
  {
    hide Write, Noted;
    var error := env.error(line);
    if error.Some? {
      var t := o.(providerError := true, status := error.value, cut := Upstream);
      StopShown(env, t, Shown(t), env.event(error.value));
    } else {
      NotedShown(env, o, line);
      WriteShown(env, Noted(env, o, line), line);
      WriteShown(env, Shown(Noted(env, o, line)), line);
    }
  }

  lemma StopShown(env: Env, t: Out, u: Out, event: Bytes)
    requires Listening(env) && u == Shown(t)
    ensures Shown(Write(env, t, event).(stopped := true)) == Shown(Write(env, u, event).(stopped := true))
  {
    hide Write;
    WriteShown(env, t, event);
    WriteShown(env, u, event);
    var a, b := Write(env, t, event), Write(env, u, event);
    assert Shown(a) == Shown(b);
    assert Shown(a.(stopped := true)) == Shown(a).(stopped := true);
    assert Shown(b.(stopped := true)) == Shown(b).(stopped := true);
  }

  lemma EndedShown(env: Env, o: Out, end: End)
    requires Listening(env)
    ensures Shown(Ended(env, Shown(o), end)) == Shown(Ended(env, o, end))
  {
    hide Write;
    var t := o.(readError := end == ReadError, stopped := true);
    WriteShown(env, t, env.event(BAD_GATEWAY));
    WriteShown(env, Shown(t), env.event(BAD_GATEWAY));
  }

  lemma PassedTwice(o: Out, a: Bytes, b: Bytes)
    ensures Passed(Passed(o, a), b) == Passed(o, a + b)
  {
    assert o.written + a + b == o.written + (a + b);
  }

  /** Bytes without a newline before s only move its first one. */
  lemma NewlineAfter(a: Bytes, s: Bytes)
    requires forall j :: 0 <= j < |a| ==> a[j] != NL
    ensures var k := Newline(s);
      && Newline(a + s) == |a| + k
      && (k < |s| ==> (a + s)[..|a| + k + 1] == a + s[..k + 1] && (a + s)[|a| + k + 1..] == s[k + 1..])
  {
    var k := Newline(s);
    if k < |s| {
      NewlineAt(a + s, |a| + k);
      SplitJoinedLate(a, s, |a| + k + 1);
    } else {
      LineIsLonger(a + s, |a + s|);
    }
  }

  /** a, without a newline, was let through, and the line goes on. */
  lemma PassesOn(env: Env, o: Out, a: Bytes, rest: Bytes)
    requires forall j :: 0 <= j < |a| ==> a[j] != NL
    ensures PassOn(env, o, a + rest) == if o.stopped then o else PassOn(env, Passed(o, a), rest)
  {
    hide Through;
    NewlineAfter(a, rest);
    var k := Newline(rest);
    PassedTwice(o, a, if k < |rest| then rest[..k + 1] else rest);
  }

  lemma LongGoesThrough(env: Env, o: Out, a: Bytes, rest: Bytes)
    requires !o.stopped && |a| > MAX_SSE_LINE && forall j :: 0 <= j < |a| ==> a[j] != NL
    ensures Through(env, o, a + rest) == PassOn(env, Passed(o, a), rest)
  {
    hide Handle, Newline;
    NewlineAfter(a, rest);
    var k := Newline(rest);
    PassedTwice(o, a, if k < |rest| then rest[..k + 1] else rest);
  }

  lemma RestOfLong(a: Bytes, rest: Bytes)
    requires NoneBetween(a + rest) && forall j :: 0 <= j < |a| ==> a[j] != NL
    ensures Newline(rest) < |rest| ==> NoneBetween(rest[Newline(rest) + 1..])
  {
    hide Newline;
    NewlineAfter(a, rest);
  }

  /** The first newline of a chunk is the first of the chunk and the rest. */
  lemma NewlineWithin(chunk: Bytes, rest: Bytes)
    requires Newline(chunk) < |chunk|
    ensures var k := Newline(chunk);
      Newline(chunk + rest) == k && (chunk + rest)[..k + 1] == chunk[..k + 1] && (chunk + rest)[k + 1..] == chunk[k + 1..] + rest
  {
    NewlineAt(chunk + rest, Newline(chunk));
    SplitJoined(chunk, rest, Newline(chunk) + 1);
  }

  /** A line that ends in this read and was not given up is one the relay keeps: longer ones were given up before. */
  lemma EndsInRead(env: Env, st: St, chunk: Bytes, rest: Bytes)
    requires BetweenReads(st, chunk + rest) && !st.o.stopped && !st.passthrough && Newline(chunk) < |chunk| <= READ_SIZE
    ensures var nl := Newline(chunk);
      && NoneBetween([] + (chunk[nl + 1..] + rest))
      && Through(env, Shown(st.o), st.pending + (chunk + rest))
         == Through(env, Shown(Handle(env, Shown(st.o), st.pending + chunk[..nl + 1])), [] + (chunk[nl + 1..] + rest))
  {
    hide Handle, Newline;
    LineAcross(st.pending, chunk, rest);
  }

  /** The line being let through ends in this read. */
  lemma PassEnds(env: Env, st: St, chunk: Bytes, rest: Bytes)
    requires Listening(env) && BetweenReads(st, chunk + rest) && !st.o.stopped && st.passthrough && Newline(chunk) < |chunk|
    ensures var t, more := Write(env, st.o, chunk[..Newline(chunk) + 1]), chunk[Newline(chunk) + 1..];
      NoneBetween([] + (more + rest)) && Through(env, Shown(t), [] + (more + rest)) == PassOn(env, Shown(st.o), chunk + rest)
  {
    hide Through, NoneBetween, Write;
    var k := Newline(chunk);
    NewlineWithin(chunk, rest);
    WriteShown(env, st.o, chunk[..k + 1]);
    assert [] + (chunk[k + 1..] + rest) == chunk[k + 1..] + rest;
  }

  /** It does not: the whole read is let through. */
  lemma PassGoesOn(env: Env, st: St, chunk: Bytes, rest: Bytes)
    requires Listening(env) && BetweenReads(st, chunk + rest) && !st.o.stopped && st.passthrough && Newline(chunk) == |chunk|
    ensures var t := Write(env, st.o, chunk);
      PassOn(env, Shown(t), rest) == PassOn(env, Shown(st.o), chunk + rest)
      && (Newline(rest) < |rest| ==> NoneBetween(rest[Newline(rest) + 1..]))
  {
    hide Through, NoneBetween, Write, PassOn;
    WriteShown(env, st.o, chunk);
    PassesOn(env, Shown(st.o), chunk, rest);
    NewlineAfter(chunk, rest);
  }

  /** A read without a newline goes to the line kept so far, which may now be too long. */
  lemma LineGoesOn(env: Env, st: St, chunk: Bytes, rest: Bytes)
    requires Listening(env) && BetweenReads(st, chunk + rest) && !st.o.stopped && !st.passthrough && Newline(chunk) == |chunk|
    ensures var p := st.pending + chunk;
      var t := if |p| > MAX_SSE_LINE then St(Write(env, st.o, p), [], true) else st.(pending := p);
      BetweenReads(t, rest) && Ahead(env, t, rest) == Ahead(env, st, chunk + rest)
  {
    hide Through, NoneBetween, Write, PassOn;
    var p := st.pending + chunk;
    assert st.pending + (chunk + rest) == p + rest;
    if |p| > MAX_SSE_LINE {
      WriteShown(env, st.o, p);
      LongGoesThrough(env, Shown(st.o), p, rest);
      RestOfLong(p, rest);
    }
  }

  lemma {:induction false} FeedIsThrough(env: Env, st: St, chunk: Bytes, rest: Bytes)
    requires Listening(env) && BetweenReads(st, chunk + rest) && |chunk| <= READ_SIZE
    ensures BetweenReads(Feed(env, st, chunk), rest)
    ensures Ahead(env, Feed(env, st, chunk), rest) == Ahead(env, st, chunk + rest)
    decreases |chunk|
  {
    hide Handle, Write, Through, NoneBetween, PassOn, Newline;
    if st.o.stopped {
      StoppedGoesNowhere(env, Shown(st.o));
    } else if chunk == [] {
      assert chunk + rest == rest;
    } else {
      var nl := Newline(chunk);
      if st.passthrough {
        var stop := if nl < |chunk| then nl + 1 else |chunk|;
        var t := st.(o := Write(env, st.o, chunk[..stop]), passthrough := nl == |chunk|);
        if nl < |chunk| {
          PassEnds(env, st, chunk, rest);
        } else {
          assert chunk[..stop] == chunk && chunk[stop..] + rest == rest;
          PassGoesOn(env, st, chunk, rest);
        }
        FeedIsThrough(env, t, chunk[stop..], rest);
      } else if nl == |chunk| {
        LineGoesOn(env, st, chunk, rest);
      } else {
        EndsInRead(env, st, chunk, rest);
        HandleShown(env, st.o, st.pending + chunk[..nl + 1]);
        FeedIsThrough(env, St(Handle(env, st.o, st.pending + chunk[..nl + 1]), [], false), chunk[nl + 1..], rest);
      }
    }
  }

  lemma StoppedGoesNowhere(env: Env, o: Out)
    requires o.stopped
    ensures forall s :: Through(env, o, s) == o && PassOn(env, o, s) == o
  {
  }

  lemma {:induction false} FeedsIsThrough(env: Env, chunks: seq<Bytes>, rest: Bytes)
    requires Listening(env) && Reads(chunks) && NoneBetween(Join(chunks) + rest)
    ensures var st := Feeds(env, St(START, [], false), chunks);
      BetweenReads(st, rest) && Ahead(env, st, rest) == Through(env, START, Join(chunks) + rest)
  {
    if chunks == [] {
      assert [] + rest == rest;
    } else {
      var front, last := chunks[..|chunks| - 1], chunks[|chunks| - 1];
      assert Join(chunks) + rest == Join(front) + (last + rest);
      FeedsIsThrough(env, front, last + rest);
      FeedIsThrough(env, Feeds(env, St(START, [], false), front), last, rest);
    }
  }

  lemma FinishIsThrough(env: Env, st: St, end: End)
    requires Listening(env) && BetweenReads(st, [])
    ensures var o := Ahead(env, st, []); Shown(Finish(env, st, end)) == if o.stopped then o else Shown(Ended(env, o, end))
  {
    hide Handle, Ended;
    var o := Shown(st.o);
    if st.o.stopped {
      StoppedGoesNowhere(env, o);
    } else if st.passthrough {
      assert o.written + [] == o.written;
      EndedShown(env, st.o, end);
    } else {
      assert st.pending + [] == st.pending;
      LineIsLonger(st.pending, |st.pending|);
      HandleShown(env, st.o, st.pending);
      EndedShown(env, if st.pending == [] then st.o else Handle(env, st.o, st.pending), end);
    }
  }

  /**
   To a client that listens, a line the relay keeps is looked at and one longer by a read or more goes through. So if
   no line is between, everything reported is that of the body, however it was cut into reads.
   */
  lemma ReadsDoNotMatter(env: Env, chunks: seq<Bytes>, end: End)
    requires Listening(env) && Reads(chunks) && NoneBetween(Join(chunks))
    ensures Shown(Finish(env, Feeds(env, St(START, [], false), chunks), end)) == WholeShown(env, Join(chunks), end)
  {
    hide Through, NoneBetween, Finish, Feeds, Ended;
    assert Join(chunks) + [] == Join(chunks);
    FeedsIsThrough(env, chunks, []);
    FinishIsThrough(env, Feeds(env, St(START, [], false), chunks), end);
  }

  function LastRead(s: Bytes): (k: nat)
    requires s != []
    ensures k < |s| <= k + READ_SIZE
  {
    if |s| < READ_SIZE then 0 else |s| - READ_SIZE
  }

  /** s in full reads. */
  function FullReads(s: Bytes): (r: seq<Bytes>)
    ensures Reads(r) && Join(r) == s
    decreases |s|
  {
    if s == [] then [] else FullReads(s[..LastRead(s)]) + [s[LastRead(s)..]]
  }

  lemma FullReadsIs(s: Bytes)
    requires s != []
    ensures FullReads(s) == FullReads(s[..LastRead(s)]) + [s[LastRead(s)..]]
  {
  }

  lemma FeedNext(env: Env, st: St, chunks: seq<Bytes>, chunk: Bytes)
    ensures Feeds(env, st, chunks + [chunk]) == Feed(env, Feeds(env, st, chunks), chunk)
  {
    assert (chunks + [chunk])[..|chunks|] == chunks;
  }

  lemma NoReads(env: Env, st: St)
    ensures Feeds(env, st, FullReads([])) == st
  {
  }

  lemma ReadWaits(env: Env, st: St, chunk: Bytes)
    requires !st.o.stopped && !st.passthrough && |st.pending + chunk| <= MAX_SSE_LINE
    requires forall j :: 0 <= j < |chunk| ==> chunk[j] != NL
    ensures Feed(env, st, chunk) == st.(pending := st.pending + chunk)
  {
    hide Write, Handle;
    LineIsLonger(chunk, |chunk|);
    assert chunk == [] ==> st.pending + chunk == st.pending;
  }

  /** A line the relay keeps waits for its newline. */
  lemma {:induction false} FullReadsWait(env: Env, st: St, s: Bytes)
    requires !st.o.stopped && !st.passthrough && st.pending == [] && |s| <= MAX_SSE_LINE
    requires forall j :: 0 <= j < |s| ==> s[j] != NL
    ensures Feeds(env, st, FullReads(s)) == st.(pending := s)
    decreases |s|
  {
    hide Feed, FullReads, LastRead, Feeds, Join, Reads;
    if s == [] {
      NoReads(env, st);
    } else {
      var k := LastRead(s);
      FullReadsWait(env, st, s[..k]);
      FullReadsIs(s);
      FeedNext(env, st, FullReads(s[..k]), s[k..]);
      ReadWaits(env, st.(pending := s[..k]), s[k..]);
      assert s[..k] + s[k..] == s;
    }
  }

  /**
   For a line between, from any state between lines, the reads do matter: cut so that its newline comes with what is
   too much, it is looked at; cut so that the newline comes after, it goes through.
   */
  lemma CutsMatterBetween(env: Env, st: St, long: Bytes) returns (one: seq<Bytes>, two: seq<Bytes>)
    requires !st.o.stopped && !st.passthrough && st.pending == []
    requires MAX_SSE_LINE < |long| < MAX_SSE_LINE + READ_SIZE && Newline(long) == |long|
    ensures Reads(one) && Reads(two) && Join(one) == Join(two) == long + [NL]
    ensures Feeds(env, st, one) == St(Handle(env, st.o, long + [NL]), [], false)
    ensures Listening(env) ==> var t := Feeds(env, st, two); t.pending == [] && !t.passthrough && Shown(t.o) == Passed(Shown(st.o), long + [NL])
  {
    hide Feed, Feeds, FullReads, Join, Handle, Shown;
    var kept, more := long[..MAX_SSE_LINE], long[MAX_SSE_LINE..];
    assert kept + more == long && kept + (more + [NL]) == long + [NL];
    var full := FullReads(kept);
    one, two := full + [more + [NL]], full + [more] + [[NL]];
    FullReadsWait(env, st, kept);
    var waiting := st.(pending := kept);
    FeedNext(env, st, full, more + [NL]);
    LookedAt(env, waiting, more);
    FeedNext(env, st, full, more);
    FeedNext(env, st, full + [more], [NL]);
    PassedUnread(env, waiting, kept, more);
    JoinNext(full, more + [NL]);
    JoinNext(full, more);
    JoinNext(full + [more], [NL]);
  }

  lemma LookedAt(env: Env, st: St, more: Bytes)
    requires !st.o.stopped && !st.passthrough && forall j :: 0 <= j < |more| ==> more[j] != NL
    ensures Feed(env, st, more + [NL]) == St(Handle(env, st.o, st.pending + (more + [NL])), [], false)
  {
    hide Handle;
    NewlineAt(more + [NL], |more|);
    assert (more + [NL])[..|more| + 1] == more + [NL] && (more + [NL])[|more| + 1..] == [];
  }

  lemma JoinNext(chunks: seq<Bytes>, chunk: Bytes)
    ensures Join(chunks + [chunk]) == Join(chunks) + chunk
  {
    assert (chunks + [chunk])[..|chunks|] == chunks;
  }

  lemma PassedUnread(env: Env, st: St, kept: Bytes, more: Bytes)
    requires !st.o.stopped && !st.passthrough && st.pending == kept && |kept + more| > MAX_SSE_LINE && more != []
    requires forall j :: 0 <= j < |more| ==> more[j] != NL
    ensures Listening(env) ==> var t := Feed(env, Feed(env, st, more), [NL]);
      t.pending == [] && !t.passthrough && Shown(t.o) == Passed(Shown(st.o), kept + more + [NL])
  {
    if Listening(env) {
      hide Write;
      LineIsLonger(more, |more|);
      WriteShown(env, st.o, kept + more);
      var o := Write(env, st.o, kept + more);
      assert Feed(env, st, more) == St(o, [], true);
      NewlineAt([NL], 0);
      assert [NL][..1] == [NL] && [NL][1..] == [];
      WriteShown(env, o, [NL]);
      PassedTwice(Shown(st.o), kept + more, [NL]);
    }
  }

  /** So a provider error of such a length is replaced in one cut and goes through in another. */
  lemma LongErrorMayGoThrough(env: Env, long: Bytes) returns (one: seq<Bytes>, two: seq<Bytes>)
    requires Working(env) && MAX_SSE_LINE < |long| < MAX_SSE_LINE + READ_SIZE && Newline(long) == |long|
    requires env.error(long + [NL]).Some?
    ensures Reads(one) && Reads(two) && Join(one) == Join(two) == long + [NL]
    ensures Feeds(env, St(START, [], false), one).o.providerError
    ensures var o := Feeds(env, St(START, [], false), two).o; !o.providerError && o.written == long + [NL]
    ensures !NoneBetween(long + [NL])
  {
    one, two := CutsMatterBetween(env, St(START, [], false), long);
    NewlineAt(long + [NL], |long|);
    assert START.written + (long + [NL]) == long + [NL];
  }
}
