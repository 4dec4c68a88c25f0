/** What any walk of one open operation keeps, whatever the router answers. */
module OpenLaws {
  import opened Basics
  import opened OpenErrors
  import opened OpenWalk
  import opened Stake

  /**
   Nothing is POSTed after an answer that may have sent an open, opened one, found one or lacked funds: only the last
   POST can have such an answer.
   */
  lemma {:induction false} OnlyTheLastEnds(job: Job, rpc: bool, w: nat, deadline: Time, log: seq<Post>, k: nat)
    requires Follows(job, rpc, w, deadline, log) && k < |log| - 1
    ensures log[k].kind.Again() || log[k].kind.Next()
    decreases |log|
  {
    hide KindOf, StakeForDurationWei, Tried, Windows;
    var n := |log| - 1;
    if k < n - 1 {
      OnlyTheLastEnds(job, rpc, w, deadline, log[..n], k);
      assert log[..n][k] == log[k];
    } else {
      assert log[..n][n - 1] == log[n - 1];
    }
  }

  /** Why a POST that was not the last did not end the walk: its answer proves that no open was sent, or blames the provider. */
  ghost predicate GoesOn(p: Post, rpc: bool, again: bool) {
    && p.answer.Failed? && p.answer.err.Status?
    && var text := p.answer.err.text;
    && (again <==> !ContainsAny(text, PROVIDER_STAGE_TEXTS))
    && (again ==> BeginsThen(text, PRE_SEND_PREFIXES, false) || (BeginsWith(text, WINDOW_PREFIXES) && InWindow(p.elapsed, rpc)))
  }

  /**
   A bid is POSTed again only on the router's own word that the open was not sent, and another bid only after the
   router blamed the provider: after any other answer nothing more is POSTed.
   */
  lemma {:induction false} RepeatsAreProven(job: Job, rpc: bool, w: nat, deadline: Time, log: seq<Post>, k: nat)
    requires Follows(job, rpc, w, deadline, log) && k < |log| - 1 && InRange(job, log)
    ensures GoesOn(log[k], rpc, log[k + 1].row == log[k].row)
    decreases |log|
  {
    hide KindOf, StakeForDurationWei, Windows, Tried, GoesOn;
    var n := |log| - 1;
    if k < n - 1 {
      RepeatsAreProven(job, rpc, w, deadline, log[..n], k);
      assert log[..n][k] == log[k] && log[..n][k + 1] == log[k + 1];
    } else {
      var before := log[..n];
      assert before[n - 1] == log[n - 1];
      GoesOnBy(log[k], rpc, w + Windows(before[..k]));
      AnotherRow(job, before, log[n]);
    }
  }

  /** The row POSTed next is the same exactly after an error that lets it be. */
  lemma AnotherRow(job: Job, log: seq<Post>, next: Post)
    requires log != [] && MayPost(job, log, next.row)
    ensures log[|log| - 1].kind == Erred(TransientPreSend) || log[|log| - 1].kind == Erred(TransientWindow) ==>
      next.row == log[|log| - 1].row
    ensures log[|log| - 1].kind == Erred(ProviderFault) ==> next.row != log[|log| - 1].row
    ensures log[|log| - 1].kind == Erred(TransientPreSend) || log[|log| - 1].kind == Erred(TransientWindow)
      || log[|log| - 1].kind == Erred(ProviderFault)
  {
    hide StakeForDurationWei;
    if log[|log| - 1].kind.Next() {
      assert job.alts[log[|log| - 1].row].provider in Tried(job, log);
    }
  }

  lemma GoesOnBy(p: Post, rpc: bool, windows: nat)
    requires p.kind == KindOf(p.answer, p.elapsed, rpc && windows < MAX_WINDOW_RETRIES)
    ensures p.kind == Erred(TransientPreSend) || p.kind == Erred(TransientWindow) ==> GoesOn(p, rpc, true)
    ensures p.kind == Erred(ProviderFault) ==> GoesOn(p, rpc, false)
  {
    hide Classify, ContainsAny, BeginsThen, BeginsWith;
    if p.answer.Failed? {
      ClassNeeds(p.answer.err, p.elapsed, rpc && windows < MAX_WINDOW_RETRIES);
    }
  }

  /** The answer settles what became of the POST: a session was opened or named, or the router's text proves that none was. */
  ghost predicate Settled(p: Post, windowOK: bool) {
    || p.answer.Opened? || p.answer.Existing?
    || (p.answer.err.Status?
        && (ContainsAny(p.answer.err.text, PROVIDER_STAGE_TEXTS) || BeginsWith(p.answer.err.text, PRE_SEND_PREFIXES)
            || LacksFunds(p.answer.err.text, p.elapsed, windowOK)))
  }

  lemma SettledIs(p: Post, windowOK: bool)
    requires p.kind == KindOf(p.answer, p.elapsed, windowOK)
    ensures p.kind.Stays() <==> !Settled(p, windowOK)
  {
    hide Classify, ContainsAny, BeginsWith, LacksFunds;
    if p.answer.Failed? {
      ClassNeeds(p.answer.err, p.elapsed, windowOK);
      if p.answer.err.Status? {
        ThenBegins(p.answer.err);
      }
    }
  }

  lemma ThenBegins(err: RouterError)
    requires err.Status?
    ensures forall funding :: BeginsThen(err.text, PRE_SEND_PREFIXES, funding) ==> BeginsWith(err.text, PRE_SEND_PREFIXES)
  {
    hide ContainsAny;
  }

  /** An attempt stays pending exactly while an open may still land from it: its answer settles nothing. */
  lemma {:induction false} PendingIsUnsettled(job: Job, rpc: bool, w: nat, deadline: Time, log: seq<Post>, k: nat)
    requires Follows(job, rpc, w, deadline, log) && k < |log|
    ensures k in Staying(log) <==> !Settled(log[k], rpc && w + Windows(log[..k]) < MAX_WINDOW_RETRIES)
    decreases |log|
  {
    hide KindOf, StakeForDurationWei, Windows, MayPost, Settled;
    var n := |log| - 1;
    if k < n {
      PendingIsUnsettled(job, rpc, w, deadline, log[..n], k);
      assert log[..n][k] == log[k] && log[..n][..k] == log[..k];
    } else {
      SettledIs(log[n], rpc && w + Windows(log[..n]) < MAX_WINDOW_RETRIES);
    }
  }

  /** The window is spent once; with the window retries of the operation before, it never passes the bound. */
  lemma {:induction false} WindowIsSpentOnce(job: Job, rpc: bool, w: nat, deadline: Time, log: seq<Post>)
    requires Follows(job, rpc, w, deadline, log)
    ensures Windows(log) <= if w < MAX_WINDOW_RETRIES && rpc then MAX_WINDOW_RETRIES - w else 0
    decreases |log|
  {
    hide MayPost, Classify, InRange;
    if log != [] {
      var n := |log| - 1;
      WindowIsSpentOnce(job, rpc, w, deadline, log[..n]);
      assert log[n].kind == Erred(TransientWindow) ==> rpc && w + Windows(log[..n]) < MAX_WINDOW_RETRIES by {
        if log[n].kind == Erred(TransientWindow) {
          NotSentNeedsProof(log[n].answer.err, log[n].elapsed, rpc && w + Windows(log[..n]) < MAX_WINDOW_RETRIES);
        }
      }
    }
  }

  lemma {:induction false} StayingAreWindows(log: seq<Post>)
    requires forall k :: 0 <= k < |log| ==> log[k].kind.Again() || log[k].kind.Next()
    ensures |Staying(log)| == Windows(log)
  {
    if log == [] {
      assert Staying(log) == {};
    } else {
      var n := |log| - 1;
      StayingAreWindows(log[..n]);
      assert Staying(log) == Staying(log[..n]) + (if log[n].kind.Stays() then {n} else {}) by {
        forall k | k in Staying(log) && k != n ensures k in Staying(log[..n]) {
          assert log[..n][k] == log[k];
        }
        forall k | k in Staying(log[..n]) ensures k in Staying(log) {
          assert log[..n][k] == log[k];
        }
      }
    }
  }

  /** At most two attempts of one operation are left pending. */
  lemma FewStayPending(job: Job, rpc: bool, w: nat, deadline: Time, log: seq<Post>)
    requires Follows(job, rpc, w, deadline, log)
    ensures |Staying(log)| <= MAX_WINDOW_RETRIES + 1
  {
    hide KindOf, StakeForDurationWei, Tried;
    if log == [] {
      assert Staying(log) == {};
    } else {
      var n := |log| - 1;
      forall k | 0 <= k < n ensures log[..n][k].kind.Again() || log[..n][k].kind.Next() {
        OnlyTheLastEnds(job, rpc, w, deadline, log, k);
      }
      StayingAreWindows(log[..n]);
      WindowIsSpentOnce(job, rpc, w, deadline, log[..n]);
      forall k | k in Staying(log) && k != n ensures k in Staying(log[..n]) {
        assert log[..n][k] == log[k];
      }
      assert Staying(log) - {n} <= Staying(log[..n]);
      SubsetSize(Staying(log) - {n}, Staying(log[..n]));
    }
  }

  lemma {:induction false} SubsetSize<T>(a: set<T>, b: set<T>)
    requires a <= b
    ensures |a| <= |b|
    decreases |a|
  {
    if a != {} {
      var x :| x in a;
      SubsetSize(a - {x}, b - {x});
    }
  }

  /** Rows only go forward, so the POSTs of a bid are together, and a provider is only ever tried by one bid. */
  lemma {:induction false} OneBidPerProvider(job: Job, rpc: bool, w: nat, deadline: Time, log: seq<Post>, i: nat, k: nat)
    requires Follows(job, rpc, w, deadline, log) && i <= k < |log| && InRange(job, log)
    ensures log[i].row <= log[k].row
    ensures job.alts[log[i].row].provider == job.alts[log[k].row].provider <==> log[i].row == log[k].row
    decreases |log|
  {
    hide KindOf, StakeForDurationWei;
    var n := |log| - 1;
    if k < n {
      OneBidPerProvider(job, rpc, w, deadline, log[..n], i, k);
    } else if i < n {
      var before := log[..n];
      OneBidPerProvider(job, rpc, w, deadline, before, i, n - 1);
      assert before[i] == log[i] && before[n - 1] == log[n - 1];
      if before[n - 1].kind.Next() {
        assert job.alts[before[i].row].provider in Tried(job, before);
      }
    }
  }

  /** With a cap set no bid is POSTed that has no price or whose stake is above the cap, exactly. */
  lemma CapIsKept(job: Job, rpc: bool, w: nat, deadline: Time, log: seq<Post>, k: nat)
    requires Follows(job, rpc, w, deadline, log) && k < |log| && job.cap.Some?
    ensures log[k].row < |job.alts|
    ensures var b := job.alts[log[k].row];
      b.pps.Some? && job.inputs.supply * b.pps.value * (job.sec + 1) <= job.cap.value * job.inputs.budget
  {
    hide Follows;
    FollowsInRange(job, rpc, w, deadline, log);
    var b := job.alts[log[k].row];
    assert job.Affordable(b);
    StakeFitsCap(job.inputs, b.pps, job.sec, job.cap.value);
  }

  /**
   A refusal for the cap where nothing was POSTed is sharp: a cap lets some candidate pass just when it is at least the
   stake named; with none named no cap does.
   */
  lemma RefusalIsSharp(job: Job, need: Option<nat>, cap: int, other: int)
    requires Finished(job, [], Not(OverCap(need, cap)))
    ensures need.Some? ==> need.value > cap
    ensures (exists j :: 0 <= j < |job.alts| && job.(cap := Some(other)).Affordable(job.alts[j]))
      <==> (need.Some? && other >= need.value)
  {
    hide StakeForDurationWei;
    var raised := job.(cap := Some(other));
    assert Tried(job, []) == {};
    if need.Some? && other >= need.value {
      var j :| 0 <= j < |job.alts| && job.StakeOf(job.alts[j]) == need;
      assert raised.Affordable(job.alts[j]);
    }
    if exists j :: 0 <= j < |job.alts| && raised.Affordable(job.alts[j]) {
      var j :| 0 <= j < |job.alts| && raised.Affordable(job.alts[j]);
      assert job.StakeOf(job.alts[j]).Some?;
    }
  }
}
