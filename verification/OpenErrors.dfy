/** What an open's error says: whether the open may have been sent, and what to do next. */
module OpenErrors {
  import opened Basics

  const TRANSIENT_BASE: Time := SECOND / 2
  const TRANSIENT_CAP: Time := 4 * SECOND
  const PRE_SEND_PROOF_WINDOW: Time := 18 * SECOND
  const MAX_RETRY_AFTER: Time := 600 * SECOND

  /** Transport: the reply is not the router's own. Status: its error text, lower case. Unreadable: any other failure. */
  datatype RouterError = Transport | Status(text: string) | Unreadable

  datatype OpenClass = MaybeSent | ProviderFault | TransientPreSend | TransientWindow | WalletFunds

  const OPEN_STAGE := "failed to send transaction: open session failed: "

  const PROVIDER_STAGE_TEXTS := [
    "provider healthcheck ping failed", "provider request failed", "failed to connect to provider",
    "provider self-reports model", "failed to initiate session", "tee attestation failed",
    "cannot open session with own bid"]

  const PRE_SEND_PREFIXES := [
    "failed to parse token supply: ", "failed to parse token budget: ", "failed to get bid: ", "failed to get my address: ",
    "failed to get provider: ", "failed to get current mor allowance: ",
    "failed to send transaction: approve mor allowance failed: ", "get wallet address for existing-session check: ",
    "read bid for existing-session check: ", "check existing live sessions: "]

  const WINDOW_PREFIXES := [
    "failed to get transactopts: ",
    "failed to send transaction: open session failed: failed to get initial gas prices: ",
    "failed to send transaction: open session failed: failed to get nonce: ",
    "failed to send transaction: open session failed: failed to build transaction: "]

  const FUNDING_MARKERS := [
    "insufficient eth for gas", "insufficient mor balance", "insufficient funds for gas",
    "insufficient funds for intrinsic transaction cost", "transfer amount exceeds balance", "insufficient allowance"]

  predicate Contains(text: string, part: string) {
    part <= text || (text != "" && Contains(text[1..], part))
  }

  predicate ContainsAny(text: string, parts: seq<string>) {
    exists i :: 0 <= i < |parts| && Contains(text, parts[i])
  }

  /** The first of the prefixes text starts with. */
  function FirstPrefix(text: string, prefixes: seq<string>): (r: Option<string>)
    ensures r.Some? ==> r.value in prefixes && r.value <= text
    ensures r.None? <==> forall i :: 0 <= i < |prefixes| ==> !(prefixes[i] <= text)
  {
    if prefixes == [] then None
    else if prefixes[0] <= text then Some(prefixes[0])
    else FirstPrefix(text, prefixes[1..])
  }

  function ClassifyText(text: string, elapsed: Time, windowOK: bool): OpenClass {
    if ContainsAny(text, PROVIDER_STAGE_TEXTS) then ProviderFault
    else
      var pre := FirstPrefix(text, PRE_SEND_PREFIXES);
      if pre.Some? then if ContainsAny(text[|pre.value|..], FUNDING_MARKERS) then WalletFunds else TransientPreSend
      else
        var window := FirstPrefix(text, WINDOW_PREFIXES).Some?;
        var funds := OPEN_STAGE <= text && ContainsAny(text[|OPEN_STAGE|..], FUNDING_MARKERS);
        if !window && !funds then MaybeSent
        else if !windowOK || elapsed >= PRE_SEND_PROOF_WINDOW then MaybeSent
        else if funds then WalletFunds
        else TransientWindow
  }

  /** windowOK: a failure early enough in the window may count as not sent. */
  function Classify(err: RouterError, elapsed: Time, windowOK: bool): OpenClass {
    if err.Status? then ClassifyText(err.text, elapsed, windowOK) else MaybeSent
  }

  const WAIT_TEXTS := [
    "replacement transaction underpriced", "transaction not mined after all escalation attempts",
    "transaction could not be confirmed on-chain"]

  datatype WaitReason = ChainCongested | WalletTxPending

  function ChainWaitReason(err: RouterError): Option<WaitReason> {
    if !err.Status? || !(OPEN_STAGE <= err.text) then None
    else
      var rest := err.text[|OPEN_STAGE|..];
      if Contains(rest, "replacement transaction underpriced") then Some(WalletTxPending)
      else if Contains(rest, "transaction not mined after all escalation attempts") then Some(ChainCongested)
      else if Contains(rest, "transaction could not be confirmed on-chain") then Some(ChainCongested)
      else None
  }

  lemma OpenStageText(text: string)
    requires OPEN_STAGE <= text
    ensures |text| > 28 && text[10] == 's' && text[28] == 'o'
  {
    assert |OPEN_STAGE| > 28 && OPEN_STAGE[10] == 's' && OPEN_STAGE[28] == 'o';
  }

  lemma PreSendPrefixTexts(i: nat)
    requires i < |PRE_SEND_PREFIXES|
    ensures var p := PRE_SEND_PREFIXES[i];
      |p| > 10 && (p[10] != 's' || (|p| > 28 && p[28] != 'o'))
  {
    var p := PRE_SEND_PREFIXES[i];
    assert |p| > 10;
    if i == 6 {
      assert |p| > 28 && p[28] == 'a';
    }
  }

  /** Errors of the stage that sends the open match no prefix of the stages before it. */
  lemma OpenStageIsNotPreSend(text: string)
    requires OPEN_STAGE <= text
    ensures FirstPrefix(text, PRE_SEND_PREFIXES).None?
  {
    hide FirstPrefix;
    OpenStageText(text);
    forall i | 0 <= i < |PRE_SEND_PREFIXES| ensures !(PRE_SEND_PREFIXES[i] <= text) {
      PreSendPrefixTexts(i);
    }
  }

  /**
   An open is taken as not sent only on the router's own word. Once its sending stage began that word must come early
   and the window must be unspent; without it every such error that blames no provider is maybe-sent.
   */
  lemma NotSentNeedsProof(err: RouterError, elapsed: Time, windowOK: bool)
    ensures Classify(err, elapsed, windowOK) != MaybeSent ==> err.Status?
    ensures err.Status? && OPEN_STAGE <= err.text && (!windowOK || elapsed >= PRE_SEND_PROOF_WINDOW) ==>
      (Classify(err, elapsed, windowOK) == if ContainsAny(err.text, PROVIDER_STAGE_TEXTS) then ProviderFault else MaybeSent)
    ensures Classify(err, elapsed, windowOK) == TransientWindow ==> windowOK && elapsed < PRE_SEND_PROOF_WINDOW
  {
    if err.Status? && OPEN_STAGE <= err.text {
      OpenStageIsNotPreSend(err.text);
    }
  }

  /** The text begins with one of the prefixes. */
  ghost predicate BeginsWith(text: string, prefixes: seq<string>) {
    exists i :: 0 <= i < |prefixes| && prefixes[i] <= text
  }

  /** It begins with one of them, and what follows names missing funds, or does not. */
  ghost predicate BeginsThen(text: string, prefixes: seq<string>, funding: bool) {
    exists i :: 0 <= i < |prefixes| && prefixes[i] <= text && (ContainsAny(text[|prefixes[i]|..], FUNDING_MARKERS) <==> funding)
  }

  predicate InWindow(elapsed: Time, windowOK: bool) {
    windowOK && elapsed < 18 * SECOND
  }

  /** Early in the unspent window the sending stage says that the wallet lacks funds. */
  ghost predicate LacksFunds(text: string, elapsed: Time, windowOK: bool) {
    BeginsThen(text, [OPEN_STAGE], true) && InWindow(elapsed, windowOK)
  }

  predicate StandsAt(text: string, part: string, i: nat) {
    i + |part| <= |text| && text[i..i + |part|] == part
  }

  lemma {:induction false} ContainsIs(text: string, part: string)
    ensures Contains(text, part) <==> exists i :: StandsAt(text, part, i)
  {
    if part <= text {
      assert StandsAt(text, part, 0);
    } else if text == "" {
      assert part != "" && forall i: nat :: !StandsAt(text, part, i);
    } else {
      var rest := text[1..];
      ContainsIs(rest, part);
      forall i: nat ensures StandsAt(rest, part, i) <==> StandsAt(text, part, i + 1) {
        if i + |part| <= |rest| {
          assert rest[i..i + |part|] == text[i + 1..i + 1 + |part|];
        }
      }
      forall i: nat | StandsAt(text, part, i) ensures i > 0 && StandsAt(rest, part, i - 1) {
        assert i != 0;
        assert StandsAt(rest, part, i - 1) <==> StandsAt(text, part, i - 1 + 1);
      }
    }
  }

  /**
   What each class needs of the router's text. Whatever the text does not prove is maybe-sent: a class other than that
   needs a provider-stage text, or a beginning from a stage before the open was sent, or, early in the unspent window,
   from the sending stage.
   */
  lemma ClassNeeds(err: RouterError, elapsed: Time, windowOK: bool)
    ensures var c := Classify(err, elapsed, windowOK);
      && (c == ProviderFault <==> err.Status? && ContainsAny(err.text, PROVIDER_STAGE_TEXTS))
      && (c == TransientPreSend ==> err.Status? && BeginsThen(err.text, PRE_SEND_PREFIXES, false))
      && (c == TransientWindow ==> err.Status? && BeginsWith(err.text, WINDOW_PREFIXES) && InWindow(elapsed, windowOK))
      && (c == WalletFunds ==> err.Status? && (BeginsThen(err.text, PRE_SEND_PREFIXES, true) || LacksFunds(err.text, elapsed, windowOK)))
    ensures var c := Classify(err, elapsed, windowOK);
      err.Status? ==>
        && (BeginsWith(err.text, PRE_SEND_PREFIXES) ==> c == ProviderFault || c == TransientPreSend || c == WalletFunds)
        && (BeginsWith(err.text, WINDOW_PREFIXES) && InWindow(elapsed, windowOK) ==> c != MaybeSent)
        && (LacksFunds(err.text, elapsed, windowOK) ==> c == ProviderFault || c == WalletFunds)
        && (BeginsThen(err.text, PRE_SEND_PREFIXES, true) && !BeginsThen(err.text, PRE_SEND_PREFIXES, false) ==>
              c == ProviderFault || c == WalletFunds)
  {
    hide Contains, ContainsAny, FirstPrefix;
    if err.Status? {
      var text := err.text;
      var pre := FirstPrefix(text, PRE_SEND_PREFIXES);
      if pre.Some? {
        var i :| 0 <= i < |PRE_SEND_PREFIXES| && PRE_SEND_PREFIXES[i] == pre.value;
        assert BeginsThen(text, PRE_SEND_PREFIXES, ContainsAny(text[|pre.value|..], FUNDING_MARKERS));
        assert OPEN_STAGE <= text ==> false by {
          if OPEN_STAGE <= text {
            OpenStageIsNotPreSend(text);
          }
        }
      }
      if OPEN_STAGE <= text {
        assert [OPEN_STAGE][0] <= text;
        assert BeginsThen(text, [OPEN_STAGE], ContainsAny(text[|OPEN_STAGE|..], FUNDING_MARKERS));
      }
      WindowIsPrefix(text);
    }
  }

  lemma WindowIsPrefix(text: string)
    ensures FirstPrefix(text, WINDOW_PREFIXES).Some? <==> BeginsWith(text, WINDOW_PREFIXES)
  {
  }

  /** Less proof only ever turns a class into maybe-sent. */
  lemma LessProofIsSafer(err: RouterError, elapsed: Time, later: Time, windowOK: bool)
    requires elapsed <= later
    ensures Classify(err, later, windowOK) == Classify(err, elapsed, windowOK) || Classify(err, later, windowOK) == MaybeSent
    ensures Classify(err, elapsed, false) == Classify(err, elapsed, windowOK) || Classify(err, elapsed, false) == MaybeSent
  {
  }

  /** An open that waits on the chain is never taken for one that failed before the sending stage. */
  lemma ChainWaitIsNotPreSend(err: RouterError, elapsed: Time, windowOK: bool)
    requires ChainWaitReason(err).Some?
    ensures Classify(err, elapsed, windowOK) != TransientPreSend
  {
    OpenStageIsNotPreSend(err.text);
  }

  /** It waits just when the sending stage says that a transaction of the wallet is pending or not mined. */
  lemma ChainWaitIs(err: RouterError)
    ensures ChainWaitReason(err).Some? <==>
      err.Status? && OPEN_STAGE <= err.text && exists i :: 0 <= i < |WAIT_TEXTS| && Contains(err.text[|OPEN_STAGE|..], WAIT_TEXTS[i])
    ensures ChainWaitReason(err) == Some(WalletTxPending) <==>
      err.Status? && OPEN_STAGE <= err.text && Contains(err.text[|OPEN_STAGE|..], WAIT_TEXTS[0])
  {
    hide Contains;
    if err.Status? && OPEN_STAGE <= err.text {
      var rest := err.text[|OPEN_STAGE|..];
      assert Contains(rest, WAIT_TEXTS[0]) || Contains(rest, WAIT_TEXTS[1]) || Contains(rest, WAIT_TEXTS[2])
        || forall i :: 0 <= i < |WAIT_TEXTS| ==> !Contains(rest, WAIT_TEXTS[i]);
    }
  }

  function Doubled(n: nat): Time {
    if n == 0 then TRANSIENT_BASE else 2 * Doubled(n - 1)
  }

  lemma {:induction false} DoubledGrows(n: nat, m: nat)
    requires n <= m
    ensures TRANSIENT_BASE <= Doubled(n) <= Doubled(m)
  {
    if m > 0 {
      if n == m {
        DoubledGrows(n - 1, m - 1);
      } else {
        DoubledGrows(n, m - 1);
      }
    }
  }

  /** The delay before retry n: the base doubled n times, at most the cap. */
  method BackoffStep(n: nat) returns (d: Time)
    ensures d == Min(Doubled(n), TRANSIENT_CAP)
    ensures TRANSIENT_BASE <= d <= TRANSIENT_CAP
    ensures n == 0 ==> d == SECOND / 2
    ensures n == 1 ==> d == SECOND
    ensures n == 2 ==> d == 2 * SECOND
    ensures n >= 3 ==> d == 4 * SECOND
  {
    if n >= 3 {
      DoubledGrows(3, n);
    }
    d := TRANSIENT_BASE;
    var i := 0;
    while i < n && d < TRANSIENT_CAP
      invariant 0 <= i <= n && d == Doubled(i)
    {
      d := 2 * d;
      i := i + 1;
    }
    DoubledGrows(i, n);
    if d > TRANSIENT_CAP {
      d := TRANSIENT_CAP;
    }
  }

  /** Division that drops the remainder, as on Go's integers. */
  function Quo(a: int, b: int): int
    requires b > 0
  {
    if a >= 0 then a / b else -(-a / b)
  }

  predicate IsSecondsUp(d: Time, r: Time) {
    r % SECOND == 0 && d <= r < d + SECOND
  }

  /** Retry-After of a transient refusal: whole seconds, rounded up, within 1 to 4. */
  method ClampTransient(d: Time) returns (r: Time)
    ensures SECOND <= r <= TRANSIENT_CAP
    ensures 0 < d <= TRANSIENT_CAP ==> IsSecondsUp(d, r)
    ensures d <= 0 ==> r == SECOND
    ensures d > TRANSIENT_CAP ==> r == TRANSIENT_CAP
  {
    var sec := Quo(d + SECOND - 1, SECOND);
    if sec < 1 {
      sec := 1;
    }
    if sec > TRANSIENT_CAP / SECOND {
      sec := TRANSIENT_CAP / SECOND;
    }
    r := sec * SECOND;
  }

  method ClampRetryAfter(d: Time) returns (r: Time)
    ensures SECOND <= r <= MAX_RETRY_AFTER
    ensures 0 < d <= MAX_RETRY_AFTER ==> IsSecondsUp(d, r)
    ensures d <= 0 ==> r == SECOND
    ensures d > MAX_RETRY_AFTER ==> r == MAX_RETRY_AFTER
  {
    if d <= 0 {
      return SECOND;
    }
    var c := Min(d, MAX_RETRY_AFTER);
    var sec := Quo(c + SECOND - 1, SECOND);
    if sec < 1 {
      sec := 1;
    }
    r := sec * SECOND;
  }
}
