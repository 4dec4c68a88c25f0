/**
 The second factor: a time-based code that works once per step, or one of a few recovery codes that each work once.
 Secrets, code generation and the recovery hash are left to the keys in Env.
 */
module SecondFactor {
  import opened Basics

  const PERIOD := 30
  const SYMBOLS := 12
  const ALPHABET := "abcdefghijklmnopqrstuvwxyz234567"

  type Entry = string

  /**
   What the keys say: the secret in a stored blob, the code of a secret at a step, whether the hash key can be derived
   and whether a normalized code opens a stored entry.
   */
  datatype Env = Env(secretOf: string -> Option<string>, codeAt: (string, int) -> Option<string>, pepper: bool,
                     opens: (Entry, string) -> bool)

  // Codes as typed.

  function DropDashes(s: string): string {
    if s == "" then ""
    else if s[0] == '-' || s[0] == ' ' then DropDashes(s[1..])
    else [s[0]] + DropDashes(s[1..])
  }

  function NormalizeRecoveryCode(code: string): string {
    DropDashes(Lower(TrimSpace(code)))
  }

  predicate IsSymbol(c: char) {
    c in ALPHABET
  }

  predicate AllSymbols(s: string) {
    forall i :: 0 <= i < |s| ==> IsSymbol(s[i])
  }

  predicate RecoveryShape(code: string) {
    |NormalizeRecoveryCode(code)| == SYMBOLS && AllSymbols(NormalizeRecoveryCode(code))
  }

  method LooksLikeRecoveryCode(code: string) returns (r: bool)
    ensures r <==> RecoveryShape(code)
  {
    var n := NormalizeRecoveryCode(code);
    if |n| != SYMBOLS {
      return false;
    }
    for i := 0 to |n|
      invariant forall k :: 0 <= k < i ==> IsSymbol(n[k])
    {
      if n[i] !in ALPHABET {
        return false;
      }
    }
    return true;
  }

  /** How a code is shown: groups of four. */
  function Display(s: string): string
    requires |s| == SYMBOLS
  {
    s[..4] + "-" + s[4..8] + "-" + s[8..]
  }

  lemma {:induction false} DropJoins(a: string, b: string)
    ensures DropDashes(a + b) == DropDashes(a) + DropDashes(b)
  {
    if a == "" {
      assert a + b == b;
    } else {
      DropJoins(a[1..], b);
      assert (a + b)[1..] == a[1..] + b;
    }
  }

  lemma SymbolsArePlain(c: char)
    requires IsSymbol(c)
    ensures c != '-' && c != ' ' && !IsSpace(c) && LowerChar(c) == c
  {
  }

  lemma {:induction false} SymbolsStay(s: string)
    requires AllSymbols(s)
    ensures DropDashes(s) == s
  {
    if s != "" {
      SymbolsArePlain(s[0]);
      SymbolsStay(s[1..]);
      assert s == [s[0]] + s[1..];
    }
  }

  /** A code shown to the owner reads back as its symbols, and is taken for a recovery code. */
  lemma ShownCodeReadsBack(s: string)
    requires |s| == SYMBOLS && AllSymbols(s)
    ensures NormalizeRecoveryCode(Display(s)) == s && RecoveryShape(Display(s))
  {
    hide DropDashes, TrimSpace, IsSymbol;
    ShownIsPlain(s);
    DropsToSymbols(s);
  }

  lemma ShownIsPlain(s: string)
    requires |s| == SYMBOLS && AllSymbols(s)
    ensures TrimSpace(Display(s)) == Display(s) && Lower(Display(s)) == Display(s)
  {
    hide IsSymbol, Lower;
    var d := Display(s);
    forall i | 0 <= i < |d| ensures LowerChar(d[i]) == d[i] {
      if d[i] != '-' {
        assert d[i] == s[if i < 4 then i else if i < 9 then i - 1 else i - 2];
        SymbolsArePlain(d[i]);
      }
    }
    LowerStays(d);
    SymbolsArePlain(s[0]);
    SymbolsArePlain(s[11]);
    assert d[0] == s[0] && d[|d| - 1] == s[11];
  }

  lemma LowerStays(s: string)
    requires forall i :: 0 <= i < |s| ==> LowerChar(s[i]) == s[i]
    ensures Lower(s) == s
  {
  }

  lemma DropsToSymbols(s: string)
    requires |s| == SYMBOLS && AllSymbols(s)
    ensures DropDashes(Display(s)) == s
  {
    hide DropDashes, IsSymbol;
    var a, b, c := s[..4], s[4..8], s[8..];
    SymbolsStay(a);
    SymbolsStay(b);
    SymbolsStay(c);
    DropsBetween(a, b);
    DropsBetween(a + "-" + b, c);
    assert a + b + c == s;
  }

  lemma DropsBetween(a: string, b: string)
    ensures DropDashes(a + "-" + b) == DropDashes(a) + DropDashes(b)
  {
    DropJoins(a + "-", b);
    DropJoins(a, "-");
    assert DropDashes("-") == "";
    assert DropDashes(a) + "" == DropDashes(a);
  }

  function DigitsOf(code: string): string {
    if code == "" then ""
    else if '0' <= code[0] <= '9' then [code[0]] + DigitsOf(code[1..])
    else DigitsOf(code[1..])
  }

  // The time-based code.

  datatype Totp = Accepted(step: int) | Reused | Bad

  /** The first of the steps whose code this is decides; a step not after the last one used is a reuse. */
  function FirstStep(env: Env, secret: string, code: string, used: int, steps: seq<int>): Totp {
    if steps == [] then Bad
    else if steps[0] <= 0 then FirstStep(env, secret, code, used, steps[1..])
    else
      var want := env.codeAt(secret, steps[0]);
      if want.None? then Bad
      else if want.value != code then FirstStep(env, secret, code, used, steps[1..])
      else if used != 0 && steps[0] <= used then Reused
      else Accepted(steps[0])
  }

  function StepsAt(now: Time): seq<int> {
    var cur := Unix(now) / PERIOD;
    [cur, cur - 1, cur + 1]
  }

  function Validated(env: Env, secret: string, code: string, used: int, now: Time): Totp {
    if DigitsOf(code) == "" then Bad else FirstStep(env, secret, DigitsOf(code), used, StepsAt(now))
  }

  /** The k-th step is the first whose code this is. Steps not after the epoch have none; one without a code ends the search. */
  predicate Decides(env: Env, secret: string, code: string, steps: seq<int>, k: nat) {
    && k < |steps| && steps[k] > 0 && env.codeAt(secret, steps[k]) == Some(code)
    && forall j :: 0 <= j < k && steps[j] > 0 ==> env.codeAt(secret, steps[j]).Some? && env.codeAt(secret, steps[j]) != Some(code)
  }

  lemma {:induction false} FirstStepDecides(env: Env, secret: string, code: string, used: int, steps: seq<int>)
    ensures var r := FirstStep(env, secret, code, used, steps);
      && (r.Bad? <==> forall k: nat :: !Decides(env, secret, code, steps, k))
      && forall k: nat :: Decides(env, secret, code, steps, k) ==> r == if used != 0 && steps[k] <= used then Reused else Accepted(steps[k])
  {
    if steps != [] {
      var rest := steps[1..];
      FirstStepDecides(env, secret, code, used, rest);
      var passes := steps[0] <= 0 || (env.codeAt(secret, steps[0]).Some? && env.codeAt(secret, steps[0]) != Some(code));
      forall k: nat ensures Decides(env, secret, code, steps, k + 1) <==> passes && Decides(env, secret, code, rest, k) {
        assert forall j :: 0 <= j < |rest| ==> rest[j] == steps[j + 1];
        assert forall j :: 0 < j < |steps| ==> steps[j] == rest[j - 1];
      }
      forall k: nat | k > 0 ensures Decides(env, secret, code, steps, k) <==> passes && Decides(env, secret, code, rest, k - 1) {
        assert k - 1 + 1 == k;
      }
      assert Decides(env, secret, code, steps, 0) <==> steps[0] > 0 && env.codeAt(secret, steps[0]) == Some(code);
    }
  }

  /** Now's step, the one before and the one after. */
  function Around(now: Time): seq<int> {
    [Unix(now) / 30, Unix(now) / 30 - 1, Unix(now) / 30 + 1]
  }

  method ValidateTOTP(env: Env, secret: string, code: string, used: int, now: Time) returns (r: Totp)
    ensures r == Validated(env, secret, code, used, now)
    ensures r.Bad? <==> DigitsOf(code) == "" || forall k: nat :: !Decides(env, secret, DigitsOf(code), Around(now), k)
    ensures forall k: nat :: DigitsOf(code) != "" && Decides(env, secret, DigitsOf(code), Around(now), k) ==>
      r == if used != 0 && Around(now)[k] <= used then Reused else Accepted(Around(now)[k])
  {
    hide Decides;
    assert StepsAt(now) == Around(now);
    FirstStepDecides(env, secret, DigitsOf(code), used, Around(now));
    var digits := DigitsOf(code);
    if digits == "" {
      return Bad;
    }
    var cur := Unix(now) / PERIOD;
    var steps := [cur, cur - 1, cur + 1];
    for i := 0 to |steps|
      invariant FirstStep(env, secret, digits, used, steps[i..]) == FirstStep(env, secret, digits, used, steps)
    {
      var step := steps[i];
      assert steps[i..][0] == step && steps[i..][1..] == steps[i + 1..];
      if step <= 0 {
        continue;
      }
      var want := env.codeAt(secret, step);
      if want.None? {
        return Bad;
      }
      if digits != want.value {
        continue;
      }
      if used != 0 && step <= used {
        return Reused;
      }
      return Accepted(step);
    }
    return Bad;
  }

  lemma {:induction false} FirstStepIs(env: Env, secret: string, code: string, used: int, steps: seq<int>)
    ensures var r := FirstStep(env, secret, code, used, steps);
      r.Accepted? ==> r.step in steps && r.step > 0 && env.codeAt(secret, r.step) == Some(code) && (used != 0 ==> r.step > used)
  {
    if steps != [] {
      FirstStepIs(env, secret, code, used, steps[1..]);
    }
  }

  /** An accepted step is within one of now, has that code, and is later than any used before. */
  lemma AcceptedIsNew(env: Env, secret: string, code: string, used: int, now: Time)
    requires used >= 0 && Validated(env, secret, code, used, now).Accepted?
    ensures var step, cur := Validated(env, secret, code, used, now).step, Unix(now) / PERIOD;
      cur - 1 <= step <= cur + 1 && step > used && env.codeAt(secret, step) == Some(DigitsOf(code))
  {
    FirstStepIs(env, secret, DigitsOf(code), used, StepsAt(now));
  }

  // Recovery codes.

  /** The first stored entry the code opens. */
  function MatchOf(env: Env, stored: seq<Entry>, code: string): (r: Option<nat>)
    ensures r.Some? ==> r.value < |stored| && env.opens(stored[r.value], NormalizeRecoveryCode(code))
    ensures r.None? ==> forall i :: 0 <= i < |stored| ==> !env.opens(stored[i], NormalizeRecoveryCode(code))
  {
    if stored == [] then None
    else if env.opens(stored[0], NormalizeRecoveryCode(code)) then Some(0)
    else
      var r := MatchOf(env, stored[1..], code);
      if r.Some? then Some(r.value + 1) else None
  }

  /** Every entry is looked at, whether or not one matched before. */
  method MatchRecoveryCode(env: Env, stored: seq<Entry>, code: string) returns (r: Option<nat>)
    ensures r == MatchOf(env, stored, code)
    ensures r.Some? ==> r.value < |stored| && env.opens(stored[r.value], NormalizeRecoveryCode(code))
    ensures forall k :: 0 <= k < (if r.Some? then r.value else |stored|) ==> !env.opens(stored[k], NormalizeRecoveryCode(code))
  {
    var n := NormalizeRecoveryCode(code);
    r := None;
    for i := 0 to |stored|
      invariant r.Some? ==> r.value < i && env.opens(stored[r.value], n)
      invariant forall k :: 0 <= k < (if r.Some? then r.value else i) ==> !env.opens(stored[k], n)
    {
      if env.opens(stored[i], n) && r.None? {
        r := Some(i);
      }
    }
    FirstIs(env, stored, code, r);
  }

  lemma {:induction false} FirstIs(env: Env, stored: seq<Entry>, code: string, r: Option<nat>)
    requires r.Some? ==> r.value < |stored| && env.opens(stored[r.value], NormalizeRecoveryCode(code))
    requires forall k :: 0 <= k < (if r.Some? then r.value else |stored|) ==> !env.opens(stored[k], NormalizeRecoveryCode(code))
    ensures r == MatchOf(env, stored, code)
  {
    if stored != [] && r != Some(0) {
      FirstIs(env, stored[1..], code, if r.Some? then Some(r.value - 1) else None);
    }
  }

  // One check, committed in one store update.

  datatype Pending = Pending(secret: string, expires: Time)

  datatype Auth = Auth(enrolled: bool, blob: string, codes: seq<Entry>, lastStep: int, pending: Option<Pending>, on: bool)

  /** What else a success does in the same write. Replace: the owner asked for new recovery codes. */
  datatype Then = Keep | Wipe | TurnOff | Replace(codes: seq<Entry>)

  datatype Reason = NoReason | RecoveryRefused | NotEnrolled | RecoveryError | BadRecovery | TotpDecrypt | TotpReuse | BadTotp | SaveFailed

  datatype Used = NothingUsed | Step(step: int) | Code(entry: Entry)

  datatype Result = Result(ok: bool, reason: Reason, remaining: nat)

  datatype Check = Check(code: string, allowRecovery: bool, next: Then, now: Time, saved: bool)

  function Wiped(a: Auth): Auth {
    a.(enrolled := false, blob := "", codes := [], lastStep := 0, pending := None)
  }

  function Afterwards(a: Auth, t: Then): Auth {
    match t
    case Keep => a
    case Wipe => Wiped(a)
    case TurnOff => Wiped(a).(on := false)
    case Replace(codes) => a.(codes := codes)
  }

  /** What a code would use up, or why it is refused. */
  function Judged(env: Env, a: Auth, c: Check): (Used, Reason) {
    var code := TrimSpace(c.code);
    if !c.allowRecovery && RecoveryShape(code) then (NothingUsed, RecoveryRefused)
    else if !a.enrolled then (NothingUsed, NotEnrolled)
    else if RecoveryShape(code) then
      if !env.pepper then (NothingUsed, RecoveryError)
      else
        var i := MatchOf(env, a.codes, code);
        if i.Some? then (Code(a.codes[i.value]), NoReason) else (NothingUsed, BadRecovery)
    else
      var secret := env.secretOf(a.blob);
      if secret.None? then (NothingUsed, TotpDecrypt)
      else
        match Validated(env, secret.value, code, a.lastStep, c.now)
        case Accepted(step) => (Used.Step(step), NoReason)
        case Reused => (NothingUsed, TotpReuse)
        case Bad => (NothingUsed, BadTotp)
  }

  function Spent(env: Env, a: Auth, c: Check, u: Used): Auth {
    match u
    case NothingUsed => a
    case Step(step) => a.(lastStep := step)
    case Code(_) =>
      var i := MatchOf(env, a.codes, TrimSpace(c.code));
      if i.None? then a else a.(codes := a.codes[..i.value] + a.codes[i.value + 1..])
  }

  /** The state after a check, what it used up, and the answer. A refused or unsaved check leaves the state alone. */
  function Checked(env: Env, a: Auth, c: Check): (Auth, Used, Result) {
    var (u, reason) := Judged(env, a, c);
    if reason != NoReason then (a, NothingUsed, Result(false, reason, 0))
    else
      var t := Afterwards(Spent(env, a, c, u), c.next);
      if c.saved then (t, u, Result(true, NoReason, |t.codes|)) else (a, NothingUsed, Result(false, SaveFailed, |t.codes|))
  }

  class Store {
    var auth: Auth

    constructor (auth: Auth)
      ensures this.auth == auth
    {
      this.auth := auth;
    }

    method ConsumeFactor(env: Env, c: Check) returns (r: Result)
      modifies this`auth
      ensures (auth, r) == (Checked(env, old(auth), c).0, Checked(env, old(auth), c).2)
    {
      var code := TrimSpace(c.code);
      var shaped := LooksLikeRecoveryCode(code);
      if !c.allowRecovery && shaped {
        return Result(false, RecoveryRefused, 0);
      }
      var a := auth;
      if !a.enrolled {
        return Result(false, NotEnrolled, 0);
      }
      if shaped {
        if !env.pepper {
          return Result(false, RecoveryError, 0);
        }
        var i := MatchRecoveryCode(env, a.codes, code);
        if i.None? {
          return Result(false, BadRecovery, 0);
        }
        a := a.(codes := a.codes[..i.value] + a.codes[i.value + 1..]);
      } else {
        var secret := env.secretOf(a.blob);
        if secret.None? {
          return Result(false, TotpDecrypt, 0);
        }
        var v := ValidateTOTP(env, secret.value, code, a.lastStep, c.now);
        if !v.Accepted? {
          return Result(false, if v.Reused? then TotpReuse else BadTotp, 0);
        }
        a := a.(lastStep := v.step);
      }
      match c.next {
        case Keep =>
        case Wipe => a := Wiped(a);
        case TurnOff => a := Wiped(a).(on := false);
        case Replace(codes) => a := a.(codes := codes);
      }
      r := Result(true, NoReason, |a.codes|);
      var before := auth;
      auth := a;
      if !c.saved {
        auth := before;
        r := Result(false, SaveFailed, |a.codes|);
      }
    }

    /** Confirms an enrolment with its first code. */
    method EnrollConfirm(env: Env, code: string, codes: seq<Entry>, seal: string -> string, now: Time, saved: bool) returns (ok: bool)
      modifies this`auth
      ensures !ok ==> auth == old(auth)
      ensures ok ==> !old(auth).enrolled && auth.enrolled && auth.on && auth.codes == codes && auth.lastStep > 0 && auth.pending.None?
      ensures ok ==> old(auth).pending.Some? && now <= old(auth).pending.value.expires
      ensures ok <==> saved && !old(auth).enrolled && old(auth).pending.Some? && now <= old(auth).pending.value.expires
                      && Validated(env, old(auth).pending.value.secret, code, 0, now).Accepted?
      ensures ok ==> Validated(env, old(auth).pending.value.secret, code, 0, now) == Accepted(auth.lastStep)
    {
      if auth.enrolled || auth.pending.None? || now > auth.pending.value.expires {
        return false;
      }
      var secret := auth.pending.value.secret;
      var v := ValidateTOTP(env, secret, code, 0, now);
      if !v.Accepted? {
        return false;
      }
      AcceptedIsNew(env, secret, code, 0, now);
      if !saved {
        return false;
      }
      auth := Auth(true, seal(secret), codes, v.step, None, true);
      return true;
    }
  }

  /** The first stored entry the code opens is the i-th. */
  predicate Opens(env: Env, stored: seq<Entry>, code: string, i: nat) {
    && i < |stored| && env.opens(stored[i], NormalizeRecoveryCode(code))
    && forall k :: 0 <= k < i ==> !env.opens(stored[k], NormalizeRecoveryCode(code))
  }

  lemma {:induction false} MatchOpens(env: Env, stored: seq<Entry>, code: string)
    ensures forall i: nat :: Opens(env, stored, code, i) <==> MatchOf(env, stored, code) == Some(i)
  {
    if stored != [] {
      var rest := stored[1..];
      MatchOpens(env, rest, code);
      var opens := env.opens(stored[0], NormalizeRecoveryCode(code));
      forall i: nat ensures Opens(env, stored, code, i + 1) <==> !opens && Opens(env, rest, code, i) {
        assert forall k :: 0 <= k < |rest| ==> rest[k] == stored[k + 1];
        assert forall k :: 0 < k < |stored| ==> stored[k] == rest[k - 1];
      }
      forall i: nat | i > 0 ensures Opens(env, stored, code, i) <==> !opens && Opens(env, rest, code, i - 1) {
        assert i - 1 + 1 == i;
      }
      assert Opens(env, stored, code, 0) <==> opens;
    }
  }

  /** The code of the first of now, before and after decides: that step, unless it is not after the last one used. */
  ghost predicate TotpSays(env: Env, secret: string, code: string, used: int, now: Time, step: int, reuse: bool) {
    exists k: nat :: Decides(env, secret, DigitsOf(code), Around(now), k)
      && step == Around(now)[k] && (reuse <==> used != 0 && step <= used)
  }

  lemma TotpIs(env: Env, secret: string, code: string, used: int, now: Time)
    ensures var v := Validated(env, secret, code, used, now);
      DigitsOf(code) != "" ==>
        && (forall step :: v == Accepted(step) <==> TotpSays(env, secret, code, used, now, step, false))
        && (v == Reused <==> exists step :: TotpSays(env, secret, code, used, now, step, true))
        && (v == Bad <==> forall step, reuse :: !TotpSays(env, secret, code, used, now, step, reuse))
    ensures DigitsOf(code) == "" ==> Validated(env, secret, code, used, now) == Bad
  {
    hide Decides;
    var steps := Around(now);
    assert StepsAt(now) == steps;
    FirstStepDecides(env, secret, DigitsOf(code), used, steps);
    forall k: nat | Decides(env, secret, DigitsOf(code), steps, k) ensures k < |steps| {
      DecidesWithin(env, secret, DigitsOf(code), steps, k);
    }
    if DigitsOf(code) != "" && !Validated(env, secret, code, used, now).Bad? {
      var k: nat :| Decides(env, secret, DigitsOf(code), steps, k);
      assert TotpSays(env, secret, code, used, now, steps[k], used != 0 && steps[k] <= used);
    }
  }

  lemma DecidesWithin(env: Env, secret: string, code: string, steps: seq<int>, k: nat)
    requires Decides(env, secret, code, steps, k)
    ensures k < |steps|
  {
  }

  /** A code of the recovery shape is a recovery code and nothing else; any other is a time-based one. */
  predicate IsRecovery(c: Check) {
    |NormalizeRecoveryCode(TrimSpace(c.code))| == 12 && AllSymbols(NormalizeRecoveryCode(TrimSpace(c.code)))
  }

  /**
   What a check answers, from the code, the state and the keys. A right code that was not used before is accepted and
   its step or entry used up, if the store saves; every other answer names why, and changes nothing.
   */
  ghost predicate AnsweredAs(env: Env, a: Auth, c: Check, u: Used, ok: bool, reason: Reason) {
    var code := TrimSpace(c.code);
    if IsRecovery(c) && !c.allowRecovery then reason == RecoveryRefused
    else if !a.enrolled then reason == NotEnrolled
    else if IsRecovery(c) then
      if !env.pepper then reason == RecoveryError
      else if forall i: nat :: !Opens(env, a.codes, code, i) then reason == BadRecovery
      else if c.saved then ok && exists i: nat :: Opens(env, a.codes, code, i) && u == Code(a.codes[i])
      else reason == SaveFailed
    else if env.secretOf(a.blob).None? then reason == TotpDecrypt
    else if DigitsOf(code) == "" || forall s, b :: !TotpSays(env, env.secretOf(a.blob).value, code, a.lastStep, c.now, s, b) then
      reason == BadTotp
    else if exists s :: TotpSays(env, env.secretOf(a.blob).value, code, a.lastStep, c.now, s, true) then reason == TotpReuse
    else if c.saved then ok && exists s :: TotpSays(env, env.secretOf(a.blob).value, code, a.lastStep, c.now, s, false) && u == Used.Step(s)
    else reason == SaveFailed
  }

  /** What is committed: the step or the entry used up, and what the caller does besides. */
  ghost predicate CommittedAs(env: Env, a: Auth, c: Check, u: Used, t: Auth) {
    var left := if u.Code? then exists i: nat :: Opens(env, a.codes, TrimSpace(c.code), i) && t.codes == a.codes[..i] + a.codes[i + 1..]
      else t.codes == a.codes;
    match c.next
    case Keep => left && t == a.(codes := t.codes, lastStep := if u.Step? then u.step else a.lastStep)
    case Wipe => t == a.(enrolled := false, blob := "", codes := [], lastStep := 0, pending := None)
    case TurnOff => t == a.(enrolled := false, blob := "", codes := [], lastStep := 0, pending := None, on := false)
    case Replace(codes) => t == a.(codes := codes, lastStep := if u.Step? then u.step else a.lastStep)
  }

  lemma JudgedIs(env: Env, a: Auth, c: Check)
    ensures var (u, reason) := Judged(env, a, c);
      var ok := reason == NoReason && c.saved;
      && (reason == NoReason <==> u != NothingUsed)
      && AnsweredAs(env, a, c, if ok then u else NothingUsed, ok, if reason == NoReason && !c.saved then SaveFailed else reason)
  {
    hide TrimSpace, Validated, TotpSays, NormalizeRecoveryCode, Opens;
    var code := TrimSpace(c.code);
    MatchOpens(env, a.codes, code);
    if a.enrolled && env.secretOf(a.blob).Some? {
      TotpIs(env, env.secretOf(a.blob).value, code, a.lastStep, c.now);
    }
  }

  /** The answer and the new state of every check. */
  lemma CheckAnswers(env: Env, a: Auth, c: Check)
    ensures var (t, u, r) := Checked(env, a, c);
      && AnsweredAs(env, a, c, u, r.ok, r.reason)
      && (r.ok <==> r.reason == NoReason) && (!r.ok ==> t == a)
      && (r.ok ==> CommittedAs(env, a, c, u, t) && r.remaining == |t.codes|)
  {
    hide Judged, AnsweredAs, MatchOf, TrimSpace;
    JudgedIs(env, a, c);
    MatchOpens(env, a.codes, TrimSpace(c.code));
    if Judged(env, a, c).0.Code? {
      CodeIsMatched(env, a, c);
    }
  }

  lemma CodeIsMatched(env: Env, a: Auth, c: Check)
    requires Judged(env, a, c).0.Code?
    ensures MatchOf(env, a.codes, TrimSpace(c.code)).Some?
  {
  }

  /** Letter case of a typed recovery code does not matter. */
  lemma TypedAnyCase(code: string)
    ensures NormalizeRecoveryCode(Lower(code)) == NormalizeRecoveryCode(code)
  {
    TrimLowers(code);
    LowerTwice(TrimSpace(code));
  }

  lemma LowerTwice(s: string)
    ensures Lower(Lower(s)) == Lower(s)
  {
    LowerStays(Lower(s));
  }

  lemma SpaceHasNoCase(c: char)
    ensures IsSpace(LowerChar(c)) <==> IsSpace(c)
  {
  }

  lemma {:induction false} TrimLowers(s: string)
    ensures TrimSpace(Lower(s)) == Lower(TrimSpace(s))
    decreases |s|
  {
    if s != "" {
      var l := Lower(s);
      hide IsSpace, LowerChar;
      SpaceHasNoCase(s[0]);
      SpaceHasNoCase(s[|s| - 1]);
      if IsSpace(s[0]) {
        assert l[1..] == Lower(s[1..]);
        TrimLowers(s[1..]);
      } else if IsSpace(s[|s| - 1]) {
        assert l[..|l| - 1] == Lower(s[..|s| - 1]);
        TrimLowers(s[..|s| - 1]);
      }
    }
  }

  /** A time-based code is its digits; whatever stands between them does not matter. */
  lemma {:induction false} DigitsJoin(a: string, b: string)
    ensures DigitsOf(a + b) == DigitsOf(a) + DigitsOf(b)
  {
    if a == "" {
      assert a + b == b;
    } else {
      DigitsJoin(a[1..], b);
      assert (a + b)[1..] == a[1..] + b;
    }
  }

  lemma {:induction false} DigitsAre(a: string)
    ensures (forall i :: 0 <= i < |a| ==> '0' <= a[i] <= '9') ==> DigitsOf(a) == a
    ensures (forall i :: 0 <= i < |a| ==> !('0' <= a[i] <= '9')) ==> DigitsOf(a) == ""
  {
    if a != "" {
      DigitsAre(a[1..]);
      assert a == [a[0]] + a[1..];
      assert forall i :: 0 <= i < |a[1..]| ==> a[1..][i] == a[i + 1];
    }
  }

  // Runs between two enrolments.

  /** A run of checks: the state it ends in, what it used up, the recovery entries it issued, and those it threw away unused. */
  datatype Run = Run(end: Auth, used: seq<Used>, issued: seq<Entry>, lost: seq<Entry>)

  /** The entries a committed check puts in place of the old ones. */
  function IssuedBy(env: Env, a: Auth, c: Check): seq<Entry> {
    if Checked(env, a, c).2.ok && c.next.Replace? then c.next.codes else []
  }

  /** The entries a committed check throws away: replaced or wiped, the one it used up not among them. */
  function LostBy(env: Env, a: Auth, c: Check): seq<Entry> {
    if Checked(env, a, c).2.ok && c.next != Keep then Spent(env, a, c, Checked(env, a, c).1).codes else []
  }

  function After(env: Env, a: Auth, cs: seq<Check>): Run
    decreases |cs|
  {
    if cs == [] then Run(a, [], [], [])
    else
      var (t, u, _) := Checked(env, a, cs[0]);
      var rest := After(env, t, cs[1..]);
      Run(rest.end, (if u == NothingUsed then [] else [u]) + rest.used,
          IssuedBy(env, a, cs[0]) + rest.issued, LostBy(env, a, cs[0]) + rest.lost)
  }

  ghost predicate Valid(a: Auth) {
    a.lastStep >= 0
  }

  function StepsOf(us: seq<Used>): seq<int> {
    if us == [] then [] else if us[0].Step? then [us[0].step] + StepsOf(us[1..]) else StepsOf(us[1..])
  }

  function EntriesOf(us: seq<Used>): seq<Entry> {
    if us == [] then [] else if us[0].Code? then [us[0].entry] + EntriesOf(us[1..]) else EntriesOf(us[1..])
  }

  lemma RemovesOne(s: seq<Entry>, i: nat)
    requires i < |s|
    ensures multiset(s[..i] + s[i + 1..]) + multiset{s[i]} == multiset(s)
  {
    assert s == s[..i] + [s[i]] + s[i + 1..];
  }

  function EntryOf(u: Used): seq<Entry> {
    if u.Code? then [u.entry] else []
  }

  function StepOf(u: Used): seq<int> {
    if u.Step? then [u.step] else []
  }

  /** What a code uses up: a later step than any before, or one of the entries there are. */
  lemma SpentIs(env: Env, a: Auth, c: Check)
    requires Valid(a)
    ensures var (u, reason) := Judged(env, a, c);
      && (reason == NoReason <==> u != NothingUsed) && (reason == NoReason ==> a.enrolled)
      && Spent(env, a, c, u).enrolled == a.enrolled
      && (u.Step? ==> u.step > a.lastStep && Spent(env, a, c, u).lastStep == u.step)
      && (!u.Step? ==> Spent(env, a, c, u).lastStep == a.lastStep)
      && (u.Code? ==> u.entry in a.codes)
      && multiset(EntryOf(u)) + multiset(Spent(env, a, c, u).codes) == multiset(a.codes)
  {
    hide TrimSpace, RecoveryShape, Validated, MatchOf;
    var code := TrimSpace(c.code);
    if Judged(env, a, c).0.Step? {
      AcceptedIsNew(env, env.secretOf(a.blob).value, code, a.lastStep, c.now);
    } else if Judged(env, a, c).0.Code? {
      RemovesOne(a.codes, MatchOf(env, a.codes, code).value);
    }
  }

  /** Every recovery entry there was, with those a check issues, is used up, thrown away or still there. */
  lemma NoEntryIsLost(env: Env, a: Auth, c: Check)
    requires Valid(a)
    ensures multiset(EntryOf(Checked(env, a, c).1)) + multiset(Checked(env, a, c).0.codes) + multiset(LostBy(env, a, c))
            == multiset(a.codes) + multiset(IssuedBy(env, a, c))
  {
    hide Judged, Spent;
    SpentIs(env, a, c);
  }

  /** What one check does: nothing unless it is accepted and saved; an accepted step is later than any before. */
  lemma CheckIs(env: Env, a: Auth, c: Check)
    requires Valid(a)
    ensures var (t, u, r) := Checked(env, a, c);
      && Valid(t)
      && (r.ok <==> u != NothingUsed)
      && (!r.ok ==> t == a)
      && (r.ok ==> a.enrolled && c.saved && (t.enrolled <==> c.next.Keep? || c.next.Replace?))
      && (u.Step? ==> u.step > a.lastStep && (t.enrolled ==> t.lastStep == u.step))
      && (!u.Step? && t.enrolled ==> t.lastStep == a.lastStep)
      && (u.Code? ==> u.entry in a.codes)
    ensures multiset(EntryOf(Checked(env, a, c).1)) + multiset(Checked(env, a, c).0.codes) + multiset(LostBy(env, a, c))
            == multiset(a.codes) + multiset(IssuedBy(env, a, c))
  {
    hide Judged, Spent, EntryOf, LostBy, IssuedBy;
    NoEntryIsLost(env, a, c);
    SpentIs(env, a, c);
  }

  predicate Increasing(from: int, s: seq<int>)
    decreases |s|
  {
    s == [] || (s[0] > from && Increasing(s[0], s[1..]))
  }

  lemma {:induction false} NothingAfterWipe(env: Env, a: Auth, cs: seq<Check>)
    requires !a.enrolled
    ensures After(env, a, cs) == Run(a, [], [], [])
    decreases |cs|
  {
    if cs != [] {
      NothingAfterWipe(env, a, cs[1..]);
    }
  }

  lemma {:induction false} UsedJoins(us: seq<Used>, vs: seq<Used>)
    ensures StepsOf(us + vs) == StepsOf(us) + StepsOf(vs) && EntriesOf(us + vs) == EntriesOf(us) + EntriesOf(vs)
  {
    if us == [] {
      assert us + vs == vs;
    } else {
      UsedJoins(us[1..], vs);
      assert (us + vs)[1..] == us[1..] + vs;
    }
  }

  /** What the first check of a run used up comes first. */
  lemma UsedFirst(env: Env, a: Auth, cs: seq<Check>)
    requires cs != []
    ensures var (t, u, _) := Checked(env, a, cs[0]);
      && StepsOf(After(env, a, cs).used) == StepOf(u) + StepsOf(After(env, t, cs[1..]).used)
      && EntriesOf(After(env, a, cs).used) == EntryOf(u) + EntriesOf(After(env, t, cs[1..]).used)
  {
    hide Checked;
    var (t, u, _) := Checked(env, a, cs[0]);
    var us := if u == NothingUsed then [] else [u];
    UsedJoins(us, After(env, t, cs[1..]).used);
  }

  /** Over any checks between two enrolments, regenerations included, the accepted steps strictly increase. */
  lemma {:induction false} StepsIncrease(env: Env, a: Auth, cs: seq<Check>)
    requires Valid(a)
    ensures Increasing(a.lastStep, StepsOf(After(env, a, cs).used))
    decreases |cs|
  {
    hide Checked, StepsOf;
    if cs == [] {
      NothingIncreases(a.lastStep);
    } else {
      var (t, u, _) := Checked(env, a, cs[0]);
      CheckIs(env, a, cs[0]);
      UsedFirst(env, a, cs);
      if t.enrolled || t == a {
        StepsIncrease(env, t, cs[1..]);
        assert (StepOf(u) + StepsOf(After(env, t, cs[1..]).used)) [|StepOf(u)|..] == StepsOf(After(env, t, cs[1..]).used);
      } else {
        NothingAfterWipe(env, t, cs[1..]);
        NothingIncreases(0);
        assert StepOf(u) + [] == StepOf(u);
      }
    }
  }

  lemma NothingIncreases(from: int)
    ensures StepsOf([]) == [] && Increasing(from, [])
  {
  }

  /** One check before a run, as counts of entries. */
  lemma JoinsCounts(u: seq<Entry>, us: seq<Entry>, i: seq<Entry>, more: seq<Entry>, l: seq<Entry>, ls: seq<Entry>, end: multiset<Entry>,
    a: multiset<Entry>, t: multiset<Entry>)
    requires multiset(u) + t + multiset(l) == a + multiset(i)
    requires multiset(us) + end + multiset(ls) == t + multiset(more)
    ensures multiset(u + us) + end + multiset(l + ls) == a + multiset(i + more)
  {
    assert multiset(u + us) == multiset(u) + multiset(us);
    assert multiset(i + more) == multiset(i) + multiset(more);
    assert multiset(l + ls) == multiset(l) + multiset(ls);
    forall e: Entry
      ensures (multiset(u + us) + end + multiset(l + ls))[e] == (a + multiset(i + more))[e]
    {
      assert (multiset(u) + t + multiset(l))[e] == (a + multiset(i))[e];
      assert (multiset(us) + end + multiset(ls))[e] == (t + multiset(more))[e];
    }
  }

  /**
   Over the same checks no recovery entry is lost track of: those accepted, those left and those thrown away are
   exactly those there were and those issued. So each is accepted at most as often as it was stored or issued.
   */
  lemma {:induction false} EntriesAreConserved(env: Env, a: Auth, cs: seq<Check>)
    requires Valid(a)
    ensures var r := After(env, a, cs);
      && multiset(EntriesOf(r.used)) + multiset(r.end.codes) + multiset(r.lost) == multiset(a.codes) + multiset(r.issued)
      && multiset(EntriesOf(r.used)) <= multiset(a.codes) + multiset(r.issued)
    decreases |cs|
  {
    hide Checked, IssuedBy, LostBy, EntriesOf;
    var r := After(env, a, cs);
    if cs == [] {
      NoEntries();
    } else {
      var t, c := Checked(env, a, cs[0]).0, cs[0];
      CheckIs(env, a, c);
      UsedFirst(env, a, cs);
      EntriesAreConserved(env, t, cs[1..]);
      var rest := After(env, t, cs[1..]);
      JoinsCounts(EntryOf(Checked(env, a, c).1), EntriesOf(rest.used), IssuedBy(env, a, c), rest.issued, LostBy(env, a, c), rest.lost,
        multiset(rest.end.codes), multiset(a.codes), multiset(t.codes));
    }
  }

  lemma NoEntries()
    ensures EntriesOf([]) == []
  {
  }

  /** A check that replaces the entries leaves only the new ones. */
  lemma ReplacedAre(env: Env, a: Auth, c: Check)
    requires c.next.Replace? && Checked(env, a, c).2.ok
    ensures Checked(env, a, c).0.codes == c.next.codes
  {
    hide Judged, Spent;
  }

  lemma NotCounted(us: seq<Entry>, codes: seq<Entry>, issued: seq<Entry>, e: Entry)
    requires multiset(us) <= multiset(codes) + multiset(issued) && e !in codes && e !in issued
    ensures e !in us
  {
    assert e !in multiset(codes) && e !in multiset(issued);
    assert e in us ==> e in multiset(us);
  }

  /** An entry thrown away by a regeneration is never accepted later, unless it is issued again. */
  lemma ReplacedStaysRefused(env: Env, a: Auth, c: Check, cs: seq<Check>, e: Entry)
    requires Valid(a) && c.next.Replace? && Checked(env, a, c).2.ok
    requires e !in c.next.codes && e !in After(env, Checked(env, a, c).0, cs).issued
    ensures e !in EntriesOf(After(env, Checked(env, a, c).0, cs).used)
  {
    hide Checked, After, EntriesOf;
    var t := Checked(env, a, c).0;
    CheckIs(env, a, c);
    ReplacedAre(env, a, c);
    EntriesAreConserved(env, t, cs);
    NotCounted(EntriesOf(After(env, t, cs).used), t.codes, After(env, t, cs).issued, e);
  }

  /** A check that is not a saved regeneration issues nothing, and throws nothing away unless it wipes. */
  lemma IssuesNothing(env: Env, a: Auth, c: Check)
    requires c.next.Replace? ==> !c.saved
    ensures IssuedBy(env, a, c) == [] && (Checked(env, a, c).0.enrolled && Valid(a) ==> LostBy(env, a, c) == [])
  {
    hide Judged, Spent;
    if Valid(a) {
      SpentIs(env, a, c);
    }
  }

  /** Without a regeneration the entries accepted and those left are exactly the ones there were, until a wipe. */
  lemma {:induction false} FactorsWorkOnce(env: Env, a: Auth, cs: seq<Check>)
    requires Valid(a) && a.enrolled
    requires forall i :: 0 <= i < |cs| ==> cs[i].next.Replace? ==> !cs[i].saved
    ensures var r := After(env, a, cs);
      && r.issued == [] && multiset(EntriesOf(r.used)) <= multiset(a.codes)
      && (r.end.enrolled ==> r.lost == [] && multiset(EntriesOf(r.used)) + multiset(r.end.codes) == multiset(a.codes))
    decreases |cs|
  {
    hide EntriesOf, Checked, IssuedBy, LostBy;
    EntriesAreConserved(env, a, cs);
    if cs != [] {
      var t := Checked(env, a, cs[0]).0;
      CheckIs(env, a, cs[0]);
      IssuesNothing(env, a, cs[0]);
      if t.enrolled {
        FactorsWorkOnce(env, t, cs[1..]);
      } else {
        NothingAfterWipe(env, t, cs[1..]);
      }
    }
  }
}
