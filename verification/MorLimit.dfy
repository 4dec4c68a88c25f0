/** The stake cap as text: parsing, printing, the conversion from an hourly cap, and the amount a refusal shows. */
module MorLimit {
  import opened Basics
  import opened Stake
  import OpenErrors

  const MICRO: int := 1_000_000_000_000
  const MOR: int := 1_000_000_000_000_000_000
  const MAX_LIMIT: int := 100_000 * MOR

  // Decimal digits.

  function Pow10(n: nat): nat {
    if n == 0 then 1 else 10 * Pow10(n - 1)
  }

  predicate IsDigit(c: char) {
    '0' <= c <= '9'
  }

  predicate AllDigits(s: string) {
    forall i :: 0 <= i < |s| ==> IsDigit(s[i])
  }

  function DigitOf(d: nat): (c: char)
    requires d < 10
    ensures IsDigit(c) && c as int - '0' as int == d
  {
    (d + '0' as int) as char
  }

  /** n in decimal, without leading zeros. */
  function Digits(n: nat): (s: string)
    ensures AllDigits(s) && s != ""
  {
    if n < 10 then [DigitOf(n)] else Digits(n / 10) + [DigitOf(n % 10)]
  }

  function Value(s: string): nat
    requires AllDigits(s)
  {
    if s == "" then 0 else 10 * Value(s[..|s| - 1]) + (s[|s| - 1] as int - '0' as int)
  }

  function Zeros(n: nat): (s: string)
    ensures |s| == n && AllDigits(s)
  {
    if n == 0 then "" else Zeros(n - 1) + "0"
  }

  function LeftPad(s: string, n: nat): string {
    if |s| >= n then s else Zeros(n - |s|) + s
  }

  function TrimZeros(s: string): string {
    if s != "" && s[|s| - 1] == '0' then TrimZeros(s[..|s| - 1]) else s
  }

  lemma {:induction false} ValueOfDigits(n: nat)
    ensures Value(Digits(n)) == n
  {
    if n >= 10 {
      ValueOfDigits(n / 10);
      assert Digits(n)[..|Digits(n)| - 1] == Digits(n / 10);
    }
  }

  lemma {:induction false} ValueJoins(a: string, b: string)
    requires AllDigits(a) && AllDigits(b)
    ensures AllDigits(a + b) && Value(a + b) == Value(a) * Pow10(|b|) + Value(b)
  {
    if b == "" {
      assert a + b == a;
    } else {
      var front := b[..|b| - 1];
      ValueJoins(a, front);
      assert (a + b)[..|a + b| - 1] == a + front;
      assert Value(a) * Pow10(|b|) == 10 * (Value(a) * Pow10(|front|));
    }
  }

  lemma {:induction false} ValueOfZeros(n: nat)
    ensures Value(Zeros(n)) == 0
  {
    if n > 0 {
      ValueOfZeros(n - 1);
      assert Zeros(n)[..n - 1] == Zeros(n - 1);
    }
  }

  lemma {:induction false} DigitsFit(n: nat, k: nat)
    requires n < Pow10(k) && k > 0
    ensures |Digits(n)| <= k
  {
    if n >= 10 {
      DigitsFit(n / 10, k - 1);
    }
  }

  lemma PadKeepsValue(s: string, n: nat)
    requires AllDigits(s)
    ensures AllDigits(LeftPad(s, n)) && Value(LeftPad(s, n)) == Value(s)
    ensures |LeftPad(s, n)| == if |s| >= n then |s| else n
  {
    if |s| < n {
      ValueOfZeros(n - |s|);
      ValueJoins(Zeros(n - |s|), s);
    }
  }

  lemma {:induction false} TrimmedIsPrefix(s: string)
    requires AllDigits(s)
    ensures |TrimZeros(s)| <= |s| && AllDigits(TrimZeros(s)) && s == TrimZeros(s) + Zeros(|s| - |TrimZeros(s)|)
  {
    if s != "" && s[|s| - 1] == '0' {
      var front := s[..|s| - 1];
      TrimmedIsPrefix(front);
      assert s == front + "0";
      assert TrimZeros(front) + Zeros(|s| - |TrimZeros(s)|) == (TrimZeros(front) + Zeros(|front| - |TrimZeros(front)|)) + "0";
    }
  }

  lemma Pow10Values()
    ensures Pow10(2) == 100 && Pow10(6) == 1_000_000 && Pow10(12) == MICRO && Pow10(16) == 10_000 * MICRO && Pow10(18) == MOR
  {
    assert Pow10(6) == 1_000_000;
    assert Pow10(12) == MICRO;
  }

  lemma {:induction false} Pow10Adds(a: nat, b: nat)
    ensures Pow10(a + b) == Pow10(a) * Pow10(b)
  {
    if a > 0 {
      Pow10Adds(a - 1, b);
    }
  }

  // Parsing.

  /** Where the first dot is; the length if there is none. */
  function Dot(s: string): (i: nat)
    ensures i <= |s| && (forall k :: 0 <= k < i ==> s[k] != '.') && (i < |s| ==> s[i] == '.')
  {
    if s == "" || s[0] == '.' then 0 else 1 + Dot(s[1..])
  }

  function Whole(s: string): string {
    s[..Dot(s)]
  }

  function Frac(s: string): string {
    if Dot(s) < |s| then s[Dot(s) + 1..] else ""
  }

  /** Digits, and perhaps a dot and one to six digits. */
  predicate WellFormed(s: string) {
    && Whole(s) != "" && AllDigits(Whole(s)) && AllDigits(Frac(s)) && |Frac(s)| <= 6
    && (Dot(s) < |s| ==> Frac(s) != "")
  }

  datatype Limit = Off | Cap(wei: int) | Invalid

  function WeiOf(s: string): nat
    requires WellFormed(s)
  {
    var digits := Whole(s) + Frac(s) + Zeros(18 - |Frac(s)|);
    Value(digits)
  }

  function ParseMorLimit(s: string): Limit {
    var t := TrimSpace(s);
    if t == "" then Off
    else if !WellFormed(t) then Invalid
    else if 0 < WeiOf(t) <= MAX_LIMIT then Cap(WeiOf(t))
    else Invalid
  }

  function FormatMorLimit(wei: nat): string {
    var frac := TrimZeros(LeftPad(Digits(wei % MOR / MICRO), 6));
    if frac == "" then Digits(wei / MOR) else Digits(wei / MOR) + "." + frac
  }

  /** A whole number of micro-MOR the setting may hold. */
  predicate Settable(wei: int) {
    0 < wei <= MAX_LIMIT && wei % MICRO == 0
  }

  lemma Splits(whole: string, frac: string)
    requires AllDigits(whole) && whole != "" && AllDigits(frac) && 0 < |frac| <= 6
    ensures var s := whole + "." + frac;
      Whole(s) == whole && Frac(s) == frac && WellFormed(s) && TrimSpace(s) == s && s != ""
  {
    var s := whole + "." + frac;
    assert forall k :: 0 <= k < |whole| ==> s[k] == whole[k] && IsDigit(s[k]);
    assert s[|whole|] == '.';
    assert s[|s| - 1] == frac[|frac| - 1];
    assert Dot(s) == |whole|;
    assert s[..|whole|] == whole && s[|whole| + 1..] == frac;
  }

  lemma SplitsWhole(whole: string)
    requires AllDigits(whole) && whole != ""
    ensures Whole(whole) == whole && Frac(whole) == "" && WellFormed(whole) && TrimSpace(whole) == whole
  {
    assert Dot(whole) == |whole|;
    assert whole[..|whole|] == whole;
  }

  /** The digits of q, then decimals, then zeros up to 18 decimals, are that number of wei. */
  lemma ValueOfParts(q: nat, frac: string)
    requires AllDigits(frac) && |frac| <= 6
    ensures var s := Digits(q) + frac + Zeros(18 - |frac|);
      AllDigits(s) && Value(s) == q * MOR + Value(frac) * Pow10(18 - |frac|)
  {
    hide Value, Digits, Zeros, Pow10;
    var zeros := Zeros(18 - |frac|);
    ValueJoins(frac, zeros);
    ValueOfZeros(18 - |frac|);
    ValueJoins(Digits(q), frac + zeros);
    assert Digits(q) + frac + zeros == Digits(q) + (frac + zeros);
    ValueOfDigits(q);
    Pow10Values();
  }

  /** The text of a number with one to six decimals reads back as that number of wei. */
  lemma ReadsBack(q: nat, frac: string)
    requires AllDigits(frac) && 0 < |frac| <= 6
    ensures var s := Digits(q) + "." + frac;
      WellFormed(s) && s != "" && TrimSpace(s) == s && WeiOf(s) == q * MOR + Value(frac) * Pow10(18 - |frac|)
  {
    hide Value, Digits, Zeros, Pow10, Whole, Frac, WellFormed, TrimSpace, AllDigits, Dot;
    Splits(Digits(q), frac);
    ValueOfParts(q, frac);
  }

  lemma WholeReadsBack(q: nat)
    ensures WellFormed(Digits(q)) && TrimSpace(Digits(q)) == Digits(q) && WeiOf(Digits(q)) == q * MOR
  {
    hide Digits, Zeros, Pow10, Whole, Frac, WellFormed, TrimSpace;
    SplitsWhole(Digits(q));
    ValueOfParts(q, "");
    assert Digits(q) + "" + Zeros(18) == Digits(q) + Zeros(18);
  }

  /** Six digits of micro-MOR without their trailing zeros still mean the same. */
  lemma TrimmedMicro(micro: nat)
    requires micro < 1_000_000
    ensures var frac := TrimZeros(LeftPad(Digits(micro), 6));
      && AllDigits(frac) && |frac| <= 6
      && Value(frac) * Pow10(18 - |frac|) == micro * MICRO
  {
    hide Value, Digits, Zeros, Pow10, LeftPad, TrimZeros;
    Pow10Values();
    DigitsFit(micro, 6);
    var padded := LeftPad(Digits(micro), 6);
    PadKeepsValue(Digits(micro), 6);
    ValueOfDigits(micro);
    TrimmedIsPrefix(padded);
    var frac := TrimZeros(padded);
    ValueJoins(frac, Zeros(6 - |frac|));
    ValueOfZeros(6 - |frac|);
    Pow10Adds(6 - |frac|, 12);
    assert Value(frac) * Pow10(18 - |frac|) == Value(frac) * (Pow10(6 - |frac|) * MICRO) == (Value(frac) * Pow10(6 - |frac|)) * MICRO;
  }

  /** Printing a cap and parsing it gives back the same wei. */
  lemma RoundTrip(wei: int)
    requires Settable(wei)
    ensures ParseMorLimit(FormatMorLimit(wei)) == Cap(wei)
  {
    hide Value, Digits, Zeros, Pow10, LeftPad, TrimZeros, WellFormed, TrimSpace, WeiOf;
    var q, micro := wei / MOR, wei % MOR / MICRO;
    MicroPart(wei);
    TrimmedMicro(micro);
    var frac := TrimZeros(LeftPad(Digits(micro), 6));
    if frac == "" {
      WholeReadsBack(q);
      ValueOfEmpty();
    } else {
      ReadsBack(q, frac);
    }
  }

  lemma ValueOfEmpty()
    ensures Value("") == 0
  {
  }

  lemma MicroPart(wei: nat)
    requires wei % MICRO == 0
    ensures wei == wei / MOR * MOR + wei % MOR / MICRO * MICRO && 0 <= wei % MOR / MICRO < 1_000_000
  {
  }

  lemma {:induction false} MultipleOfMicro(s: string)
    requires WellFormed(s)
    ensures WeiOf(s) % MICRO == 0
  {
    hide Value, Zeros, Pow10, Whole, Frac;
    var digits := Whole(s) + Frac(s);
    var head := Zeros(6 - |Frac(s)|);
    ValueJoins(digits, head);
    ValueJoins(digits + head, Zeros(12));
    ZerosJoin(6 - |Frac(s)|, 12);
    assert digits + Zeros(18 - |Frac(s)|) == (digits + head) + Zeros(12);
    ValueOfZeros(12);
    Pow10Values();
  }

  lemma {:induction false} ZerosJoin(a: nat, b: nat)
    ensures Zeros(a + b) == Zeros(a) + Zeros(b)
  {
    if b > 0 {
      ZerosJoin(a, b - 1);
    }
  }

  /** Whatever parses is settable, so it survives being printed, saved and read again. */
  lemma ParsedSurvives(s: string)
    requires ParseMorLimit(s).Cap?
    ensures Settable(ParseMorLimit(s).wei)
    ensures ParseMorLimit(FormatMorLimit(ParseMorLimit(s).wei)) == ParseMorLimit(s)
  {
    MultipleOfMicro(TrimSpace(s));
    RoundTrip(ParseMorLimit(s).wei);
  }

  /** The text of a cap: digits, and perhaps a dot and up to six more. */
  function Written(whole: string, frac: string): string {
    if frac == "" then whole else whole + "." + frac
  }

  predicate Decimal(whole: string, frac: string) {
    whole != "" && AllDigits(whole) && AllDigits(frac) && |frac| <= 6
  }

  lemma WrittenSplits(whole: string, frac: string)
    requires Decimal(whole, frac)
    ensures var t := Written(whole, frac); t != "" && WellFormed(t) && Whole(t) == whole && Frac(t) == frac
  {
    hide TrimSpace, Dot;
    if frac == "" {
      SplitsWhole(whole);
    } else {
      Splits(whole, frac);
    }
  }

  /** Whole MOR and the decimals, in wei. */
  function DecimalWei(whole: string, frac: string): nat
    requires Decimal(whole, frac)
  {
    Value(whole) * MOR + Value(frac) * Pow10(18 - |frac|)
  }

  lemma PartsValue(whole: string, frac: string)
    requires Decimal(whole, frac)
    ensures var digits := whole + frac + Zeros(18 - |frac|);
      AllDigits(digits) && Value(digits) == DecimalWei(whole, frac)
  {
    hide Value, Zeros, Pow10, AllDigits;
    var zeros := Zeros(18 - |frac|);
    ValueJoins(frac, zeros);
    ValueOfZeros(18 - |frac|);
    ValueJoins(whole, frac + zeros);
    assert whole + frac + zeros == whole + (frac + zeros);
    Pow10Values();
  }

  /** What such a text says is read as that number of wei, or refused when it is 0 or above the limit. */
  lemma CapIsRead(s: string, whole: string, frac: string)
    requires Decimal(whole, frac) && TrimSpace(s) == Written(whole, frac)
    ensures var w := DecimalWei(whole, frac); ParseMorLimit(s) == if 0 < w <= 100_000 * MOR then Cap(w) else Invalid
  {
    hide Value, Zeros, Whole, Frac, WellFormed, TrimSpace, Written, AllDigits, Decimal, DecimalWei;
    WrittenSplits(whole, frac);
    PartsValue(whole, frac);
  }

  /** Nothing else is a cap. Only a blank setting is none at all; whatever does not read is invalid, not off. */
  lemma OnlyCapsParse(s: string)
    ensures ParseMorLimit(s) == Off <==> TrimSpace(s) == ""
    ensures ParseMorLimit(s).Cap? ==> exists whole, frac :: Decimal(whole, frac) && TrimSpace(s) == Written(whole, frac)
    ensures TrimSpace(s) != "" && (forall whole, frac :: Decimal(whole, frac) ==> TrimSpace(s) != Written(whole, frac)) ==>
      ParseMorLimit(s) == Invalid
  {
    hide TrimSpace, Value, Zeros, WeiOf;
    var t := TrimSpace(s);
    if t != "" && WellFormed(t) {
      assert t == Written(Whole(t), Frac(t)) by {
        assert t == t[..Dot(t)] + t[Dot(t)..];
        if Dot(t) < |t| {
          assert t[Dot(t)..] == "." + t[Dot(t) + 1..];
        }
      }
      assert Decimal(Whole(t), Frac(t));
    }
  }

  // From an hourly cap.

  /** hourly × sec ÷ 3600 wei, rounded up once to whole micro-MOR, within one micro-MOR and the highest limit. */
  function PerSession(hourly: int, sec: int): int {
    if hourly * sec <= 0 then MICRO else Min(CeilDiv(hourly * sec, 3600 * MICRO) * MICRO, MAX_LIMIT)
  }

  lemma CeilOfCeil(a: nat, m: int, n: int)
    requires m > 0 && n > 0
    ensures CeilDiv(CeilDiv(a, m), n) == CeilDiv(a, m * n)
  {
    MulPositive(m, n);
    var x, y := CeilDiv(CeilDiv(a, m), n), CeilDiv(a, m * n);
    CeilIsLeast(CeilDiv(a, m), n, x);
    CeilIsLeast(a, m, x * n);
    assert x * n * m == x * (m * n);
    CeilIsLeast(a, m * n, x);
    CeilIsLeast(a, m * n, y);
    assert y * n * m == y * (m * n);
    CeilIsLeast(a, m, y * n);
    CeilIsLeast(CeilDiv(a, m), n, y);
  }

  lemma QuoIsCeil(a: nat, den: int)
    requires den > 0
    ensures OpenErrors.Quo(a + den - 1, den) == CeilDiv(a, den)
  {
    var q, m := a / den, a % den;
    if m == 0 {
      assert a + den - 1 == q * den + (den - 1);
      DivIs(a + den - 1, den, q, den - 1);
    } else {
      assert a + den - 1 == (q + 1) * den + (m - 1);
      DivIs(a + den - 1, den, q + 1, m - 1);
    }
  }

  lemma DivIs(a: nat, den: int, q: int, r: int)
    requires den > 0 && a == q * den + r && 0 <= r < den
    ensures a / den == q
  {
    var q', r' := a / den, a % den;
    assert a == q' * den + r';
    assert (q + 1) * den == q * den + den && (q' + 1) * den == q' * den + den;
    if q < q' {
      MulMonotone(q + 1, q', den);
    } else if q' < q {
      MulMonotone(q' + 1, q, den);
    }
  }

  /** The per-session cap an hourly one means. The two round-ups are one, and the result may always be saved. */
  method PerSessionFromHourly(hourly: int, sec: int) returns (w: int)
    ensures w == PerSession(hourly, sec)
    ensures Settable(w)
  {
    w := hourly * sec;
    w := OpenErrors.Quo(w + 3600 - 1, 3600);
    w := OpenErrors.Quo(w + (MICRO - 1), MICRO) * MICRO;
    if hourly * sec > 0 {
      QuoIsCeil(hourly * sec, 3600);
      QuoIsCeil(CeilDiv(hourly * sec, 3600), MICRO);
      CeilOfCeil(hourly * sec, 3600, MICRO);
      CeilIsLeast(hourly * sec, 3600 * MICRO, 0);
    }
    if w <= 0 {
      w := MICRO;
    }
    if w > MAX_LIMIT {
      w := MAX_LIMIT;
    }
    SettablePerSession(hourly, sec);
  }

  lemma SettablePerSession(hourly: int, sec: int)
    ensures Settable(PerSession(hourly, sec))
  {
    if hourly * sec > 0 {
      CeilIsLeast(hourly * sec, 3600 * MICRO, 0);
    }
  }

  /** Below the highest limit the converted cap is the least whole micro-MOR amount that pays for the hourly rate. */
  lemma PerSessionIsLeast(hourly: int, sec: int, micros: int)
    requires hourly * sec > 0 && PerSession(hourly, sec) < MAX_LIMIT
    ensures hourly * sec <= micros * MICRO * 3600 <==> PerSession(hourly, sec) <= micros * MICRO
  {
    CeilIsLeast(hourly * sec, 3600 * MICRO, micros);
    assert micros * (3600 * MICRO) == micros * MICRO * 3600;
  }

  /** It is the highest limit only for a rate that asks for more than the micro-MOR below it, and the least for none. */
  lemma PerSessionAtLimits(hourly: int, sec: int)
    ensures hourly * sec <= 0 ==> PerSession(hourly, sec) == MICRO
    ensures PerSession(hourly, sec) == MAX_LIMIT ==> hourly * sec > (MAX_LIMIT - MICRO) * 3600
  {
    if hourly * sec > 0 {
      CeilIsLeast(hourly * sec, 3600 * MICRO, MAX_LIMIT / MICRO - 1);
    }
  }

  datatype Setting = Setting(text: string, limit: Limit)

  function Set(text: string): Setting {
    Setting(text, ParseMorLimit(text))
  }

  const DEFAULT_HOURLY: int := 150 * MOR

  /** The cap at boot. saved: the setting's own value; hourly: the former setting's. save: what to persist, if anything. */
  method ResolveStakeCap(saved: Option<string>, hourly: Option<string>, sec: int) returns (s: Setting, save: Option<string>)
    ensures saved.Some? ==> s == Set(saved.value) && save.None?
    ensures saved.None? && hourly.None? ==> save.None? && s.limit == Cap(PerSession(DEFAULT_HOURLY, sec))
    ensures saved.None? && hourly.Some? ==> save.Some? && s == Set(save.value)
    ensures saved.None? && hourly.Some? ==> s.limit == (match ParseMorLimit(hourly.value)
      case Off => Off
      case Invalid => Invalid
      case Cap(rate) => Cap(PerSession(rate, sec)))
  {
    if saved.Some? {
      return Set(saved.value), None;
    }
    hide ParseMorLimit, FormatMorLimit;
    if hourly.None? {
      var w := PerSessionFromHourly(DEFAULT_HOURLY, sec);
      RoundTrip(w);
      return Set(FormatMorLimit(w)), None;
    }
    var v := TrimSpace(hourly.value);
    TrimmedParses(hourly.value);
    var rate := ParseMorLimit(v);
    if rate.Cap? {
      var w := PerSessionFromHourly(rate.wei, sec);
      RoundTrip(w);
      v := FormatMorLimit(w);
    }
    return Set(v), Some(v);
  }

  lemma TrimmedParses(s: string)
    ensures ParseMorLimit(TrimSpace(s)) == ParseMorLimit(s)
  {
    var t := TrimSpace(s);
    assert TrimSpace(t) == t;
  }

  // The amount a refusal shows.

  function Split(num: nat, unit: nat, dp: nat): string
    requires unit > 0
  {
    Digits(num / unit) + "." + LeftPad(Digits(num % unit), dp)
  }

  /** num / 10^dp with dp decimals. */
  function Fixed(num: nat, dp: nat): string
    requires Pow10(dp) > 0
  {
    Split(num, Pow10(dp), dp)
  }

  function CeilFixed(wei: nat, dp: nat): string
    requires Pow10(dp) > 0
  {
    Fixed(CeilDiv(wei * Pow10(dp), MOR), dp)
  }

  /** MOR with 2 decimals, or 6 below 0.01, rounded up. */
  function FormatMor(wei: Option<nat>): string {
    Pow10Values();
    if wei.None? then "?"
    else if wei.value * 100 < MOR then CeilFixed(wei.value, 6)
    else CeilFixed(wei.value, 2)
  }

  lemma FixedReadsBack(num: nat, dp: nat)
    requires 0 < dp <= 6 && Pow10(dp) > 0
    ensures var s := Fixed(num, dp);
      WellFormed(s) && s != "" && TrimSpace(s) == s && WeiOf(s) == num * Pow10(18 - dp)
  {
    hide Value, Digits, LeftPad, WellFormed, TrimSpace, WeiOf, Pow10;
    var p := Pow10(dp);
    var q, r := num / p, num % p;
    DigitsFit(r, dp);
    PadKeepsValue(Digits(r), dp);
    ValueOfDigits(r);
    ReadsBack(q, LeftPad(Digits(r), dp));
    Pow10Adds(dp, 18 - dp);
    Pow10Values();
    assert num == q * p + r;
    assert (q * p + r) * Pow10(18 - dp) == q * (p * Pow10(18 - dp)) + r * Pow10(18 - dp);
  }

  lemma CeilFixedIsUp(wei: nat, dp: nat, unit: int)
    requires 0 < dp <= 6 && Pow10(dp) > 0 && unit == Pow10(18 - dp)
    ensures var n := CeilDiv(wei * Pow10(dp), MOR) * unit; wei <= n < wei + unit
  {
    hide Pow10, CeilDiv;
    var p := Pow10(dp);
    Pow10Adds(dp, 18 - dp);
    Pow10Values();
    assert p * unit == MOR && unit > 0;
    var q := CeilDiv(wei * p, MOR);
    CeilIsLeast(wei * p, MOR, q);
    CeilIsLeast(wei * p, MOR, q - 1);
    assert q * MOR == q * unit * p && (q - 1) * MOR == (q - 1) * unit * p;
    OrderByFactor(wei, q * unit, p);
    OrderByFactor(wei, (q - 1) * unit, p);
    assert (q - 1) * unit == q * unit - unit;
  }

  lemma OrderByFactor(a: int, b: int, p: int)
    requires p > 0
    ensures a * p <= b * p <==> a <= b
  {
    if a <= b {
      MulMonotone(a, b, p);
    } else {
      MulMonotone(b + 1, a, p);
      assert (b + 1) * p == b * p + p;
    }
  }

  /**
   The stake a refusal shows is never below what is needed and less than a display unit above it. Saved as the new cap
   it lets that stake pass.
   */
  lemma ShownNeedPasses(wei: nat)
    requires 0 < wei <= MAX_LIMIT
    ensures ParseMorLimit(FormatMor(Some(wei))).Cap?
    ensures var cap := ParseMorLimit(FormatMor(Some(wei))).wei;
      wei <= cap < wei + if wei * 100 < MOR then MICRO else 10_000 * MICRO
  {
    hide WellFormed, TrimSpace, WeiOf, Pow10, Fixed;
    Pow10Values();
    var dp, unit := if wei * 100 < MOR then 6 else 2, if wei * 100 < MOR then MICRO else 10_000 * MICRO;
    var n := CeilDiv(wei * Pow10(dp), MOR);
    FixedReadsBack(n, dp);
    CeilFixedIsUp(wei, dp, unit);
    assert n * unit <= MAX_LIMIT;
  }
}
