/** The stake an open locks, in wei: exact integer arithmetic, rounded up. */
module Stake {
  import opened Basics

  /** The supply and budget of the day, in wei. */
  datatype Inputs = Inputs(supply: int, budget: int)

  /** num / den rounded up. */
  function CeilDiv(num: nat, den: int): nat
    requires den > 0
  {
    var q, m := num / den, num % den;
    if m > 0 then q + 1 else q
  }

  predicate InputsOK(i: Inputs, pps: Option<int>) {
    i.supply > 0 && i.budget > 0 && pps.Some? && pps.value > 0
  }

  /** What a session locks per hour at this price per second; None: not computable. */
  function StMorPerHourWei(i: Inputs, pps: Option<int>): Option<nat> {
    if !InputsOK(i, pps) then None
    else
      MulPositive(i.supply, pps.value);
      MulPositive(i.supply * pps.value, 3600);
      Some(CeilDiv(i.supply * pps.value * 3600, i.budget))
  }

  /** What a session of sec seconds locks. The router counts one second more. */
  function StakeForDurationWei(i: Inputs, pps: Option<int>, sec: int): Option<nat> {
    if !InputsOK(i, pps) || sec <= 0 then None
    else
      MulPositive(i.supply, pps.value);
      MulPositive(i.supply * pps.value, sec + 1);
      Some(CeilDiv(i.supply * pps.value * (sec + 1), i.budget))
  }

  lemma MulPositive(a: int, b: int)
    requires a > 0 && b > 0
    ensures a * b > 0
  {
  }

  lemma MulMonotone(a: int, b: int, c: int)
    requires a <= b && c >= 0
    ensures a * c <= b * c && c * a <= c * b
  {
  }

  /** CeilDiv is the exact ceiling: r reaches num / den just when r is at least it. */
  lemma CeilIsLeast(num: nat, den: int, r: int)
    requires den > 0
    ensures num <= r * den <==> CeilDiv(num, den) <= r
  {
    var q, m := num / den, num % den;
    assert num == q * den + m && 0 <= m < den;
    if r <= q {
      MulMonotone(r, q, den);
    } else {
      MulMonotone(q + 1, r, den);
      assert (q + 1) * den == q * den + den;
    }
  }

  lemma CeilMonotone(a: nat, b: nat, den: int)
    requires den > 0 && a <= b
    ensures CeilDiv(a, den) <= CeilDiv(b, den)
  {
    CeilIsLeast(b, den, CeilDiv(b, den));
    CeilIsLeast(a, den, CeilDiv(b, den));
  }

  /**
   The cap check is exact: a session fits under the cap just when supply × price × (seconds + 1) is at most
   cap × budget, and every session locks something.
   */
  lemma StakeFitsCap(i: Inputs, pps: Option<int>, sec: int, cap: int)
    requires StakeForDurationWei(i, pps, sec).Some?
    ensures StakeForDurationWei(i, pps, sec).value <= cap <==> i.supply * pps.value * (sec + 1) <= cap * i.budget
    ensures StakeForDurationWei(i, pps, sec).value >= 1
  {
    MulPositive(i.supply, pps.value);
    MulPositive(i.supply * pps.value, sec + 1);
    CeilIsLeast(i.supply * pps.value * (sec + 1), i.budget, cap);
    CeilIsLeast(i.supply * pps.value * (sec + 1), i.budget, 0);
  }

  /** A stake can be computed exactly for a price, a supply, a budget and a length above zero. */
  lemma StakeIsComputable(i: Inputs, pps: Option<int>, sec: int)
    ensures StakeForDurationWei(i, pps, sec).Some? <==> i.supply > 0 && i.budget > 0 && pps.Some? && pps.value > 0 && sec > 0
    ensures StMorPerHourWei(i, pps).Some? <==> i.supply > 0 && i.budget > 0 && pps.Some? && pps.value > 0
  {
  }

  /** A dearer or a longer session never locks less. */
  lemma StakeIsMonotone(i: Inputs, p: int, q: int, sec: int, longer: int)
    requires p <= q && sec <= longer && StakeForDurationWei(i, Some(p), sec).Some?
    ensures StakeForDurationWei(i, Some(q), longer).Some?
    ensures StakeForDurationWei(i, Some(p), sec).value <= StakeForDurationWei(i, Some(q), longer).value
    ensures StMorPerHourWei(i, Some(p)).value <= StMorPerHourWei(i, Some(q)).value
  {
    MulMonotone(p, q, i.supply);
    var a, b := i.supply * p, i.supply * q;
    MulPositive(i.supply, p);
    MulPositive(i.supply, q);
    MulMonotone(a, b, sec + 1);
    MulMonotone(sec + 1, longer + 1, b);
    MulMonotone(a, b, 3600);
    CeilMonotone(a * (sec + 1), b * (longer + 1), i.budget);
    CeilMonotone(a * 3600, b * 3600, i.budget);
  }

  /** The hourly price is what a session one second short of an hour locks. */
  lemma HourlyIsAnHoursStake(i: Inputs, pps: Option<int>)
    ensures StMorPerHourWei(i, pps) == StakeForDurationWei(i, pps, 3599)
  {
  }
}
