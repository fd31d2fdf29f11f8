/**
 Quota arithmetic: conversions that saturate to the 32-bit range instead of wrapping, and the settlement formula built
 on them.  Finite floats are exact reals here; NaN and the infinities are kept.
 */
module Quota {
  import opened Prelude

  const MAX_QUOTA := 0x7FFF_FFFF
  const MIN_QUOTA := -0x8000_0000

  datatype ClampKind = Overflow | Underflow | NotANumber

  datatype Clamp = Clamp(op: string, kind: ClampKind, clamped: int)

  /** Go's conversion of a float to an integer: toward zero. */
  function Trunc(x: real): int {
    if x >= 0.0 then x.Floor else -((-x).Floor)
  }

  /** `math.Round`: to the nearest integer, halves away from zero. */
  function RoundReal(x: real): int {
    if x >= 0.0 then (x + 0.5).Floor else -((-x + 0.5).Floor)
  }

  function Round(v: Float): Float {
    if v.Finite? then Finite(RoundReal(v.value) as real) else v
  }

  /** `saturateQuota`. */
  function Saturate(v: Float, op: string): (int, Option<Clamp>) {
    match v
    case NaN => (0, Some(Clamp(op, NotANumber, 0)))
    case PosInf => (MAX_QUOTA, Some(Clamp(op, Overflow, MAX_QUOTA)))
    case NegInf => (MIN_QUOTA, Some(Clamp(op, Underflow, MIN_QUOTA)))
    case Finite(x) =>
      if x >= MAX_QUOTA as real then (MAX_QUOTA, Some(Clamp(op, Overflow, MAX_QUOTA)))
      else if x <= MIN_QUOTA as real then (MIN_QUOTA, Some(Clamp(op, Underflow, MIN_QUOTA)))
      else (Trunc(x), None)
  }

  function FromFloatChecked(v: Float): (int, Option<Clamp>) {
    Saturate(v, "QuotaFromFloat")
  }

  function RoundChecked(v: Float): (int, Option<Clamp>) {
    Saturate(Round(v), "QuotaRound")
  }

  /** `strictQuota`. */
  function Strict(r: (int, Option<Clamp>)): Result<int, Clamp> {
    if r.1.Some? then Err(r.1.value) else Ok(r.0)
  }

  // ----- The conversions

  /** The nearest integer, halves away from zero: of two equally near integers the one with the larger magnitude. */
  lemma RoundIsNearest(x: real)
    ensures x >= 0.0 ==> -0.5 < RoundReal(x) as real - x <= 0.5
    ensures x <= 0.0 ==> -0.5 <= RoundReal(x) as real - x < 0.5
    ensures RoundReal(-x) == -RoundReal(x)
  {
  }

  /** The integer of the 32-bit range that is nearest to the given one. */
  function Nearest(n: int): int {
    if n < MIN_QUOTA then MIN_QUOTA else if n > MAX_QUOTA then MAX_QUOTA else n
  }

  lemma RoundIsMonotone(x: real, y: real)
    requires x <= y
    ensures RoundReal(x) <= RoundReal(y)
  {
  }

  /**
   The strict conversions fail exactly when the checked ones report a clamp, which is exactly when the converted value
   is not a number strictly inside the 32-bit range; otherwise they return the nearest integer.
   */
  lemma RoundStrictIff(v: Float)
    ensures Strict(RoundChecked(v)).Err? <==> RoundChecked(v).1.Some?
    ensures Strict(RoundChecked(v)).Ok? <==> v.Finite? && MIN_QUOTA < RoundReal(v.value) < MAX_QUOTA
    ensures Strict(RoundChecked(v)).Ok? ==> Strict(RoundChecked(v)) == Ok(RoundReal(v.value))
    ensures MIN_QUOTA <= RoundChecked(v).0 <= MAX_QUOTA
    ensures v.Finite? ==> RoundChecked(v).0 == Nearest(RoundReal(v.value))
  {
  }

  lemma FromFloatStrictIff(v: Float)
    ensures Strict(FromFloatChecked(v)).Err? <==> FromFloatChecked(v).1.Some?
    ensures Strict(FromFloatChecked(v)).Ok? <==> v.Finite? && MIN_QUOTA as real < v.value < MAX_QUOTA as real
    ensures Strict(FromFloatChecked(v)).Ok? ==>
              var q := Strict(FromFloatChecked(v)).value as real;
              if v.value >= 0.0 then v.value - 1.0 < q <= v.value else v.value <= q < v.value + 1.0
    ensures MIN_QUOTA <= FromFloatChecked(v).0 <= MAX_QUOTA
  {
  }

  /** Rounding and saturating together never reverse an order: a larger charge never becomes a smaller one. */
  lemma RoundCheckedIsMonotone(x: real, y: real)
    requires x <= y
    ensures RoundChecked(Finite(x)).0 <= RoundChecked(Finite(y)).0
    ensures RoundChecked(Finite(x)).1.Some? && RoundChecked(Finite(x)).1.value.kind.Overflow? ==> RoundChecked(Finite(y)).1.Some?
    ensures RoundChecked(Finite(y)).1.Some? && RoundChecked(Finite(y)).1.value.kind.Underflow? ==> RoundChecked(Finite(x)).1.Some?
  {
    RoundIsMonotone(x, y);
  }

  // ----- Settlement

  datatype PriceData = PriceData(usePrice: bool, modelPrice: real, modelRatio: real, completionRatio: real)

  /** A product of two floats, taken exactly. */
  function Times(a: real, b: real): real {
    a * b
  }

  function CompletionQuota(p: PriceData, completionTokens: int): (int, Option<Clamp>) {
    RoundChecked(Finite(Times(completionTokens as real, p.completionRatio)))
  }

  function Amount(p: PriceData, promptTokens: int, completionTokens: int): real {
    Times(promptTokens as real + CompletionQuota(p, completionTokens).0 as real, p.modelRatio)
  }

  /** What is charged for an amount: at least one for a non-zero ratio, unless it was clamped. */
  function Charge(amount: real, ratio: real): int {
    var (quota, clamp) := RoundChecked(Finite(amount));
    if clamp.None? && ratio != 0.0 && quota <= 0 then 1 else quota
  }

  /** The ratio branch. */
  function SettleByRatio(p: PriceData, promptTokens: int, completionTokens: int): int {
    Charge(Amount(p, promptTokens, completionTokens), p.modelRatio)
  }

  function SettleByPrice(p: PriceData, quotaPerUnit: real): (int, Option<Clamp>) {
    FromFloatChecked(Finite(Times(p.modelPrice, quotaPerUnit)))
  }

  function FirstOf<T>(a: Option<T>, b: Option<T>): Option<T> {
    if a.Some? then a else b
  }

  /** The clamp a settlement reports. */
  function ClampOf(p: PriceData, promptTokens: int, completionTokens: int, quotaPerUnit: real): Option<Clamp> {
    if p.usePrice then SettleByPrice(p, quotaPerUnit).1
    else FirstOf(CompletionQuota(p, completionTokens).1, RoundChecked(Finite(Amount(p, promptTokens, completionTokens))).1)
  }

  class RelayInfo {
    var quotaClamp: Option<Clamp>

    constructor ()
      ensures quotaClamp == None
    {
      quotaClamp := None;
    }
  }

  /** `settleTestQuota` without tiered billing: the first clamp of the request is the one recorded. */
  method SettleTestQuota(info: RelayInfo?, p: PriceData, promptTokens: int, completionTokens: int, quotaPerUnit: real)
    returns (quota: int)
    modifies if info != null then {info} else {}
    ensures quota == if p.usePrice then SettleByPrice(p, quotaPerUnit).0 else SettleByRatio(p, promptTokens, completionTokens)
    ensures info != null ==>
              info.quotaClamp == FirstOf(old(info.quotaClamp), ClampOf(p, promptTokens, completionTokens, quotaPerUnit))
  {
    hide RoundChecked, FromFloatChecked, Times;
    if !p.usePrice {
      var (completionQuota, completionClamp) := RoundChecked(Finite(Times(completionTokens as real, p.completionRatio)));
      if info != null && info.quotaClamp.None? && completionClamp.Some? {
        info.quotaClamp := completionClamp;
      }
      var (q, ratioClamp) := RoundChecked(Finite(Times(promptTokens as real + completionQuota as real, p.modelRatio)));
      if info != null && info.quotaClamp.None? && ratioClamp.Some? {
        info.quotaClamp := ratioClamp;
      }
      quota := q;
      if ratioClamp.None? && p.modelRatio != 0.0 && quota <= 0 {
        quota := 1;
      }
      return;
    }
    var (q, clamp) := FromFloatChecked(Finite(Times(p.modelPrice, quotaPerUnit)));
    if info != null && info.quotaClamp.None? && clamp.Some? {
      info.quotaClamp := clamp;
    }
    quota := q;
  }

  lemma ScaleIsMonotone(x: real, y: real, k: real)
    requires x <= y && k >= 0.0
    ensures Times(x, k) <= Times(y, k)
  {
  }

  /** For fixed non-negative ratios the settled quota never decreases when either token count grows. */
  lemma SettlementIsMonotone(p: PriceData, prompt: int, prompt': int, completion: int, completion': int)
    requires p.modelRatio >= 0.0 && p.completionRatio >= 0.0
    requires prompt <= prompt' && completion <= completion'
    ensures SettleByRatio(p, prompt, completion) <= SettleByRatio(p, prompt', completion')
  {
    hide RoundChecked, Times;
    ScaleIsMonotone(completion as real, completion' as real, p.completionRatio);
    RoundCheckedIsMonotone(Times(completion as real, p.completionRatio), Times(completion' as real, p.completionRatio));
    var x := prompt as real + CompletionQuota(p, completion).0 as real;
    var y := prompt' as real + CompletionQuota(p, completion').0 as real;
    ScaleIsMonotone(x, y, p.modelRatio);
    ChargeIsMonotone(Times(x, p.modelRatio), Times(y, p.modelRatio), p.modelRatio);
  }

  lemma ChargeIsMonotone(x: real, y: real, ratio: real)
    requires x <= y
    ensures Charge(x, ratio) <= Charge(y, ratio)
  {
    RoundCheckedIsMonotone(x, y);
    RoundStrictIff(Finite(x));
    RoundStrictIff(Finite(y));
  }

  lemma ChargeIsPositiveIff(x: real, ratio: real)
    requires ratio != 0.0
    ensures 1 <= Charge(x, ratio) <= MAX_QUOTA <==> RoundReal(x) > MIN_QUOTA
  {
    RoundStrictIff(Finite(x));
  }

  /** With a positive model ratio and non-negative inputs every request is charged, and never more than the largest quota. */
  lemma SettlementIsPositive(p: PriceData, prompt: nat, completion: nat)
    requires p.modelRatio > 0.0 && p.completionRatio >= 0.0
    ensures 1 <= SettleByRatio(p, prompt, completion) <= MAX_QUOTA
  {
    ScaleIsMonotone(0.0, completion as real, p.completionRatio);
    var x := prompt as real + CompletionQuota(p, completion).0 as real;
    ScaleIsMonotone(0.0, x, p.modelRatio);
    RoundStrictIff(Finite(Times(x, p.modelRatio)));
  }

  /** In general, with a non-zero ratio the settled quota is positive if and only if the charge did not underflow. */
  lemma SettlementIsPositiveIff(p: PriceData, prompt: int, completion: int)
    requires p.modelRatio != 0.0
    ensures 1 <= SettleByRatio(p, prompt, completion) <= MAX_QUOTA
       <==> RoundReal(Times(prompt as real + CompletionQuota(p, completion).0 as real, p.modelRatio)) > MIN_QUOTA
  {
    hide RoundChecked, Times;
    ChargeIsPositiveIff(Times(prompt as real + CompletionQuota(p, completion).0 as real, p.modelRatio), p.modelRatio);
  }
  // ----- The amounts, in numbers

  /** Rounding with saturation: the nearest integer, halves away from zero, or the end of the 32-bit range it reaches. */
  lemma RoundCheckedMeans(x: real)
    ensures var (q, clamp) := RoundChecked(Finite(x));
            && (x >= 2147483646.5 ==> q == 2147483647 && clamp == Some(Clamp("QuotaRound", Overflow, 2147483647)))
            && (x <= -2147483647.5 ==> q == -2147483648 && clamp == Some(Clamp("QuotaRound", Underflow, -2147483648)))
            && (-2147483647.5 < x < 2147483646.5 ==> clamp == None)
            && (0.0 <= x < 2147483646.5 ==> x - 0.5 < q as real <= x + 0.5)
            && (-2147483647.5 < x <= 0.0 ==> x - 0.5 <= q as real < x + 0.5)
  {
    RoundIsNearest(x);
    TruncOfInt(RoundReal(x));
    hide RoundReal, Trunc;
  }

  lemma TruncOfInt(n: int)
    ensures Trunc(n as real) == n
  {
  }

  /** Truncation with saturation. */
  lemma FromFloatCheckedMeans(x: real)
    ensures var (q, clamp) := FromFloatChecked(Finite(x));
            && (x >= 2147483647.0 ==> q == 2147483647 && clamp == Some(Clamp("QuotaFromFloat", Overflow, 2147483647)))
            && (x <= -2147483648.0 ==> q == -2147483648 && clamp == Some(Clamp("QuotaFromFloat", Underflow, -2147483648)))
            && (-2147483648.0 < x < 2147483647.0 ==> clamp == None)
            && (0.0 <= x < 2147483647.0 ==> x - 1.0 < q as real <= x)
            && (-2147483648.0 < x <= 0.0 ==> x <= q as real < x + 1.0)
  {
  }

  /** Without a finite value: nothing for NaN, the ends of the range for the infinities. */
  lemma NotFiniteMeans()
    ensures RoundChecked(NaN) == (0, Some(Clamp("QuotaRound", NotANumber, 0)))
    ensures RoundChecked(PosInf) == (2147483647, Some(Clamp("QuotaRound", Overflow, 2147483647)))
    ensures RoundChecked(NegInf) == (-2147483648, Some(Clamp("QuotaRound", Underflow, -2147483648)))
    ensures FromFloatChecked(NaN) == (0, Some(Clamp("QuotaFromFloat", NotANumber, 0)))
    ensures FromFloatChecked(PosInf) == (2147483647, Some(Clamp("QuotaFromFloat", Overflow, 2147483647)))
    ensures FromFloatChecked(NegInf) == (-2147483648, Some(Clamp("QuotaFromFloat", Underflow, -2147483648)))
  {
  }

  /** The completion part is tokens times ratio, rounded. */
  lemma CompletionQuotaMeans(p: PriceData, completion: int)
    ensures var exact := completion as real * p.completionRatio;
            var q := CompletionQuota(p, completion).0;
            && (0.0 <= exact < 2147483646.5 ==> exact - 0.5 < q as real <= exact + 0.5)
            && (-2147483647.5 < exact <= 0.0 ==> exact - 0.5 <= q as real < exact + 0.5)
            && (exact >= 2147483646.5 ==> q == 2147483647) && (exact <= -2147483647.5 ==> q == -2147483648)
  {
    TimesIs(completion as real, p.completionRatio);
    hide RoundChecked, Times;
    RoundCheckedMeans(completion as real * p.completionRatio);
  }

  /**
   What a request costs by ratio: prompt tokens plus the completion part, times the model ratio, rounded; one if that is
   less than a half and the ratio is not zero; and an end of the 32-bit range beyond it.
   */
  lemma SettleByRatioMeans(p: PriceData, prompt: int, completion: int)
    ensures Amount(p, prompt, completion) == (prompt as real + CompletionQuota(p, completion).0 as real) * p.modelRatio
    ensures var exact, quota := Amount(p, prompt, completion), SettleByRatio(p, prompt, completion);
            && (0.5 <= exact < 2147483646.5 ==> exact - 0.5 < quota as real <= exact + 0.5)
            && (-2147483647.5 < exact < 0.5 ==> quota == if p.modelRatio == 0.0 then 0 else 1)
            && (exact >= 2147483646.5 ==> quota == 2147483647) && (exact <= -2147483647.5 ==> quota == -2147483648)
  {
    hide CompletionQuota, Times, Charge;
    var tokens := prompt as real + CompletionQuota(p, completion).0 as real;
    TimesIs(tokens, p.modelRatio);
    ChargeMeans(Times(tokens, p.modelRatio), p.modelRatio);
    if p.modelRatio == 0.0 {
      ZeroTimes(tokens);
    }
  }

  lemma ChargeMeans(exact: real, ratio: real)
    ensures 0.5 <= exact < 2147483646.5 ==> exact - 0.5 < Charge(exact, ratio) as real <= exact + 0.5
    ensures -2147483647.5 < exact < 0.5 && ratio != 0.0 ==> Charge(exact, ratio) == 1
    ensures ratio == 0.0 ==> Charge(0.0, ratio) == 0
    ensures exact >= 2147483646.5 ==> Charge(exact, ratio) == 2147483647
    ensures exact <= -2147483647.5 ==> Charge(exact, ratio) == -2147483648
  {
    RoundCheckedMeans(exact);
    RoundCheckedMeans(0.0);
    hide RoundChecked;
  }

  lemma TimesIs(a: real, b: real)
    ensures Times(a, b) == a * b
  {
  }

  lemma ZeroTimes(x: real)
    ensures x * 0.0 == 0.0
  {
  }

  /** What a request costs by price: price times quota per unit, cut off to an integer. */
  lemma SettleByPriceMeans(p: PriceData, quotaPerUnit: real)
    ensures var exact := p.modelPrice * quotaPerUnit;
            var quota := SettleByPrice(p, quotaPerUnit).0;
            && (0.0 <= exact < 2147483647.0 ==> exact - 1.0 < quota as real <= exact)
            && (-2147483648.0 < exact <= 0.0 ==> exact <= quota as real < exact + 1.0)
            && (exact >= 2147483647.0 ==> quota == 2147483647) && (exact <= -2147483648.0 ==> quota == -2147483648)
  {
    TimesIs(p.modelPrice, quotaPerUnit);
    hide FromFloatChecked, Times;
    FromFloatCheckedMeans(p.modelPrice * quotaPerUnit);
  }

  /** The clamp recorded for a request: an earlier one stays, then the completion's, then the total's. */
  lemma ClampOfMeans(p: PriceData, prompt: int, completion: int, quotaPerUnit: real)
    ensures var clamp := ClampOf(p, prompt, completion, quotaPerUnit);
            && (!p.usePrice ==>
                  var part := RoundChecked(Finite(completion as real * p.completionRatio)).1;
                  clamp == if part != None then part else RoundChecked(Finite(Amount(p, prompt, completion))).1)
            && (p.usePrice ==> clamp == FromFloatChecked(Finite(p.modelPrice * quotaPerUnit)).1)
    ensures Amount(p, prompt, completion) == (prompt as real + CompletionQuota(p, completion).0 as real) * p.modelRatio
    ensures forall a: Option<Clamp>, b :: FirstOf(a, b) == if a != None then a else b
  {
    hide RoundChecked, FromFloatChecked, Times;
    TimesIs(completion as real, p.completionRatio);
    TimesIs(prompt as real + CompletionQuota(p, completion).0 as real, p.modelRatio);
    TimesIs(p.modelPrice, quotaPerUnit);
  }
}
