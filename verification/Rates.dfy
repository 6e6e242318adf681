/** Credit arithmetic: saturating `i64` products and truncating division. */
module Rates {
  import opened Common

  datatype UsageTokens = UsageTokens(promptTokens: int, completionTokens: int)

  function SaturatingMul(x: int, y: int): int {
    if x * y > I64_MAX then I64_MAX else if x * y < I64_MIN then I64_MIN else x * y
  }

  function ComputeCredits(usage: UsageTokens, inputRate: int, outputRate: int): int {
    Quotient(SaturatingMul(usage.promptTokens, inputRate), 1000)
    + Quotient(SaturatingMul(usage.completionTokens, outputRate), 1000)
  }

  /** Neither product saturates. */
  ghost predicate Unsaturated(usage: UsageTokens, inputRate: int, outputRate: int) {
    IsI64(usage.promptTokens * inputRate) && IsI64(usage.completionTokens * outputRate)
  }

  /** No input can overflow: the sum of the two quotients is always an `i64`, and far inside. */
  lemma CreditsFit(usage: UsageTokens, inputRate: int, outputRate: int)
    ensures IsI64(ComputeCredits(usage, inputRate, outputRate))
    ensures -(I64_MAX / 500) <= ComputeCredits(usage, inputRate, outputRate) <= I64_MAX / 500
  {
  }

  /** `n` thousandths, rounded towards zero. */
  ghost predicate Truncates(credits: int, n: int) {
    if 0 <= n then 1000 * credits <= n < 1000 * (credits + 1) else 1000 * (credits - 1) < n <= 1000 * credits
  }

  /** The `i64` nearest to `x`. */
  ghost predicate Nearest(n: int, x: int) {
    IsI64(n) && (n < x ==> n == I64_MAX) && (x < n ==> n == I64_MIN)
  }

  /** One kind of token at its rate: the product, clamped to an `i64`, and its thousandths rounded towards zero. */
  ghost predicate IsShare(credits: int, tokens: int, rate: int) {
    exists n :: Nearest(n, tokens * rate) && Truncates(credits, n)
  }

  lemma ShareIff(tokens: int, rate: int, credits: int)
    ensures IsShare(credits, tokens, rate) <==> credits == Quotient(SaturatingMul(tokens, rate), 1000)
  {
    var n := SaturatingMul(tokens, rate);
    assert Nearest(n, tokens * rate);
    if IsShare(credits, tokens, rate) {
      var m :| Nearest(m, tokens * rate) && Truncates(credits, m);
      assert m == n;
    }
  }

  /** The credits for both kinds, each rounded by itself, whatever the counts and rates. */
  ghost predicate IsPrice(credits: int, prompt: int, completion: int, inputRate: int, outputRate: int) {
    exists i, o :: IsShare(i, prompt, inputRate) && IsShare(o, completion, outputRate) && credits == i + o
  }

  /** What is computed is the price, each share rounded by itself, and nothing else is. */
  lemma PriceIff(usage: UsageTokens, inputRate: int, outputRate: int, credits: int)
    ensures IsPrice(credits, usage.promptTokens, usage.completionTokens, inputRate, outputRate)
       <==> credits == ComputeCredits(usage, inputRate, outputRate)
  {
    var (prompt, completion) := (usage.promptTokens, usage.completionTokens);
    ShareIff(prompt, inputRate, Quotient(SaturatingMul(prompt, inputRate), 1000));
    ShareIff(completion, outputRate, Quotient(SaturatingMul(completion, outputRate), 1000));
    if IsPrice(credits, prompt, completion, inputRate, outputRate) {
      var i, o :| IsShare(i, prompt, inputRate) && IsShare(o, completion, outputRate) && credits == i + o;
      ShareIff(prompt, inputRate, i);
      ShareIff(completion, outputRate, o);
    }
  }

  /** The exact cost of a usage whose products fit is never exceeded, and missed by less than two credits. */
  lemma PriceIsClose(credits: int, prompt: nat, completion: nat, inputRate: nat, outputRate: nat)
    requires IsI64(prompt * inputRate) && IsI64(completion * outputRate)
    requires IsPrice(credits, prompt, completion, inputRate, outputRate)
    ensures 0 <= prompt * inputRate + completion * outputRate - 1000 * credits <= 1998
  {
    PriceIff(UsageTokens(prompt, completion), inputRate, outputRate, credits);
    UnderchargesByLessThanTwo(UsageTokens(prompt, completion), inputRate, outputRate);
  }

  lemma SaturatingMulMonotone(x: int, x': int, rate: int)
    requires x <= x' && 0 <= rate
    ensures SaturatingMul(x, rate) <= SaturatingMul(x', rate)
  {
    assert x' * rate - x * rate == (x' - x) * rate;
    assert 0 <= (x' - x) * rate;
  }

  /** More tokens never cost less, saturated or not. */
  lemma CreditsMonotone(usage: UsageTokens, more: UsageTokens, inputRate: int, outputRate: int)
    requires 0 <= inputRate && 0 <= outputRate
    requires usage.promptTokens <= more.promptTokens && usage.completionTokens <= more.completionTokens
    ensures ComputeCredits(usage, inputRate, outputRate) <= ComputeCredits(more, inputRate, outputRate)
  {
    SaturatingMulMonotone(usage.promptTokens, more.promptTokens, inputRate);
    SaturatingMulMonotone(usage.completionTokens, more.completionTokens, outputRate);
  }

  /** The exact cost is never exceeded, and missed by less than two credits. */
  lemma UnderchargesByLessThanTwo(usage: UsageTokens, inputRate: nat, outputRate: nat)
    requires 0 <= usage.promptTokens && 0 <= usage.completionTokens && Unsaturated(usage, inputRate, outputRate)
    ensures var exact := usage.promptTokens * inputRate + usage.completionTokens * outputRate;
            0 <= exact - 1000 * ComputeCredits(usage, inputRate, outputRate) <= 1998
  {
    MulNonNegative(usage.promptTokens, inputRate);
    MulNonNegative(usage.completionTokens, outputRate);
  }

  lemma MulNonNegative(x: nat, y: nat)
    ensures 0 <= x * y
  {
  }

  function Plus(u: UsageTokens, v: UsageTokens): UsageTokens {
    UsageTokens(u.promptTokens + v.promptTokens, u.completionTokens + v.completionTokens)
  }

  lemma SplitQuotient(x: nat, y: nat)
    ensures Quotient(x, 1000) + Quotient(y, 1000) <= Quotient(x + y, 1000) <= Quotient(x, 1000) + Quotient(y, 1000) + 1
  {
  }

  /** Billing one usage as two requests never costs more, and at most two credits less. */
  lemma SplittingCostsAtMostTwo(u: UsageTokens, v: UsageTokens, inputRate: nat, outputRate: nat)
    requires 0 <= u.promptTokens && 0 <= u.completionTokens && 0 <= v.promptTokens && 0 <= v.completionTokens
    requires Unsaturated(Plus(u, v), inputRate, outputRate)
    ensures var apart := ComputeCredits(u, inputRate, outputRate) + ComputeCredits(v, inputRate, outputRate);
            apart <= ComputeCredits(Plus(u, v), inputRate, outputRate) <= apart + 2
  {
    var p, q := u.promptTokens * inputRate, v.promptTokens * inputRate;
    var c, d := u.completionTokens * outputRate, v.completionTokens * outputRate;
    MulNonNegative(u.promptTokens, inputRate);
    MulNonNegative(v.promptTokens, inputRate);
    MulNonNegative(u.completionTokens, outputRate);
    MulNonNegative(v.completionTokens, outputRate);
    assert Plus(u, v).promptTokens * inputRate == p + q;
    assert Plus(u, v).completionTokens * outputRate == c + d;
    SplitQuotient(p, q);
    SplitQuotient(c, d);
  }
}
