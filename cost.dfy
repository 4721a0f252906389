/// The hour counting and pricing of a rental: billed and overtime hours at
/// completion, the membership-discounted rate, the undiscounted overtime
/// surcharge, and the standalone estimate. Timestamps are whole seconds on one
/// clock; money is an exact `real`.
module Cost {

  const SecondsPerHour: int := 3600

  /** Whole hours in a duration of `d` seconds, truncated toward zero, as Go's
      `int(d.Hours())` gives them. */
  function TruncatedHours(d: int): (h: int)
    ensures 0 <= d ==> 0 <= h && h * 3600 <= d < h * 3600 + 3600
    ensures d < 0 ==> h <= 0 && -d < -h * 3600 + 3600 && -h * 3600 <= -d
  {
    if d >= 0 then d / SecondsPerHour else -((-d) / SecondsPerHour)
  }

  /** Hours billed for a rental scheduled from `start` to `end`: the whole
      hours between them, never negative. */
  function BilledHours(start: int, end: int): (h: nat)
    ensures end <= start ==> h == 0
    ensures start < end ==> h * 3600 <= end - start < h * 3600 + 3600
  {
    var t := TruncatedHours(end - start);
    if t < 0 then 0 else t
  }

  /** Overtime hours when the rental is completed at `now`: the whole hours past
      the scheduled `end`, counted only when `now` is strictly after it. */
  function OvertimeHours(end: int, now: int): (h: nat)
    ensures now <= end ==> h == 0
    ensures end < now ==> h * 3600 <= now - end < h * 3600 + 3600
  {
    if now > end then TruncatedHours(now - end) else 0
  }

  /** The hourly rate after a membership discount of `discountPct` percent. */
  function DiscountedRate(costPerHour: real, discountPct: int): (r: real)
    ensures discountPct == 0 ==> r == costPerHour
    ensures discountPct == 100 ==> r == 0.0
    ensures 0.0 <= costPerHour && 0 <= discountPct <= 100 ==> 0.0 <= r <= costPerHour
  {
    costPerHour * (1.0 - discountPct as real / 100.0)
  }

  /** The hourly rate charged for overtime: one and a half times the base rate. */
  function OvertimeRate(costPerHour: real): (r: real)
    ensures r - costPerHour == costPerHour / 2.0
    ensures 0.0 <= costPerHour ==> costPerHour <= r
  {
    costPerHour * 1.5
  }

  /** The cost written on the invoice when a rental is completed: the billed
      hours at the discounted rate plus the overtime hours at the overtime
      rate. With a non-negative rate and a discount between 0 and 100 percent
      it lies between nothing and the undiscounted price of both parts. */
  function FinalCost(billed: int, overtime: int, costPerHour: real, discountPct: int): (r: real)
    ensures r == billed as real * DiscountedRate(costPerHour, discountPct)
                 + overtime as real * OvertimeRate(costPerHour)
    ensures 0 <= billed && 0 <= overtime && 0.0 <= costPerHour && 0 <= discountPct <= 100 ==>
              0.0 <= r <= (billed as real + 1.5 * overtime as real) * costPerHour
  {
    billed as real * costPerHour * (1.0 - discountPct as real / 100.0)
      + overtime as real * OvertimeRate(costPerHour)
  }

  /** The pre-booking estimate for `hours` hours: never more than the
      undiscounted price, and negative for negative hours at a positive
      discounted rate. */
  function EstimateTotal(costPerHour: real, discountPct: int, hours: int): (r: real)
    ensures 0 <= hours && 0.0 <= costPerHour && 0 <= discountPct <= 100 ==>
              0.0 <= r <= hours as real * costPerHour
    ensures hours < 0 && 0.0 < costPerHour && discountPct < 100 ==> r < 0.0
  {
    DiscountedRate(costPerHour, discountPct) * hours as real
  }

  /** A rental scheduled for exactly `n` hours is billed `n` hours. */
  lemma BilledWholeHours(start: int, n: nat)
    ensures BilledHours(start, start + n * SecondsPerHour) == n
  {
  }

  /** Booking `h` hours and extending by `k` hours bills `h + k` hours. */
  lemma BookedPlusExtended(start: int, h: nat, k: nat)
    ensures BilledHours(start, (start + h * SecondsPerHour) + k * SecondsPerHour) == h + k
  {
  }

  /** Overtime hours grow with the completion time. */
  lemma OvertimeMonotone(end: int, now: int, later: int)
    requires now <= later
    ensures OvertimeHours(end, now) <= OvertimeHours(end, later)
  {
  }

  /** The worked example: five hours booked, two hours over, rate 10, 20% off. */
  lemma CompletionExample(t: int)
    ensures BilledHours(t, t + 5 * SecondsPerHour) == 5
    ensures OvertimeHours(t + 5 * SecondsPerHour, t + 7 * SecondsPerHour) == 2
    ensures DiscountedRate(10.0, 20) == 8.0 && OvertimeRate(10.0) == 15.0
    ensures FinalCost(5, 2, 10.0, 20) == 70.0
  {
  }

  /** The final cost splits into a discounted booked part and an overtime part
      that no membership discount touches. */
  lemma OvertimeIsNotDiscounted(billed: int, overtime: int, costPerHour: real, p: int, q: int)
    ensures FinalCost(billed, overtime, costPerHour, p)
            == FinalCost(billed, 0, costPerHour, p) + FinalCost(0, overtime, costPerHour, q)
    ensures FinalCost(0, overtime, costPerHour, p) == overtime as real * costPerHour * 1.5
  {
  }

  /** The estimate is linear in the hours and zero for zero hours. */
  lemma EstimateLinear(costPerHour: real, discountPct: int, a: int, b: int)
    ensures EstimateTotal(costPerHour, discountPct, a + b)
            == EstimateTotal(costPerHour, discountPct, a) + EstimateTotal(costPerHour, discountPct, b)
    ensures EstimateTotal(costPerHour, discountPct, 0) == 0.0
  {
  }

  /** The estimate is the booked-hours term of the completion cost, that is, the
      completion cost of a rental returned without overtime. */
  lemma EstimateIsCostWithoutOvertime(costPerHour: real, discountPct: int, hours: int)
    ensures EstimateTotal(costPerHour, discountPct, hours) == FinalCost(hours, 0, costPerHour, discountPct)
  {
  }
}
