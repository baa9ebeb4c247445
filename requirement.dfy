/**
 * The restock calculator: the day count of a period, the safety-stocked target,
 * the shortfall against current stock and the four status levels.
 */
module Requirement {
  import opened Wrappers
  import opened Inventory
  import opened Numbers

  /** `getDays`: the day count of a period code, 7 for a code it does not know. */
  function GetDays(code: string): (d: nat)
    ensures d == 1 || d == 7 || d == 30
  {
    match code
    case "1D" => 1
    case "1W" => 7
    case "1M" => 30
    case _ => 7
  }

  function Days(p: Period): nat {
    GetDays(p.Code())
  }

  lemma DaysTable(code: string)
    ensures Days(OneDay) == 1 && Days(OneWeek) == 7 && Days(OneMonth) == 30
    ensures code != "1D" && code != "1W" && code != "1M" ==> GetDays(code) == 7
  {
  }

  /** A longer period never has fewer days. */
  lemma DaysIncreasing()
    ensures Days(OneDay) < Days(OneWeek) < Days(OneMonth)
  {
  }

  /**
   * `Math.ceil(usage * days * 2)`: the least whole quantity covering twice the
   * projected use over the period.
   */
  function Requirement(usage: real, days: int): (r: int)
    ensures usage * days as real * 2.0 <= r as real < usage * days as real * 2.0 + 1.0
  {
    Ceil(usage * days as real * 2.0)
  }

  /** `calculateRequirement(item)` for the selected period. */
  function Target(item: Item, p: Period): (t: int)
    ensures var need := UsageOf(item) * Days(p) as real * 2.0;
      need <= t as real < need + 1.0
  {
    Requirement(UsageOf(item), Days(p))
  }

  lemma RequirementNonNegative(usage: real, days: int)
    requires usage >= 0.0 && days >= 0
    ensures Requirement(usage, days) >= 0
  {
    assert usage * days as real >= 0.0;
  }

  lemma RequirementOfNoUsage(days: int)
    ensures Requirement(0.0, days) == 0
  {
  }

  lemma RequirementMonotoneInUsage(u1: real, u2: real, days: int)
    requires 0.0 <= u1 <= u2 && days >= 0
    ensures Requirement(u1, days) <= Requirement(u2, days)
  {
    assert (u2 - u1) * days as real >= 0.0;
    CeilMonotone(u1 * days as real * 2.0, u2 * days as real * 2.0);
  }

  lemma RequirementMonotoneInDays(usage: real, d1: int, d2: int)
    requires usage >= 0.0 && d1 <= d2
    ensures Requirement(usage, d1) <= Requirement(usage, d2)
  {
    assert usage * (d2 - d1) as real >= 0.0;
    CeilMonotone(usage * d1 as real * 2.0, usage * d2 as real * 2.0);
  }

  /** The target is never negative, is 0 without usage, and grows with the period. */
  lemma TargetProperties(item: Item, p: Period, q: Period)
    requires UsageOf(item) >= 0.0
    ensures Target(item, p) >= 0
    ensures item.dailyUsage.None? || item.dailyUsage == Some(0.0) ==> Target(item, p) == 0
    ensures Days(p) <= Days(q) ==> Target(item, p) <= Target(item, q)
  {
    RequirementNonNegative(UsageOf(item), Days(p));
    RequirementOfNoUsage(Days(p));
    if Days(p) <= Days(q) {
      RequirementMonotoneInDays(UsageOf(item), Days(p), Days(q));
    }
  }

  /**
   * `Math.max(target - stock, 0)`: the least non-negative top-up that brings the
   * stock up to the target.
   */
  function Gap(target: int, stock: int): (g: int)
    ensures g >= 0
    ensures stock + g >= target
    ensures g == 0 || stock + g == target
  {
    if target - stock > 0 then target - stock else 0
  }

  lemma GapZeroIff(target: int, stock: int)
    ensures Gap(target, stock) == 0 <==> stock >= target
  {
  }

  datatype Status = Kosong | Kritis | Rendah | Aman

  /**
   * `getStatusBadge`: empty, else critical up to half the target (inclusive, the
   * half taken as a real number), else low below the target, else safe. Stated on
   * integers: which stock levels land in each level, in both directions.
   */
  function Badge(stock: int, target: int): (s: Status)
    ensures s == Kosong <==> stock == 0
    ensures s == Kritis <==> stock != 0 && 2 * stock <= target
    ensures s == Rendah <==> stock != 0 && target < 2 * stock && stock < target
    ensures s == Aman <==> stock != 0 && target < 2 * stock && target <= stock
  {
    assert stock as real <= target as real / 2.0 <==> 2 * stock <= target;
    if stock == 0 then Kosong
    else if stock as real <= target as real / 2.0 then Kritis
    else if stock < target then Rendah
    else Aman
  }

  /**
   * The status column of the PDF export: "AMAN" unless the first condition that
   * holds replaces it. It always names the same level as the on-screen badge.
   */
  function PdfStatus(stock: int, req: int): (status: string)
    ensures status == Label(Badge(stock, req))
  {
    if stock == 0 then "KOSONG"
    else if stock as real <= req as real / 2.0 then "KRITIS"
    else if stock < req then "RENDAH"
    else "AMAN"
  }

  function Label(s: Status): string {
    match s
    case Kosong => "KOSONG"
    case Kritis => "KRITIS"
    case Rendah => "RENDAH"
    case Aman => "AMAN"
  }

  /** With stock on hand, the status is safe exactly when nothing needs ordering. */
  lemma SafeIffNoGap(stock: int, target: int)
    requires stock > 0
    ensures Badge(stock, target) == Aman <==> Gap(target, stock) == 0
  {
  }

  /** Boundary examples of the target and the status levels. */
  lemma Examples()
    ensures Badge(5, 10) == Kritis && Badge(6, 10) == Rendah
    ensures Badge(10, 10) == Aman && Badge(0, 10) == Kosong
    ensures Requirement(3.0, Days(OneWeek)) == 42
    ensures Gap(42, 20) == 22 && Badge(20, 42) == Kritis
    ensures forall p: Period :: Requirement(0.0, Days(p)) == 0
    ensures forall stock: int :: stock > 0 ==> Badge(stock, 0) == Aman
  {
  }
}
