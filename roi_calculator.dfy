/**
  The ROI calculator: revenue targets for a subsidy from industry ROAS
  benchmarks (revenue over subsidy), lowered for large subsidies, spread
  over the years after the project; and the classification of an expected
  revenue against the same benchmarks. Amounts are in units of ten thousand
  NTD and are exact reals; the rounding done for display is left out.
 */
module RoiCalculator {
  import opened Text

  datatype Benchmark = Benchmark(min: real, recommended: real, excellent: real)

  predicate Ordered(b: Benchmark) {
    b.min < b.recommended < b.excellent
  }

  const DefaultIndustry := "製造業"

  /** The ROAS benchmarks of each industry. */
  const Benchmarks: map<string, Benchmark> := map[
    "製造業" := Benchmark(3.0, 4.5, 6.0),
    "機械" := Benchmark(3.0, 4.5, 6.0),
    "化工/材料" := Benchmark(3.0, 4.0, 5.0),
    "電子" := Benchmark(3.5, 5.0, 7.0),
    "資通訊" := Benchmark(5.0, 7.0, 10.0),
    "軟體" := Benchmark(5.0, 8.0, 12.0),
    "數位服務" := Benchmark(5.0, 7.0, 10.0),
    "生技/醫療" := Benchmark(3.0, 4.0, 6.0),
    "服務業" := Benchmark(4.0, 5.5, 8.0),
    "服務創新" := Benchmark(4.0, 5.5, 8.0)
  ]

  /** The benchmark of an industry; an unknown one gets that of 製造業. */
  function BenchmarkFor(industry: string): Benchmark {
    if industry in Benchmarks then Benchmarks[industry] else Benchmarks[DefaultIndustry]
  }

  lemma UnknownIndustryIsManufacturing(industry: string)
    requires industry !in Benchmarks
    ensures BenchmarkFor(industry) == BenchmarkFor(DefaultIndustry) == Benchmark(3.0, 4.5, 6.0)
  {
  }

  /** Every benchmark, and so that of any industry, has minimum below
      recommended below excellent. */
  lemma BenchmarksOrdered(industry: string)
    ensures Ordered(BenchmarkFor(industry))
  {
    assert forall k :: k in Benchmarks ==> Ordered(Benchmarks[k]);
  }

  /** Large subsidies accept a lower multiple: 20% lower from 600, 10% lower
      from 300. */
  function AdjustmentFactor(subsidy: real): (f: real)
    ensures 0.8 <= f <= 1.0
    ensures f == 0.8 <==> subsidy >= 600.0
    ensures f == 0.9 <==> 300.0 <= subsidy < 600.0
    ensures f == 1.0 <==> subsidy < 300.0
  {
    if subsidy >= 600.0 then 0.8 else if subsidy >= 300.0 then 0.9 else 1.0
  }

  /** A larger subsidy never gets a larger factor. */
  lemma AdjustmentFactorMonotone(s1: real, s2: real)
    requires s1 <= s2
    ensures AdjustmentFactor(s2) <= AdjustmentFactor(s1)
  {
  }

  /** The benchmark scaled by the factor of the subsidy. */
  function Adjusted(b: Benchmark, subsidy: real): (a: Benchmark)
    ensures Ordered(b) ==> Ordered(a)
  {
    var f := AdjustmentFactor(subsidy);
    Benchmark(b.min * f, b.recommended * f, b.excellent * f)
  }

  // ---------------------------------------------------------------- calculate_roi

  datatype Targets = Targets(min: real, recommended: real, excellent: real)
  datatype YearTarget = YearTarget(year: nat, min: real, recommended: real, excellent: real)

  /** What `calculate_roi` reports. */
  datatype RoiPlan = RoiPlan(benchmark: Benchmark, targets: Targets, roas: Benchmark,
                             yearly: seq<YearTarget>, note: string)

  /** The share of the revenue in each year after the project. */
  function YearDistribution(phase: string): (d: seq<real>)
    ensures |d| == if phase == "phase1" then 3 else 5
  {
    if phase == "phase1" then [0.25, 0.35, 0.40] else [0.15, 0.20, 0.25, 0.20, 0.20]
  }

  function Sum(xs: seq<real>): real {
    if xs == [] then 0.0 else Sum(xs[..|xs| - 1]) + xs[|xs| - 1]
  }

  /** The yearly shares add up to the whole. */
  lemma YearDistributionComplete(phase: string)
    ensures Sum(YearDistribution(phase)) == 1.0
  {
    var d := YearDistribution(phase);
    assert Sum(d[..1]) == d[0] by { assert d[..1][..0] == []; }
    assert Sum(d[..2]) == Sum(d[..1]) + d[1] by { assert d[..2][..1] == d[..1]; }
    assert Sum(d[..3]) == Sum(d[..2]) + d[2] by { assert d[..3][..2] == d[..2]; }
    if phase != "phase1" {
      assert Sum(d[..4]) == Sum(d[..3]) + d[3] by { assert d[..4][..3] == d[..3]; }
      assert Sum(d[..5]) == Sum(d[..4]) + d[4] by { assert d[..5][..4] == d[..4]; }
      assert d[..5] == d;
    } else {
      assert d[..3] == d;
    }
  }

  /** `amount * ratio`: the part of an amount for one year. */
  function Portion(amount: real, ratio: real): real {
    amount * ratio
  }

  /** Year `k + 1` gets share `dist[k]` of each target. */
  function Breakdown(t: Targets, dist: seq<real>): (r: seq<YearTarget>)
    ensures |r| == |dist|
  {
    if dist == [] then []
    else
      var n := |dist|;
      var r := dist[n - 1];
      Breakdown(t, dist[..n - 1]) + [YearTarget(n, Portion(t.min, r), Portion(t.recommended, r), Portion(t.excellent, r))]
  }

  lemma {:induction false} BreakdownYears(t: Targets, dist: seq<real>)
    ensures forall k :: 0 <= k < |dist| ==> Breakdown(t, dist)[k].year == k + 1
  {
    if dist != [] {
      var n := |dist|;
      BreakdownYears(t, dist[..n - 1]);
      assert forall k :: 0 <= k < n - 1 ==> Breakdown(t, dist)[k] == Breakdown(t, dist[..n - 1])[k];
    }
  }

  function RecommendedSum(ys: seq<YearTarget>): real {
    if ys == [] then 0.0 else RecommendedSum(ys[..|ys| - 1]) + ys[|ys| - 1].recommended
  }

  /** The recommended yearly amounts add up to the recommended target scaled
      by the sum of the shares. */
  lemma {:induction false} BreakdownSum(t: Targets, dist: seq<real>)
    ensures RecommendedSum(Breakdown(t, dist)) == t.recommended * Sum(dist)
  {
    if dist != [] {
      var n := |dist|;
      BreakdownSum(t, dist[..n - 1]);
      var b := Breakdown(t, dist);
      assert b[..n - 1] == Breakdown(t, dist[..n - 1]);
      assert t.recommended * Sum(dist) == t.recommended * Sum(dist[..n - 1]) + t.recommended * dist[n - 1];
    }
  }

  /** `calculate_roi`: the targets are the subsidy times the adjusted
      benchmark, and each year gets its share of them. */
  method CalculateRoi(subsidy: real, phase: string, industry: string, companyRevenue: real)
    returns (plan: RoiPlan)
    ensures plan.benchmark == BenchmarkFor(industry)
    ensures plan.roas == Adjusted(plan.benchmark, subsidy)
    ensures plan.targets == TargetsFor(subsidy, plan.benchmark)
    ensures plan.yearly == Breakdown(plan.targets, YearDistribution(phase))
    ensures plan.note == AdjustmentNote(subsidy, companyRevenue, industry)
    ensures subsidy > 0.0 ==> plan.targets.min < plan.targets.recommended < plan.targets.excellent
  {
    var benchmark := BenchmarkFor(industry);
    BenchmarksOrdered(industry);
    var targets := Revenues(subsidy, benchmark);
    var yearly := YearlyBreakdown(targets, YearDistribution(phase));
    plan := RoiPlan(benchmark, targets, Adjusted(benchmark, subsidy), yearly, AdjustmentNote(subsidy, companyRevenue, industry));
  }

  /** The revenue targets of a subsidy: the subsidy times the benchmark,
      scaled by the factor; a positive subsidy keeps the benchmark's order. */
  function TargetsFor(subsidy: real, b: Benchmark): (t: Targets)
    ensures subsidy > 0.0 && Ordered(b) ==> t.min < t.recommended < t.excellent
  {
    var f := AdjustmentFactor(subsidy);
    if subsidy > 0.0 && Ordered(b) then TargetsOrdered(subsidy, b, f); Targets(subsidy * b.min * f, subsidy * b.recommended * f, subsidy * b.excellent * f)
    else Targets(subsidy * b.min * f, subsidy * b.recommended * f, subsidy * b.excellent * f)
  }

  /** The targets: the revenues at the benchmark, then scaled by the factor. */
  method Revenues(subsidy: real, benchmark: Benchmark) returns (targets: Targets)
    ensures targets == TargetsFor(subsidy, benchmark)
  {
    var minRevenue := subsidy * benchmark.min;
    var recommendedRevenue := subsidy * benchmark.recommended;
    var excellentRevenue := subsidy * benchmark.excellent;
    var factor := AdjustmentFactor(subsidy);
    minRevenue := minRevenue * factor;
    recommendedRevenue := recommendedRevenue * factor;
    excellentRevenue := excellentRevenue * factor;
    targets := Targets(minRevenue, recommendedRevenue, excellentRevenue);
  }

  /** The yearly table: year `i + 1` gets share `dist[i]` of each target. */
  method YearlyBreakdown(targets: Targets, dist: seq<real>) returns (yearly: seq<YearTarget>)
    ensures yearly == Breakdown(targets, dist)
  {
    yearly := [];
    for i := 0 to |dist|
      invariant yearly == Breakdown(targets, dist[..i])
    {
      var ratio := dist[i];
      assert dist[..i + 1][..i] == dist[..i];
      yearly := yearly + [YearTarget(i + 1, Portion(targets.min, ratio), Portion(targets.recommended, ratio), Portion(targets.excellent, ratio))];
    }
    assert dist[..|dist|] == dist;
  }

  /** A positive subsidy and factor keep the order of the benchmark. */
  lemma TargetsOrdered(subsidy: real, b: Benchmark, f: real)
    requires subsidy > 0.0 && f > 0.0 && Ordered(b)
    ensures subsidy * b.min * f < subsidy * b.recommended * f < subsidy * b.excellent * f
  {
    assert subsidy * b.min < subsidy * b.recommended < subsidy * b.excellent;
  }

  /** The yearly plan has three years for Phase 1 and five otherwise,
      numbered from 1, and its recommended amounts add up to the
      recommended target. */
  lemma RoiPlanYears(plan: RoiPlan, phase: string, t: Targets)
    requires plan.yearly == Breakdown(t, YearDistribution(phase))
    ensures |plan.yearly| == if phase == "phase1" then 3 else 5
    ensures forall k :: 0 <= k < |plan.yearly| ==> plan.yearly[k].year == k + 1
    ensures RecommendedSum(plan.yearly) == t.recommended
  {
    BreakdownYears(t, YearDistribution(phase));
    BreakdownSum(t, YearDistribution(phase));
    YearDistributionComplete(phase);
  }

  // ---------------------------------------------------------------- validate_roi

  datatype Level = Insufficient | Passing | Good | Outstanding

  function Rank(l: Level): nat {
    match l
    case Insufficient => 0
    case Passing => 1
    case Good => 2
    case Outstanding => 3
  }

  /** Expected revenue over subsidy; zero without a positive subsidy. */
  function ActualRoas(subsidy: real, expected: real): (roas: real)
    ensures subsidy > 0.0 ==> roas * subsidy == expected
    ensures subsidy <= 0.0 ==> roas == 0.0
  {
    if subsidy > 0.0 then expected / subsidy else 0.0
  }

  /** The level of a ROAS against adjusted benchmarks: 不足, 及格, 良好 or 優秀. */
  function LevelOf(roas: real, a: Benchmark): Level {
    if roas < a.min then Insufficient
    else if roas < a.recommended then Passing
    else if roas < a.excellent then Good
    else Outstanding
  }

  /** `validate_roi`: the ROAS, the adjusted benchmark and the level. */
  function ValidateRoi(subsidy: real, expected: real, industry: string): (r: (real, Benchmark, Level))
    ensures r.1 == Adjusted(BenchmarkFor(industry), subsidy) && Ordered(r.1)
    ensures r.0 == ActualRoas(subsidy, expected)
  {
    BenchmarksOrdered(industry);
    var a := Adjusted(BenchmarkFor(industry), subsidy);
    var roas := ActualRoas(subsidy, expected);
    (roas, a, LevelOf(roas, a))
  }

  /** The levels cut the ROAS line into four consecutive intervals. */
  lemma LevelPartition(roas: real, a: Benchmark)
    requires Ordered(a)
    ensures LevelOf(roas, a) == Insufficient <==> roas < a.min
    ensures LevelOf(roas, a) == Passing <==> a.min <= roas < a.recommended
    ensures LevelOf(roas, a) == Good <==> a.recommended <= roas < a.excellent
    ensures LevelOf(roas, a) == Outstanding <==> a.excellent <= roas
  {
  }

  /** A higher ROAS never gets a lower level. */
  lemma LevelMonotone(r1: real, r2: real, a: Benchmark)
    requires r1 <= r2
    ensures Rank(LevelOf(r1, a)) <= Rank(LevelOf(r2, a))
  {
  }

  lemma DivideMonotone(e1: real, e2: real, s: real)
    requires e1 <= e2 && s > 0.0
    ensures e1 / s <= e2 / s
  {
  }

  /** More expected revenue never gets a lower level. */
  lemma ValidateMonotone(subsidy: real, e1: real, e2: real, industry: string)
    requires e1 <= e2
    ensures Rank(ValidateRoi(subsidy, e1, industry).2) <= Rank(ValidateRoi(subsidy, e2, industry).2)
  {
    var r1 := ActualRoas(subsidy, e1);
    var r2 := ActualRoas(subsidy, e2);
    if subsidy > 0.0 {
      DivideMonotone(e1, e2, subsidy);
    }
    LevelMonotone(r1, r2, Adjusted(BenchmarkFor(industry), subsidy));
  }

  // ---------------------------------------------------------------- _get_adjustment_note

  const NoAdjustment := "無特殊調整"

  function SizeNotes(subsidy: real): seq<string> {
    if subsidy >= 600.0 then ["💡 大型計畫（≥600萬），ROAS 基準已下調 20%"]
    else if subsidy >= 300.0 then ["💡 中型計畫（300-600萬），ROAS 基準已下調 10%"]
    else []
  }

  function IndustryNotes(industry: string): seq<string> {
    if industry in ["資通訊", "軟體", "數位服務"] then ["💡 軟體/數位產業，期待較高 ROAS（5-10 倍）"]
    else if industry == "生技/醫療" then ["💡 生技產業，考慮研發風險，可接受較低 ROAS"]
    else []
  }

  function CompanyNotes(companyRevenue: real): seq<string> {
    if companyRevenue <= 0.0 then []
    else if companyRevenue < 1000.0 then ["💡 新創公司，可適度降低 ROAS 要求"]
    else if companyRevenue > 20000.0 then ["💡 大型公司，應展現較高 ROAS"]
    else []
  }

  /** The notes in the order they are added: subsidy size, industry,
      company size. */
  function Notes(subsidy: real, companyRevenue: real, industry: string): seq<string> {
    SizeNotes(subsidy) + IndustryNotes(industry) + CompanyNotes(companyRevenue)
  }

  /** The notes joined by line breaks, or "無特殊調整" when there are none. */
  function AdjustmentNote(subsidy: real, companyRevenue: real, industry: string): string {
    var notes := Notes(subsidy, companyRevenue, industry);
    if notes == [] then NoAdjustment else Join(notes, "\n")
  }

  /** Some rule of the note applies. */
  predicate RuleFires(subsidy: real, companyRevenue: real, industry: string) {
    || subsidy >= 300.0
    || industry in ["資通訊", "軟體", "數位服務", "生技/醫療"]
    || (companyRevenue > 0.0 && (companyRevenue < 1000.0 || companyRevenue > 20000.0))
  }

  /** "無特殊調整" exactly when no rule applies. */
  lemma NoAdjustmentExactly(subsidy: real, companyRevenue: real, industry: string)
    ensures AdjustmentNote(subsidy, companyRevenue, industry) == NoAdjustment <==> !RuleFires(subsidy, companyRevenue, industry)
  {
    var notes := Notes(subsidy, companyRevenue, industry);
    if notes != [] {
      assert notes[0][0] == '💡';
      JoinFirst(notes, "\n");
      assert NoAdjustment[0] == '無';
    }
  }

  /** The size note is there exactly when the benchmark is lowered, and names
      the same tier. */
  lemma SizeNoteMatchesFactor(subsidy: real)
    ensures SizeNotes(subsidy) == [] <==> AdjustmentFactor(subsidy) == 1.0
    ensures SizeNotes(subsidy) == ["💡 大型計畫（≥600萬），ROAS 基準已下調 20%"] <==> AdjustmentFactor(subsidy) == 0.8
  {
  }
}
