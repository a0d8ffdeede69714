/**
 * The margin engine (compute/margins.py): the three pathway formulas, the
 * recommendation rule that picks the pathway with the largest margin, the
 * complete per-drug analysis, the payer-specific analysis and the capture-rate
 * sensitivity table. `Decimal` arithmetic is exact `real` arithmetic.
 */
module Margins {
  import opened Wrappers
  import opened Text
  import opened Models
  import Seqs

  /** Retail reimburses at AWP less 15%. */
  const AwpDiscountFactor: real := 0.85
  /** Medicare Part B reimburses at ASP plus 6%. */
  const MedicareAspMultiplier: real := 1.06
  /** Commercial payers reimburse at ASP plus 15%. */
  const CommercialAspMultiplier: real := 1.15
  /** Share of retail prescriptions the covered entity's pharmacies capture. */
  const DefaultCaptureRate: real := 0.45

  /** `calculate_retail_margin`: (gross, net) with gross = AWP x 0.85 - cost and net = gross x capture rate. */
  function RetailMargin(drug: Drug, captureRate: real := DefaultCaptureRate): (r: (real, real))
    ensures r.0 + drug.contractCost == drug.awp * AwpDiscountFactor
    ensures r.0 > 0.0 <==> drug.awp * AwpDiscountFactor > drug.contractCost
    ensures r.1 == r.0 * captureRate
  {
    var revenue := drug.awp * AwpDiscountFactor;
    var gross := revenue - drug.contractCost;
    (gross, gross * captureRate)
  }

  /** `calculate_medicare_margin`: ASP x 1.06 x bill units - cost, for a drug with a medical path. */
  function MedicareMargin(drug: Drug): (r: Option<real>)
    ensures r.Some? <==> drug.HasMedicalPath()
  {
    if !drug.HasMedicalPath() then None
    else Some(drug.asp.value * MedicareAspMultiplier * drug.billUnitsPerPackage as real - drug.contractCost)
  }

  /** `calculate_commercial_margin`: ASP x 1.15 x bill units - cost, for a drug with a medical path. */
  function CommercialMargin(drug: Drug): (r: Option<real>)
    ensures r.Some? <==> drug.HasMedicalPath()
  {
    if !drug.HasMedicalPath() then None
    else Some(drug.asp.value * CommercialAspMultiplier * drug.billUnitsPerPackage as real - drug.contractCost)
  }

  /**
   * The net retail margin scales linearly with the capture rate: it is the
   * margin at full capture times the rate, and lowering the rate lowers a
   * positive gross margin proportionately.
   */
  lemma RetailMarginLinear(drug: Drug, rate: real, other: real)
    ensures RetailMargin(drug, rate).1 == RetailMargin(drug, 1.0).1 * rate
    ensures RetailMargin(drug, rate).0 == RetailMargin(drug, other).0
    ensures RetailMargin(drug, 1.0).1 == RetailMargin(drug, 1.0).0
    ensures RetailMargin(drug, 1.0).0 > 0.0 && rate < other ==> RetailMargin(drug, rate).1 < RetailMargin(drug, other).1
  {
    var g := RetailMargin(drug, 1.0).0;
    if g > 0.0 && rate < other {
      assert g * rate < g * other;
    }
  }

  /**
   * Both medical formulas apply to the same reimbursable amount ASP x bill
   * units; commercial pays 9% of it more than Medicare, so it is strictly
   * larger whenever that amount is positive.
   */
  lemma CommercialExceedsMedicare(drug: Drug)
    requires drug.HasMedicalPath()
    ensures CommercialMargin(drug).value - MedicareMargin(drug).value
            == 0.09 * drug.asp.value * drug.billUnitsPerPackage as real
    ensures drug.asp.value * drug.billUnitsPerPackage as real > 0.0
            ==> CommercialMargin(drug).value > MedicareMargin(drug).value
  {
  }

  /** AWP 6500, ASP 2800, 2 billing units, contract cost 150: gross retail 5375, Medicare 5786, commercial 6290. */
  lemma MarginExample()
    ensures var d := Drug("0074433902", "HUMIRA", "ABBVIE", 150.0, 6500.0, Some(2800.0), Some("J0135"), 2);
            && RetailMargin(d).0 == 5375.0
            && RetailMargin(d).1 == 2418.75
            && MedicareMargin(d) == Some(5786.0)
            && CommercialMargin(d) == Some(6290.0)
  {
  }

  /** A candidate pathway with its margin, as in the `options` list. */
  type PathMargin = (RecommendedPath, real)

  function Margin(o: PathMargin): real {
    o.1
  }

  /** The available options in the order they are listed: retail, then Medicare, then commercial. */
  function Options(retailNet: real, medicare: Option<real>, commercial: Option<real>): (s: seq<PathMargin>)
    ensures 1 <= |s| <= 3 && s[0] == (Retail, retailNet)
  {
    [(Retail, retailNet)]
    + (if medicare.Some? then [(MedicareMedical, medicare.value)] else [])
    + (if commercial.Some? then [(CommercialMedical, commercial.value)] else [])
  }

  /** Position of the first option with the largest margin. */
  function BestIndex(s: seq<PathMargin>): (i: nat)
    requires s != []
    ensures i < |s|
    ensures forall j :: 0 <= j < |s| ==> s[j].1 <= s[i].1
    ensures forall j :: 0 <= j < i ==> s[j].1 < s[i].1
  {
    if |s| == 1 then 0
    else
      var k := BestIndex(s[1..]) + 1;
      if s[0].1 >= s[k].1 then 0 else k
  }

  /**
   * Reference definition of the recommendation: the first option with the
   * largest margin, and its lead over the largest margin among the others
   * (or its own margin when it is the only option).
   */
  function Recommendation(s: seq<PathMargin>): (RecommendedPath, real)
    requires s != []
  {
    var i := BestIndex(s);
    var rest := s[..i] + s[i + 1..];
    (s[i].0, if rest == [] then s[i].1 else s[i].1 - rest[BestIndex(rest)].1)
  }

  /** The head of a sorted permutation of `u` carries the largest margin of `u`. */
  lemma SortedHead(t: seq<PathMargin>, u: seq<PathMargin>)
    requires u != [] && Seqs.SortedDesc(t, Margin) && multiset(t) == multiset(u)
    ensures t != [] && t[0].1 == u[BestIndex(u)].1
  {
    var i := BestIndex(u);
    assert u[i] in multiset(t);
    var j :| 0 <= j < |t| && t[j] == u[i];
    assert Margin(t[0]) >= Margin(t[j]);
    assert t[0] in multiset(u);
    var k :| 0 <= k < |u| && u[k] == t[0];
  }

  /**
   * `determine_recommendation`: collect the available options, sort them by
   * margin in descending order (a stable sort), take the head and its lead
   * over the runner-up. The result is the reference recommendation.
   */
  method DetermineRecommendation(retailNet: real, medicare: Option<real>, commercial: Option<real>)
    returns (path: RecommendedPath, delta: real)
    ensures (path, delta) == Recommendation(Options(retailNet, medicare, commercial))
  {
    ghost var unsorted := Options(retailNet, medicare, commercial);
    var options: seq<PathMargin> := [(Retail, retailNet)];
    if medicare.Some? {
      options := options + [(MedicareMedical, medicare.value)];
    }
    if commercial.Some? {
      options := options + [(CommercialMedical, commercial.value)];
    }
    assert options == unsorted;
    options := Seqs.SortDesc(options, Margin);
    SortedRecommendation(unsorted, options);
    path := options[0].0;
    var best := options[0].1;
    if |options| > 1 {
      var second := options[1].1;
      delta := best - second;
    } else {
      delta := best;
    }
  }

  /** The stable descending sort puts the reference's pick first. */
  lemma SortedPick(s: seq<PathMargin>, t: seq<PathMargin>)
    requires s != [] && t == Seqs.SortDesc(s, Margin)
    ensures |t| == |s| && t[0] == s[BestIndex(s)]
    ensures Seqs.SortedDesc(t, Margin) && multiset(t) == multiset(s)
  {
    var i := BestIndex(s);
    var k := s[i].1;
    Seqs.SortDescSorted(s, Margin);
    SortedHead(t, s);
    Seqs.SortDescStable(s, Margin, k);
    Seqs.WithKeyFirst(t, Margin, k, 0);
    Seqs.WithKeyFirst(s, Margin, k, i);
  }

  /**
   * In a sorted permutation of `s` headed by `s[i]`, the second margin is the
   * largest margin of the options other than `s[i]`.
   */
  lemma SortedRunnerUp(s: seq<PathMargin>, t: seq<PathMargin>, i: nat)
    requires i < |s| && |s| > 1 && t != [] && t[0] == s[i]
    requires Seqs.SortedDesc(t, Margin) && multiset(t) == multiset(s)
    ensures var rest := s[..i] + s[i + 1..];
            rest != [] && |t| > 1 && t[1].1 == rest[BestIndex(rest)].1
  {
    var rest := s[..i] + s[i + 1..];
    TailIsRest(s, t, i);
    assert |t| == |multiset(t)| == |s|;
    SortedHead(t[1..], rest);
  }

  /** Taking `s[i]` off the front of a permutation of `s` leaves a permutation of the other options. */
  lemma TailIsRest<T>(s: seq<T>, t: seq<T>, i: nat)
    requires i < |s| && t != [] && t[0] == s[i] && multiset(t) == multiset(s)
    ensures multiset(t[1..]) == multiset(s[..i] + s[i + 1..])
  {
    assert s == s[..i] + [s[i]] + s[i + 1..];
    assert multiset(s) == multiset(s[..i]) + multiset{s[i]} + multiset(s[i + 1..]);
    assert t == [t[0]] + t[1..];
    assert multiset(t) == multiset{s[i]} + multiset(t[1..]);
    assert multiset(s[..i] + s[i + 1..]) == multiset(s[..i]) + multiset(s[i + 1..]);
    assert multiset(t[1..]) == multiset(t) - multiset{s[i]};
  }

  /** The sorted options agree with the reference on the pick and on the runner-up's margin. */
  lemma SortedAgrees(s: seq<PathMargin>, t: seq<PathMargin>)
    requires s != [] && t == Seqs.SortDesc(s, Margin)
    ensures |t| == |s| && t[0] == s[BestIndex(s)]
    ensures |s| > 1 ==> var rest := s[..BestIndex(s)] + s[BestIndex(s) + 1..];
                        rest != [] && t[1].1 == rest[BestIndex(rest)].1
  {
    SortedPick(s, t);
    if |s| > 1 {
      SortedRunnerUp(s, t, BestIndex(s));
    }
  }

  /** A sequence headed by the reference's pick and followed by the runner-up's margin yields the reference result. */
  lemma RecommendationFromOrder(s: seq<PathMargin>, t: seq<PathMargin>)
    requires s != [] && |t| == |s| && t[0] == s[BestIndex(s)]
    requires |s| > 1 ==> var rest := s[..BestIndex(s)] + s[BestIndex(s) + 1..];
                         rest != [] && t[1].1 == rest[BestIndex(rest)].1
    ensures Recommendation(s) == (t[0].0, if |t| > 1 then t[0].1 - t[1].1 else t[0].1)
  {
    var i := BestIndex(s);
    var rest := s[..i] + s[i + 1..];
    if |s| == 1 {
      assert rest == [];
    }
  }

  /** Reading the head and the runner-up off the sorted options gives the reference recommendation. */
  lemma SortedRecommendation(s: seq<PathMargin>, t: seq<PathMargin>)
    requires s != [] && t == Seqs.SortDesc(s, Margin)
    ensures |t| == |s|
    ensures Recommendation(s) == (t[0].0, if |t| > 1 then t[0].1 - t[1].1 else t[0].1)
  {
    SortedAgrees(s, t);
    RecommendationFromOrder(s, t);
  }

  /** The rank of a pathway in the options list; earlier pathways win ties. */
  function Rank(p: RecommendedPath): nat {
    match p
    case Retail => 0
    case MedicareMedical => 1
    case CommercialMedical => 2
  }

  /** The margin of pathway `p` among the options, if it is available. */
  function MarginFor(p: RecommendedPath, retailNet: real, medicare: Option<real>, commercial: Option<real>): Option<real> {
    match p
    case Retail => Some(retailNet)
    case MedicareMedical => medicare
    case CommercialMedical => commercial
  }

  /**
   * The recommended pathway is available and has the largest margin; a
   * pathway listed before it has a strictly smaller margin (ties go to retail,
   * then Medicare, then commercial). With a medical option the delta is the
   * lead over the runner-up, never negative; with retail only it is the retail
   * net margin itself.
   */
  lemma RecommendationIsBest(retailNet: real, medicare: Option<real>, commercial: Option<real>)
    ensures var (path, delta) := Recommendation(Options(retailNet, medicare, commercial));
            var best := MarginFor(path, retailNet, medicare, commercial);
            && best.Some?
            && (forall q :: MarginFor(q, retailNet, medicare, commercial).Some?
                  ==> MarginFor(q, retailNet, medicare, commercial).value <= best.value)
            && (forall q :: Rank(q) < Rank(path) && MarginFor(q, retailNet, medicare, commercial).Some?
                  ==> MarginFor(q, retailNet, medicare, commercial).value < best.value)
            && (medicare.None? && commercial.None? ==> path == Retail && delta == retailNet)
            && (medicare.Some? || commercial.Some? ==>
                  && delta >= 0.0
                  && (exists q :: q != path && MarginFor(q, retailNet, medicare, commercial).Some?
                        && MarginFor(q, retailNet, medicare, commercial).value == best.value - delta)
                  && (forall q :: q != path && MarginFor(q, retailNet, medicare, commercial).Some?
                        ==> MarginFor(q, retailNet, medicare, commercial).value <= best.value - delta))
  {
    var s := Options(retailNet, medicare, commercial);
    var i := BestIndex(s);
    var (path, delta) := Recommendation(s);
    OptionsPositions(retailNet, medicare, commercial);
    RecommendationProps(s);
    var best := MarginFor(path, retailNet, medicare, commercial);
    assert best == Some(s[i].1);
    forall q | MarginFor(q, retailNet, medicare, commercial).Some?
      ensures MarginFor(q, retailNet, medicare, commercial).value <= best.value
      ensures Rank(q) < Rank(path) ==> MarginFor(q, retailNet, medicare, commercial).value < best.value
      ensures q != path && |s| > 1 ==> MarginFor(q, retailNet, medicare, commercial).value <= best.value - delta
    {
      var j :| 0 <= j < |s| && s[j].0 == q;
      assert MarginFor(q, retailNet, medicare, commercial) == Some(s[j].1);
    }
    if |s| > 1 {
      var j :| 0 <= j < |s| && j != i && s[j].1 == s[i].1 - delta;
      assert s[j].0 != path;
      assert MarginFor(s[j].0, retailNet, medicare, commercial) == Some(s[j].1);
    }
  }

  /**
   * Each option carries the margin of its pathway, the options are listed in
   * rank order, and every available pathway is among them.
   */
  lemma OptionsPositions(retailNet: real, medicare: Option<real>, commercial: Option<real>)
    ensures var s := Options(retailNet, medicare, commercial);
            && (forall j :: 0 <= j < |s| ==> MarginFor(s[j].0, retailNet, medicare, commercial) == Some(s[j].1))
            && (forall j, k :: 0 <= j < k < |s| ==> Rank(s[j].0) < Rank(s[k].0))
            && (forall q :: MarginFor(q, retailNet, medicare, commercial).Some? ==> exists j :: 0 <= j < |s| && s[j].0 == q)
            && (medicare.None? && commercial.None? <==> |s| == 1)
  {
    var s := Options(retailNet, medicare, commercial);
    forall q | MarginFor(q, retailNet, medicare, commercial).Some?
      ensures exists j :: 0 <= j < |s| && s[j].0 == q
    {
      match q
      case Retail => assert s[0].0 == q;
      case MedicareMedical => assert s[1].0 == q;
      case CommercialMedical => assert s[|s| - 1].0 == q;
    }
  }

  /**
   * The reference recommendation names the pathway of the first largest
   * option; with other options its delta is the non-negative lead over the
   * largest of them, and with a single option it is that option's margin.
   */
  lemma RecommendationProps(s: seq<PathMargin>)
    requires s != []
    ensures var (p, d) := Recommendation(s);
            var i := BestIndex(s);
            && p == s[i].0
            && (|s| == 1 ==> d == s[i].1)
            && (|s| > 1 ==>
                  && d >= 0.0
                  && (exists j :: 0 <= j < |s| && j != i && s[j].1 == s[i].1 - d)
                  && (forall j :: 0 <= j < |s| && j != i ==> s[j].1 <= s[i].1 - d))
  {
    var i := BestIndex(s);
    var rest := s[..i] + s[i + 1..];
    if |s| > 1 {
      var k := BestIndex(rest);
      var j := if k < i then k else k + 1;
      RestAt(s, i, k);
      forall j' | 0 <= j' < |s| && j' != i
        ensures s[j'].1 <= s[j].1
      {
        RestAt(s, i, if j' < i then j' else j' - 1);
      }
    }
  }

  /** Removing position `i` shifts the later positions down by one. */
  lemma RestAt(s: seq<PathMargin>, i: nat, m: nat)
    requires i < |s| && m < |s| - 1
    ensures |s[..i] + s[i + 1..]| == |s| - 1
    ensures (s[..i] + s[i + 1..])[m] == s[if m < i then m else m + 1]
  {
  }

  /**
   * `analyze_drug_margin`: the three pathway margins at the given capture
   * rate and the recommendation over them.
   */
  function AnalyzeDrugMargin(drug: Drug, captureRate: real := DefaultCaptureRate): (a: MarginAnalysis)
    ensures a.drug == drug && a.retailCaptureRate == captureRate
    ensures (a.retailGrossMargin, a.retailNetMargin) == RetailMargin(drug, captureRate)
    ensures a.retailNetMargin == a.retailGrossMargin * captureRate
    ensures a.medicareMargin.Some? <==> drug.HasMedicalPath()
    ensures a.commercialMargin.Some? <==> drug.HasMedicalPath()
    ensures a.medicareMargin == MedicareMargin(drug) && a.commercialMargin == CommercialMargin(drug)
    ensures (a.recommendedPath, a.marginDelta)
            == Recommendation(Options(a.retailNetMargin, a.medicareMargin, a.commercialMargin))
  {
    var (gross, net) := RetailMargin(drug, captureRate);
    var medicare := MedicareMargin(drug);
    var commercial := CommercialMargin(drug);
    var (path, delta) := Recommendation(Options(net, medicare, commercial));
    MarginAnalysis(drug, gross, net, captureRate, medicare, commercial, path, delta)
  }

  /** The margin an analysis reports for pathway `p`, if available. */
  function AnalysisMargin(a: MarginAnalysis, p: RecommendedPath): Option<real> {
    MarginFor(p, a.retailNetMargin, a.medicareMargin, a.commercialMargin)
  }

  /**
   * In a complete analysis the recommended pathway has the largest available
   * margin, and the delta is non-negative for a drug with a medical path and
   * equals the net retail margin for a retail-only drug.
   */
  lemma AnalyzeDrugMarginBest(drug: Drug, captureRate: real)
    ensures var a := AnalyzeDrugMargin(drug, captureRate);
            && AnalysisMargin(a, a.recommendedPath).Some?
            && (forall q :: AnalysisMargin(a, q).Some? ==> AnalysisMargin(a, q).value <= AnalysisMargin(a, a.recommendedPath).value)
            && (drug.HasMedicalPath() ==> a.marginDelta >= 0.0)
            && (!drug.HasMedicalPath() ==> a.recommendedPath == Retail && a.marginDelta == a.retailNetMargin)
  {
    var a := AnalyzeDrugMargin(drug, captureRate);
    RecommendationIsBest(a.retailNetMargin, a.medicareMargin, a.commercialMargin);
  }

  /**
   * `analyze_drug_with_payer`: retail against the one medical payer named by
   * `payerType` ("medicare", in any letter case, selects Medicare; anything
   * else selects commercial).
   */
  function AnalyzeDrugWithPayer(drug: Drug, payerType: string := "commercial", captureRate: real := DefaultCaptureRate): (a: MarginAnalysis)
    ensures a.drug == drug && a.retailCaptureRate == captureRate
    ensures a.medicareMargin == MedicareMargin(drug) && a.commercialMargin == CommercialMargin(drug)
    ensures (a.retailGrossMargin, a.retailNetMargin) == RetailMargin(drug, captureRate)
    ensures a.marginDelta >= 0.0
  {
    var (gross, net) := RetailMargin(drug, captureRate);
    var isMedicare := Lower(payerType) == "medicare";
    var medical := if isMedicare then MedicareMargin(drug) else CommercialMargin(drug);
    var medicalPath := if isMedicare then MedicareMedical else CommercialMedical;
    var (path, delta) :=
      if medical.Some? && medical.value > net then (medicalPath, medical.value - net)
      else (Retail, net - medical.GetOr(0.0));
    MarginAnalysis(drug, gross, net, captureRate, MedicareMargin(drug), CommercialMargin(drug),
                   path, if delta < 0.0 then -delta else delta)
  }

  /**
   * The payer analysis recommends the payer's medical pathway exactly when
   * that payer's margin exists and strictly exceeds the net retail margin,
   * and then reports the lead; otherwise it recommends retail and reports the
   * distance between retail and the medical margin (0 when there is none).
   */
  lemma AnalyzeDrugWithPayerChoice(drug: Drug, payerType: string, captureRate: real)
    ensures var a := AnalyzeDrugWithPayer(drug, payerType, captureRate);
            var isMedicare := Lower(payerType) == "medicare";
            var medical := if isMedicare then MedicareMargin(drug) else CommercialMargin(drug);
            && (a.recommendedPath != Retail <==> medical.Some? && medical.value > a.retailNetMargin)
            && (a.recommendedPath == MedicareMedical ==> isMedicare)
            && (a.recommendedPath == CommercialMedical ==> !isMedicare)
            && (a.recommendedPath != Retail ==> a.marginDelta == medical.value - a.retailNetMargin)
            && (a.recommendedPath == Retail && medical.Some? ==> a.marginDelta == a.retailNetMargin - medical.value)
            && (medical.None? ==>
                  a.recommendedPath == Retail && (a.marginDelta == a.retailNetMargin || a.marginDelta == -a.retailNetMargin))
  {
  }

  /** One line of the sensitivity table; missing medical margins are reported as 0. */
  datatype SensitivityRow = SensitivityRow(
    captureRate: real,
    retailNet: real,
    medicare: real,
    commercial: real,
    recommended: string)

  /** The capture rates the sensitivity table uses when none are given. */
  const DefaultCaptureRates: seq<real> := [0.40, 0.45, 0.60, 0.80, 1.00]

  /** The pathway recommended for `drug` when retail captures the share `rate`. */
  function RecommendedAt(drug: Drug, rate: real): RecommendedPath {
    Recommendation(Options(RetailMargin(drug, rate).1, MedicareMargin(drug), CommercialMargin(drug))).0
  }

  /** The sensitivity line for one capture rate. */
  function SensitivityAt(drug: Drug, rate: real): SensitivityRow {
    SensitivityRow(rate, RetailMargin(drug, rate).1, MedicareMargin(drug).GetOr(0.0),
                   CommercialMargin(drug).GetOr(0.0), PathValue(RecommendedAt(drug, rate)))
  }

  /**
   * `calculate_margin_sensitivity`: one line per capture rate, in the order
   * given (the default rates when none are given), each with the net retail
   * margin at that rate and the pathway recommended at that rate.
   */
  method CalculateMarginSensitivity(drug: Drug, captureRates: Option<seq<real>> := None)
    returns (results: seq<SensitivityRow>)
    ensures var rates := captureRates.GetOr(DefaultCaptureRates);
            && |results| == |rates|
            && forall i :: 0 <= i < |rates| ==> results[i] == SensitivityAt(drug, rates[i])
  {
    var rates := captureRates.GetOr(DefaultCaptureRates);
    results := [];
    var medicare := MedicareMargin(drug);
    var commercial := CommercialMargin(drug);
    for n := 0 to |rates|
      invariant |results| == n
      invariant forall i :: 0 <= i < n ==> results[i] == SensitivityAt(drug, rates[i])
    {
      var rate := rates[n];
      var (_, retailNet) := RetailMargin(drug, rate);
      var bestPath, _ := DetermineRecommendation(retailNet, medicare, commercial);
      var row := SensitivityRow(rate, retailNet, medicare.GetOr(0.0), commercial.GetOr(0.0), PathValue(bestPath));
      assert row == SensitivityAt(drug, rate);
      results := results + [row];
    }
  }

  /**
   * Across the sensitivity table the medical margins stay fixed and each net
   * retail margin is the net margin at full capture times that line's rate,
   * so the 40% line is 40% of the full-capture line.
   */
  lemma SensitivityProportional(drug: Drug, rate: real)
    ensures SensitivityAt(drug, rate).retailNet == RetailMargin(drug, 1.0).1 * rate
    ensures SensitivityAt(drug, rate).medicare == MedicareMargin(drug).GetOr(0.0)
    ensures SensitivityAt(drug, rate).commercial == CommercialMargin(drug).GetOr(0.0)
  {
    RetailMarginLinear(drug, rate, 1.0);
  }
}
