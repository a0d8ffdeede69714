/**
 * Penny-pricing detection (risk/penny_pricing.py): a drug whose NADAC price
 * per unit is at most ten cents, whose 340B discount is at least 95%, or whose
 * penny-pricing flag is set is "penny priced" and is kept out of the Top
 * Opportunities list.
 *
 * A NADAC table is a set of present columns and a sequence of rows; a null
 * cell is `None`. The penny-pricing cell is represented by its Python
 * truthiness.
 */
module PennyPricing {
  import opened Wrappers
  import opened Text
  import Seqs

  /** NADAC price per unit at or below which a drug is penny priced. */
  const PennyThreshold: real := 0.10
  /** 340B discount percentage at or above which a drug is penny priced. */
  const HighDiscountThreshold: real := 95.0

  datatype NadacColumn = NdcColumn | PennyColumn | DiscountColumn | PriceColumn

  /** One NADAC row: `ndc`, `penny_pricing` (truthiness), `total_discount_340b_pct`, `nadac_per_unit`. */
  datatype NadacRow = NadacRow(ndc: Option<string>, penny: bool, discount: Option<real>, pricePerUnit: Option<real>)

  datatype NadacTable = NadacTable(columns: set<NadacColumn>, rows: seq<NadacRow>)

  /** `str(row.get("ndc", ""))`: empty without the column, "None" for a null cell. */
  function RowNdcText(t: NadacTable, r: NadacRow): string {
    if NdcColumn !in t.columns then ""
    else match r.ndc
      case None => "None"
      case Some(s) => s
  }

  /** Why a drug was flagged; a later check overrides an earlier one. */
  datatype PennyReason = FlagSet | LowNadacPrice(price: real) | HighDiscount(pct: real)

  /** One entry of the flagged list. */
  datatype FlaggedDrug = FlaggedDrug(
    ndc: string,
    isPennyPriced: bool,
    discountPct: Option<real>,
    reason: PennyReason,
    shouldExclude: bool)

  /** The explicit flag is present and set. */
  predicate FlagSetIn(t: NadacTable, r: NadacRow) {
    PennyColumn in t.columns && r.penny
  }

  /** The discount is present and at least 95%. */
  predicate HighDiscountIn(t: NadacTable, r: NadacRow) {
    DiscountColumn in t.columns && r.discount.Some? && r.discount.value >= HighDiscountThreshold
  }

  /** The NADAC price per unit is present and at most ten cents. */
  predicate LowPriceIn(t: NadacTable, r: NadacRow) {
    PriceColumn in t.columns && r.pricePerUnit.Some? && r.pricePerUnit.value <= PennyThreshold
  }

  /** The table-wide scan's criterion: flag set or discount at least 95% (the price is not consulted). */
  predicate IsPennyRow(t: NadacTable, r: NadacRow) {
    FlagSetIn(t, r) || HighDiscountIn(t, r)
  }

  function PennyTest(t: NadacTable): NadacRow -> bool {
    r => IsPennyRow(t, r)
  }

  /** The entry a penny row produces: the discount reason overrides the flag reason. */
  function FlaggedEntry(t: NadacTable, r: NadacRow): FlaggedDrug {
    FlaggedDrug(RowNdcText(t, r), true, if DiscountColumn in t.columns then r.discount else None,
                if HighDiscountIn(t, r) then HighDiscount(r.discount.value) else FlagSet, true)
  }

  function Entries(t: NadacTable, rs: seq<NadacRow>): (es: seq<FlaggedDrug>)
    ensures |es| == |rs|
  {
    seq(|rs|, i requires 0 <= i < |rs| => FlaggedEntry(t, rs[i]))
  }

  /** The penny rows of the table, in table order. */
  function PennyRows(t: NadacTable): seq<NadacRow> {
    Seqs.Filter(t.rows, PennyTest(t))
  }

  /** The flagged list `check_penny_pricing` returns: one entry per penny row, in table order. */
  function FlaggedDrugs(t: NadacTable): (fs: seq<FlaggedDrug>)
    ensures |fs| <= |t.rows|
    ensures forall i :: 0 <= i < |fs| ==> fs[i].isPennyPriced && fs[i].shouldExclude
  {
    Entries(t, PennyRows(t))
  }

  /**
   * `check_penny_pricing`: scan the rows, flag each whose penny-pricing flag
   * is set or whose discount is at least 95%, and collect the flagged rows'
   * entries in table order; without either column nothing is flagged.
   */
  method CheckPennyPricing(t: NadacTable) returns (flagged: seq<FlaggedDrug>)
    ensures flagged == FlaggedDrugs(t)
    ensures PennyColumn !in t.columns && DiscountColumn !in t.columns ==> flagged == []
  {
    flagged := [];
    var hasPennyColumn := PennyColumn in t.columns;
    var hasDiscountColumn := DiscountColumn in t.columns;
    if !hasPennyColumn && !hasDiscountColumn {
      Seqs.FilterNone(t.rows, PennyTest(t));
      return;
    }
    for n := 0 to |t.rows|
      invariant flagged == Entries(t, Seqs.Filter(t.rows[..n], PennyTest(t)))
    {
      var row := t.rows[n];
      assert t.rows[..n + 1] == t.rows[..n] + [row];
      FlaggedStep(t, t.rows[..n], row);
      var ndc := RowNdcText(t, row);
      var isPenny := false;
      var reason: Option<PennyReason> := None;
      if hasPennyColumn && row.penny {
        isPenny := true;
        reason := Some(FlagSet);
      }
      assert isPenny == FlagSetIn(t, row) && (isPenny ==> reason == Some(FlagSet));
      if hasDiscountColumn {
        var discount := row.discount;
        if discount.Some? && discount.value >= HighDiscountThreshold {
          isPenny := true;
          reason := Some(HighDiscount(discount.value));
        }
      }
      assert isPenny == IsPennyRow(t, row);
      assert isPenny ==> reason == Some(FlaggedEntry(t, row).reason);
      if isPenny {
        var discountPct := if hasDiscountColumn then row.discount else None;
        flagged := flagged + [FlaggedDrug(ndc, true, discountPct, reason.value, true)];
      }
    }
    assert t.rows[..|t.rows|] == t.rows;
  }

  /** Scanning one more row appends that row's entry exactly when it is a penny row. */
  lemma FlaggedStep(t: NadacTable, prefix: seq<NadacRow>, row: NadacRow)
    ensures Entries(t, Seqs.Filter(prefix + [row], PennyTest(t)))
            == Entries(t, Seqs.Filter(prefix, PennyTest(t))) + (if IsPennyRow(t, row) then [FlaggedEntry(t, row)] else [])
  {
    Seqs.FilterAppend(prefix, [row], PennyTest(t));
    var f := Seqs.Filter(prefix, PennyTest(t));
    if IsPennyRow(t, row) {
      assert Seqs.Filter([row], PennyTest(t)) == [row];
      assert Entries(t, f + [row]) == Entries(t, f) + [FlaggedEntry(t, row)];
    } else {
      assert Seqs.Filter([row], PennyTest(t)) == [];
      assert f + [] == f;
    }
  }

  /**
   * The flagged list keeps table order and has exactly one entry per penny
   * row: a row is represented iff its flag is set or its discount is at
   * least 95%, and each entry reports the row's NDC and discount.
   */
  lemma FlaggedDrugsSpec(t: NadacTable)
    ensures Seqs.IsSubseq(PennyRows(t), t.rows)
    ensures forall i :: 0 <= i < |t.rows| ==> (t.rows[i] in PennyRows(t) <==> IsPennyRow(t, t.rows[i]))
    ensures forall i :: 0 <= i < |PennyRows(t)| ==> FlaggedDrugs(t)[i] == FlaggedEntry(t, PennyRows(t)[i])
  {
    Seqs.FilterIsSubseq(t.rows, PennyTest(t));
  }

  /** Three rows: flagged with 99.9%, unflagged with 50%, unflagged with 96%: the first and third are flagged. */
  lemma CheckPennyPricingExample(a: string, b: string, c: string)
    ensures var t := NadacTable({NdcColumn, PennyColumn, DiscountColumn},
                                [NadacRow(Some(a), true, Some(99.9), None),
                                 NadacRow(Some(b), false, Some(50.0), None),
                                 NadacRow(Some(c), false, Some(96.0), None)]);
            && |FlaggedDrugs(t)| == 2
            && FlaggedDrugs(t)[0].ndc == a && FlaggedDrugs(t)[0].reason == HighDiscount(99.9)
            && FlaggedDrugs(t)[1].ndc == c && FlaggedDrugs(t)[1].reason == HighDiscount(96.0)
  {
    var t := NadacTable({NdcColumn, PennyColumn, DiscountColumn},
                        [NadacRow(Some(a), true, Some(99.9), None),
                         NadacRow(Some(b), false, Some(50.0), None),
                         NadacRow(Some(c), false, Some(96.0), None)]);
    var p := PennyTest(t);
    assert p(t.rows[0]) && !p(t.rows[1]) && p(t.rows[2]);
    assert Seqs.Filter(t.rows[2..], p) == [t.rows[2]];
    assert Seqs.Filter(t.rows[1..], p) == [t.rows[2]];
    assert PennyRows(t) == [t.rows[0], t.rows[2]];
  }

  /** Assessment of one drug. */
  datatype PennyWarning = NadacUnavailable | NdcNotFound | PennyAlert(reason: PennyReason) | NoPennyPricing

  datatype PennyPricingStatus = PennyPricingStatus(
    isPennyPriced: bool,
    ndc: string,
    nadacPrice: Option<real>,
    discountPct: Option<real>,
    warning: PennyWarning,
    shouldExclude: bool)

  /** `s.replace("-", "").strip()`: the form in which NDCs are compared. */
  function CleanNdc(s: string): string {
    Strip(Remove(s, '-'))
  }

  /** The row's NDC, cleaned the same way, equals `key`; a null NDC matches nothing. */
  predicate RowMatches(r: NadacRow, key: string) {
    r.ndc.Some? && CleanNdc(r.ndc.value) == key
  }

  function MatchTest(key: string): NadacRow -> bool {
    r => RowMatches(r, key)
  }

  /** Index of the first row matching `key`, or -1. */
  function FirstMatch(rows: seq<NadacRow>, key: string): (i: int)
    ensures -1 <= i < |rows|
    ensures i >= 0 ==> RowMatches(rows[i], key)
    ensures forall j :: 0 <= j < |rows| && (i < 0 || j < i) ==> !RowMatches(rows[j], key)
  {
    Seqs.FirstIndex(rows, MatchTest(key))
  }

  /** The single-drug criterion: flag set, price at most ten cents, or discount at least 95%. */
  predicate IsPennyMatch(t: NadacTable, r: NadacRow) {
    FlagSetIn(t, r) || LowPriceIn(t, r) || HighDiscountIn(t, r)
  }

  /** The reason reported for a penny-priced match: the discount, else the price, else the flag. */
  function MatchReason(t: NadacTable, r: NadacRow): PennyReason {
    if HighDiscountIn(t, r) then HighDiscount(r.discount.value)
    else if LowPriceIn(t, r) then LowNadacPrice(r.pricePerUnit.value)
    else FlagSet
  }

  /**
   * `check_penny_pricing_for_drug`: without an NDC column, or without a row
   * whose cleaned NDC equals the cleaned input, the drug is not penny priced
   * and has no price or discount; otherwise the first matching row decides,
   * and the drug is excluded exactly when it is penny priced.
   */
  method CheckPennyPricingForDrug(ndc: string, t: NadacTable) returns (status: PennyPricingStatus)
    ensures status.ndc == ndc && status.shouldExclude == status.isPennyPriced
    ensures NdcColumn !in t.columns ==> status == PennyPricingStatus(false, ndc, None, None, NadacUnavailable, false)
    ensures NdcColumn in t.columns && FirstMatch(t.rows, CleanNdc(ndc)) < 0
            ==> status == PennyPricingStatus(false, ndc, None, None, NdcNotFound, false)
    ensures NdcColumn in t.columns && FirstMatch(t.rows, CleanNdc(ndc)) >= 0 ==>
            var r := t.rows[FirstMatch(t.rows, CleanNdc(ndc))];
            && status.nadacPrice == (if PriceColumn in t.columns then r.pricePerUnit else None)
            && status.discountPct == (if DiscountColumn in t.columns then r.discount else None)
            && (status.isPennyPriced <==> IsPennyMatch(t, r))
            && status.warning == (if IsPennyMatch(t, r) then PennyAlert(MatchReason(t, r)) else NoPennyPricing)
  {
    var ndcClean := CleanNdc(ndc);
    if NdcColumn !in t.columns {
      return PennyPricingStatus(false, ndc, None, None, NadacUnavailable, false);
    }
    var first := FirstMatch(t.rows, ndcClean);
    if first < 0 {
      return PennyPricingStatus(false, ndc, None, None, NdcNotFound, false);
    }
    var row := t.rows[first];
    var isPenny := false;
    var nadacPrice: Option<real> := None;
    var discountPct: Option<real> := None;
    var reason: Option<PennyReason> := None;
    if PennyColumn in t.columns && row.penny {
      isPenny := true;
      reason := Some(FlagSet);
    }
    if PriceColumn in t.columns {
      var price := row.pricePerUnit;
      if price.Some? {
        nadacPrice := price;
        if price.value <= PennyThreshold {
          isPenny := true;
          reason := Some(LowNadacPrice(price.value));
        }
      }
    }
    if DiscountColumn in t.columns {
      var discount := row.discount;
      if discount.Some? {
        discountPct := discount;
        if discount.value >= HighDiscountThreshold {
          isPenny := true;
          reason := Some(HighDiscount(discount.value));
        }
      }
    }
    var warning := if isPenny then PennyAlert(reason.value) else NoPennyPricing;
    status := PennyPricingStatus(isPenny, ndc, nadacPrice, discountPct, warning, isPenny);
  }

  /** A single row with a 99% discount makes its drug penny priced; one with 50% does not. */
  lemma CheckPennyPricingForDrugExample(key: string)
    ensures var high := NadacTable({NdcColumn, DiscountColumn}, [NadacRow(Some(key), false, Some(99.0), None)]);
            var normal := NadacTable({NdcColumn, DiscountColumn}, [NadacRow(Some(key), false, Some(50.0), None)]);
            && FirstMatch(high.rows, CleanNdc(key)) == 0 && IsPennyMatch(high, high.rows[0])
            && FirstMatch(normal.rows, CleanNdc(key)) == 0 && !IsPennyMatch(normal, normal.rows[0])
  {
    var high := NadacTable({NdcColumn, DiscountColumn}, [NadacRow(Some(key), false, Some(99.0), None)]);
    var normal := NadacTable({NdcColumn, DiscountColumn}, [NadacRow(Some(key), false, Some(50.0), None)]);
    assert RowMatches(high.rows[0], CleanNdc(key)) && RowMatches(normal.rows[0], CleanNdc(key));
  }

  /** An opportunity: its NDC (None when the key is missing), its margin and its penny-pricing flag's truthiness. */
  datatype Opportunity = Opportunity(ndc: Option<string>, margin: real, pennyPricing: bool)

  /** `str(opp.get("ndc", ""))`. */
  function OpportunityNdc(o: Opportunity): string {
    o.ndc.GetOr("")
  }

  /**
   * The NDCs to exclude: the given set; without one, the NDCs the NADAC scan
   * flags; without either, none.
   */
  function PennyNdcs(nadac: Option<NadacTable>, pennyNdcs: Option<set<string>>): set<string> {
    if pennyNdcs.None? && nadac.Some? then set e | e in FlaggedDrugs(nadac.value) :: e.ndc
    else if pennyNdcs.None? then {}
    else pennyNdcs.value
  }

  /** The opportunity survives: its NDC is not penny priced and its own flag is not set. */
  function Keep(penny: set<string>): Opportunity -> bool {
    o => !(OpportunityNdc(o) in penny || o.pennyPricing)
  }

  /**
   * `filter_top_opportunities`: drop every opportunity whose NDC is in the
   * penny set or whose own flag is set, counting the dropped ones, and keep
   * the rest in order.
   */
  method FilterTopOpportunities(opportunities: seq<Opportunity>, nadac: Option<NadacTable> := None,
                                pennyNdcs: Option<set<string>> := None)
    returns (filtered: seq<Opportunity>)
    ensures filtered == Seqs.Filter(opportunities, Keep(PennyNdcs(nadac, pennyNdcs)))
  {
    var penny: set<string>;
    if pennyNdcs.None? && nadac.Some? {
      var flagged := CheckPennyPricing(nadac.value);
      penny := set e | e in flagged :: e.ndc;
    } else if pennyNdcs.None? {
      penny := {};
    } else {
      penny := pennyNdcs.value;
    }
    filtered := [];
    var excludedCount := 0;
    for n := 0 to |opportunities|
      invariant filtered == Seqs.Filter(opportunities[..n], Keep(penny))
      invariant excludedCount == n - |filtered|
    {
      var opp := opportunities[n];
      assert opportunities[..n + 1] == opportunities[..n] + [opp];
      Seqs.FilterAppend(opportunities[..n], [opp], Keep(penny));
      var ndc := OpportunityNdc(opp);
      var isPenny := opp.pennyPricing;
      if ndc in penny || isPenny {
        excludedCount := excludedCount + 1;
        continue;
      }
      filtered := filtered + [opp];
    }
    assert opportunities[..|opportunities|] == opportunities;
  }

  /**
   * The surviving opportunities are a subsequence of the input, none of them
   * penny priced, and every opportunity that is neither in the penny set nor
   * flagged survives.
   */
  lemma TopOpportunitiesExclusion(opportunities: seq<Opportunity>, penny: set<string>)
    ensures var kept := Seqs.Filter(opportunities, Keep(penny));
            && Seqs.IsSubseq(kept, opportunities)
            && (forall i :: 0 <= i < |kept| ==> OpportunityNdc(kept[i]) !in penny && !kept[i].pennyPricing)
            && (forall i :: 0 <= i < |opportunities| ==>
                  (opportunities[i] in kept <==> OpportunityNdc(opportunities[i]) !in penny && !opportunities[i].pennyPricing))
  {
    Seqs.FilterIsSubseq(opportunities, Keep(penny));
  }

  /** The highest-margin opportunity is dropped when it is flagged, leaving the other two in order. */
  lemma FilterTopOpportunitiesExample(a: string, b: string, c: string)
    ensures var opps := [Opportunity(Some(a), 1000.0, false), Opportunity(Some(b), 5000.0, true),
                         Opportunity(Some(c), 2000.0, false)];
            Seqs.Filter(opps, Keep(PennyNdcs(None, None))) == [opps[0], opps[2]]
  {
  }

  /** `get_penny_pricing_summary` without the rounding of the percentage. */
  datatype PennySummary = PennySummary(
    totalDrugs: nat,
    pennyPricedCount: nat,
    pennyPricedPct: real,
    flaggedNdcs: seq<string>)

  /**
   * The summary counts the table's rows and its flagged drugs, reports the
   * flagged share as a percentage (0 for an empty table) and lists the flagged
   * NDCs in order.
   */
  function GetPennyPricingSummary(t: NadacTable): (s: PennySummary)
    ensures s.totalDrugs == |t.rows| && s.pennyPricedCount == |FlaggedDrugs(t)|
    ensures s.pennyPricedCount <= s.totalDrugs
    ensures 0.0 <= s.pennyPricedPct <= 100.0
    ensures s.totalDrugs == 0 ==> s.pennyPricedPct == 0.0
    ensures s.pennyPricedPct == Percent(s.pennyPricedCount, s.totalDrugs)
    ensures |s.flaggedNdcs| == s.pennyPricedCount
    ensures forall i :: 0 <= i < |s.flaggedNdcs| ==> s.flaggedNdcs[i] == FlaggedDrugs(t)[i].ndc
  {
    var flagged := FlaggedDrugs(t);
    var total := |t.rows|;
    var count := |flagged|;
    PennySummary(total, count, Percent(count, total), seq(|flagged|, i requires 0 <= i < |flagged| => flagged[i].ndc))
  }

  /** The share `count / total` as a percentage, 0 for an empty table. */
  function Percent(count: nat, total: nat): (p: real)
    requires count <= total
    ensures 0.0 <= p <= 100.0
    ensures total == 0 ==> p == 0.0
    ensures total > 0 ==> p * total as real == count as real * 100.0
  {
    if total > 0 then
      assert count as real / total as real <= 1.0;
      count as real / total as real * 100.0
    else 0.0
  }
}
