/**
 * The NDC Lookup page's batch computation (ui/pages/ndc_lookup.py): an
 * uploaded list of drugs, each with a name, an NDC and a drug type, is
 * matched by normalised NDC against the product catalog; every row reports
 * whether the catalog's drug name agrees with the uploaded one and the
 * pharmacy channel margin AWP x rate - 340B contract cost.
 *
 * A DataFrame is a set of present columns and a sequence of rows; a null
 * cell is `None`, and a non-null cell is given as the text `str()` renders
 * for it. Decimal arithmetic is exact `real` arithmetic.
 */
module NdcLookup {
  import opened Wrappers
  import opened Text
  import Seqs

  /** `AWP_MULTIPLIERS`: the share of AWP the pharmacy channel pays, by drug type. */
  const AwpMultipliers: map<string, real> := map["BRAND" := 0.85, "SPECIALTY" := 0.85, "GENERIC" := 0.20]

  /** The multiplier of a drug type missing from `AwpMultipliers`. */
  const DefaultAwpMultiplier: real := 0.85

  /** Width of an NDC11. */
  const NdcWidth: nat := 11

  // ---------------------------------------------------------------------------
  // NDC normalisation and name comparison

  /**
   * `_normalize_ndc`: a missing (NaN or null) value gives ""; otherwise the
   * digits of the value's text, left-padded with zeros to 11 characters and
   * never cut.
   */
  function NormalizeNdc(ndc: Option<string>): (r: string)
    ensures ndc.None? ==> r == ""
    ensures ndc.Some? ==>
              var d := Digits(ndc.value);
              && |r| == (if |d| < NdcWidth then NdcWidth else |d|)
              && r == Zeros(|r| - |d|) + d
    ensures forall i :: 0 <= i < |r| ==> IsDigit(r[i])
  {
    match ndc
    case None => ""
    case Some(s) =>
      DigitsStrip(s);
      ZFill(Digits(Strip(s)), NdcWidth)
  }

  /** Normalising an NDC that is already normalised changes nothing. */
  lemma NormalizeNdcIdempotent(ndc: string)
    ensures NormalizeNdc(Some(NormalizeNdc(Some(ndc)))) == NormalizeNdc(Some(ndc))
  {
    var r := NormalizeNdc(Some(ndc));
    assert Digits(r) == r;
  }

  /** Only a missing value normalises to the empty key; any text, even one without digits, gives 11 characters or more. */
  lemma NormalizeNdcEmpty(ndc: Option<string>)
    ensures NormalizeNdc(ndc) == "" <==> ndc.None?
    ensures ndc.Some? ==> |NormalizeNdc(ndc)| >= NdcWidth
  {
  }

  /** `_names_match`: both names non-empty and equal once upper-cased and stripped. */
  function NamesMatch(a: string, b: string): (r: bool)
    ensures r ==> a != [] && b != []
  {
    a != [] && b != [] && Strip(Upper(a)) == Strip(Upper(b))
  }

  lemma UpperIdempotent(s: string)
    ensures Upper(Upper(s)) == Upper(s)
  {
    UpperNoop(Upper(s));
  }

  /**
   * The comparison is symmetric and ignores case: upper-casing either side
   * first changes nothing, and every non-empty name matches itself.
   */
  lemma NamesMatchProperties(a: string, b: string)
    ensures NamesMatch(a, b) == NamesMatch(b, a)
    ensures NamesMatch(Upper(a), b) == NamesMatch(a, b)
    ensures NamesMatch(a, a) <==> a != []
  {
    UpperIdempotent(a);
  }

  // ---------------------------------------------------------------------------
  // Trade names

  /** The patterns that end the trade name within a description. */
  const StopPatterns: seq<string> := [
    " MG", " MCG", " ML", " TB", " CP", " SY", " VL", " PR", " KT",
    " IN", " GL", " AP", " SF", " PF", " PPN", " PFS", " SPD",
    " 0.", " 1.", " 2.", " 3.", " 4.", " 5.", " 6.", " 7.", " 8.", " 9.",
    " 10", " 20", " 30", " 40", " 50", " 60", " 70", " 80", " 90",
    " 100", " 200", " 300", " 400", " 500"]

  /**
   * The earliest position above 0 at which one of `patterns` is first found
   * in `u`, or `|u|` when none is found there: no pattern's first occurrence
   * lies above 0 and before the result, and the result is such an occurrence
   * unless it is `|u|`.
   */
  function EarliestStop(u: string, patterns: seq<string>): (e: int)
    ensures 0 <= e <= |u|
    ensures e < |u| ==> 0 < e
    ensures e == |u| || exists p :: p in patterns && Find(u, p) == e
    ensures forall p :: p in patterns && 0 < Find(u, p) ==> e <= Find(u, p)
  {
    if patterns == [] then |u|
    else
      var prefix := patterns[..|patterns| - 1];
      var last := patterns[|patterns| - 1];
      assert forall p :: p in patterns <==> p in prefix || p == last;
      var e := EarliestStop(u, prefix);
      var pos := Find(u, last);
      if 0 < pos < e then pos else e
  }

  /** `_extract_trade_name` as a value: "" for an empty description, else the upper-cased description up to its earliest stop, stripped. */
  function TradeName(description: string): string {
    if description == [] then []
    else
      var u := Upper(description);
      Strip(u[..EarliestStop(u, StopPatterns)])
  }

  lemma EarliestStopSnoc(u: string, patterns: seq<string>, n: nat)
    requires n < |patterns|
    ensures EarliestStop(u, patterns[..n + 1])
            == var e := EarliestStop(u, patterns[..n]);
               var pos := Find(u, patterns[n]);
               if 0 < pos < e then pos else e
  {
    assert patterns[..n + 1][..n] == patterns[..n];
  }

  /**
   * `_extract_trade_name`: scan the stop patterns, keeping the earliest
   * position above 0 at which one is found, and return the stripped
   * upper-cased text before it.
   */
  method ExtractTradeName(description: string) returns (name: string)
    ensures name == TradeName(description)
  {
    if description == [] {
      return "";
    }
    var descUpper := Upper(description);
    var earliestPos := |descUpper|;
    for n := 0 to |StopPatterns|
      invariant earliestPos == EarliestStop(descUpper, StopPatterns[..n])
    {
      EarliestStopSnoc(descUpper, StopPatterns, n);
      var pos := Find(descUpper, StopPatterns[n]);
      if 0 < pos < earliestPos {
        earliestPos := pos;
      }
    }
    assert StopPatterns[..|StopPatterns|] == StopPatterns;
    name := Strip(descUpper[..earliestPos]);
  }

  /**
   * The trade name is upper case and stripped, and it is the whole
   * description, upper-cased and stripped, when no stop pattern is found
   * past its first character.
   */
  lemma TradeNameSpec(description: string)
    ensures Upper(TradeName(description)) == TradeName(description)
    ensures Strip(TradeName(description)) == TradeName(description)
    ensures (forall p :: p in StopPatterns ==> Find(Upper(description), p) <= 0)
            ==> TradeName(description) == Strip(Upper(description))
  {
    if description != [] {
      var u := Upper(description);
      var e := EarliestStop(u, StopPatterns);
      var t := TradeName(description);
      StripChars(u[..e]);
      forall i | 0 <= i < |t| ensures !IsLower(t[i]) {
        assert t[i] in u[..e];
      }
      UpperNoop(t);
      StripNoop(t);
      assert u[..|u|] == u;
    }
  }

  /** Upper-casing a description first does not change its trade name. */
  lemma TradeNameUpper(description: string)
    ensures TradeName(Upper(description)) == TradeName(description)
  {
    UpperIdempotent(description);
  }

  // ---------------------------------------------------------------------------
  // Match status

  /** The four match statuses: "NDC NOT FOUND", "NO CATALOG NAME", "MATCH" and "MISMATCH - VERIFY". */
  datatype MatchStatus = NdcNotFound | NoCatalogName | Match | MismatchVerify

  /**
   * `_determine_match_status`: an NDC that is not in the catalog, then a
   * missing or empty catalog name, each fail; otherwise the trade names of
   * the two names decide between a match and a mismatch. The flag is true
   * for a match only.
   */
  function DetermineMatchStatus(inputName: string, catalogName: Option<string>, ndcFound: bool): (r: (MatchStatus, bool))
    ensures r.1 <==> r.0 == Match
    ensures !ndcFound <==> r.0 == NdcNotFound
    ensures ndcFound && (catalogName.None? || catalogName.value == []) ==> r.0 == NoCatalogName
  {
    if !ndcFound then (NdcNotFound, false)
    else if catalogName.None? || catalogName.value == [] then (NoCatalogName, false)
    else if NamesMatch(TradeName(inputName), TradeName(catalogName.value)) then (Match, true)
    else (MismatchVerify, false)
  }

  /**
   * A match is exactly a found NDC with a non-empty catalog name whose trade
   * name equals the input's, which is non-empty.
   */
  lemma DetermineMatchStatusSpec(inputName: string, catalogName: string, ndcFound: bool)
    ensures DetermineMatchStatus(inputName, Some(catalogName), ndcFound).0 == Match
            <==> ndcFound && catalogName != [] && TradeName(inputName) != []
                 && TradeName(inputName) == TradeName(catalogName)
  {
    TradeNameSpec(inputName);
    TradeNameSpec(catalogName);
  }

  /** The status does not depend on case, and swapping two non-empty names does not change it. */
  lemma DetermineMatchStatusSymmetric(inputName: string, catalogName: string, ndcFound: bool)
    ensures DetermineMatchStatus(Upper(inputName), Some(Upper(catalogName)), ndcFound)
            == DetermineMatchStatus(inputName, Some(catalogName), ndcFound)
    ensures inputName != [] && catalogName != [] ==>
              DetermineMatchStatus(catalogName, Some(inputName), ndcFound) == DetermineMatchStatus(inputName, Some(catalogName), ndcFound)
  {
    TradeNameUpper(inputName);
    TradeNameUpper(catalogName);
  }

  // ---------------------------------------------------------------------------
  // The catalog lookup

  /** A price cell converted with `Decimal(str(value))`: null, a number, or text. */
  datatype PriceCell = NullCell | Number(x: real) | TextCell(s: string)

  datatype CatalogColumn = NdcColumn | DescriptionColumn | CostColumn | AwpColumn

  /** A product catalog row: `NDC`, `Product Description`, `Contract Cost`, `Medispan AWP`. */
  datatype CatalogRow = CatalogRow(ndc: Option<string>, description: Option<string>, cost: PriceCell, awp: PriceCell)

  datatype Catalog = Catalog(columns: set<CatalogColumn>, rows: seq<CatalogRow>)

  /** What the lookup stores per NDC: drug name, contract cost and AWP. */
  datatype CatalogEntry = CatalogEntry(drugName: string, contractCost: Option<real>, awp: Option<real>)

  /**
   * The outcome of the catalog's conversion `Decimal(str(value))` inside
   * `try ... except (ValueError, TypeError)`: a value (None for a null cell),
   * or the decimal module's InvalidOperation, which that clause does not
   * catch. `parse` is the Decimal constructor's string syntax.
   */
  datatype Conversion = Converted(value: Option<real>) | RaisesInvalidOperation

  /** The conversion as written: text that is not a decimal number raises out of the lookup. */
  function DecimalAsWritten(c: PriceCell, parse: string -> Option<real>): (r: Conversion)
    ensures r.RaisesInvalidOperation? <==> c.TextCell? && parse(c.s).None?
    ensures r.Converted? && r.value.None? <==> c.NullCell?
  {
    match c
    case NullCell => Converted(None)
    case Number(x) => Converted(Some(x))
    case TextCell(s) => if parse(s).Some? then Converted(parse(s)) else RaisesInvalidOperation
  }

  /**
   * The conversion as the handler evidently intends: a value that cannot be
   * converted becomes None, like a null cell; whatever converts agrees with
   * the conversion as written.
   */
  function ToDecimal(c: PriceCell, parse: string -> Option<real>): (r: Option<real>)
    ensures r.None? <==> c.NullCell? || (c.TextCell? && parse(c.s).None?)
    ensures DecimalAsWritten(c, parse).Converted? ==> r == DecimalAsWritten(c, parse).value
  {
    match c
    case NullCell => None
    case Number(x) => Some(x)
    case TextCell(s) => parse(s)
  }

  /** A contract cost of "N/A" (any text that is no decimal) aborts the lookup as written, but becomes a missing cost as intended. */
  lemma UnparseablePriceRaises(s: string, parse: string -> Option<real>)
    requires parse(s).None?
    ensures DecimalAsWritten(TextCell(s), parse) == RaisesInvalidOperation
    ensures ToDecimal(TextCell(s), parse) == None
  {
  }

  /** The entry a catalog row would store, its absent columns read as "" and None. */
  function EntryOf(t: Catalog, parse: string -> Option<real>, r: CatalogRow): CatalogEntry {
    CatalogEntry(
      if DescriptionColumn in t.columns then r.description.GetOr("None") else "",
      if CostColumn in t.columns then ToDecimal(r.cost, parse) else None,
      if AwpColumn in t.columns then ToDecimal(r.awp, parse) else None)
  }

  function CostOf(t: Catalog, parse: string -> Option<real>, r: CatalogRow): Option<real> {
    EntryOf(t, parse, r).contractCost
  }

  /** A cost that displaces a stored one: present, and the stored one absent or higher. */
  predicate Lower(a: Option<real>, b: Option<real>) {
    a.Some? && (b.None? || a.value < b.value)
  }

  /** One row of the loop of `_build_catalog_lookup`. */
  function Admit(t: Catalog, parse: string -> Option<real>, lookup: map<string, CatalogEntry>, r: CatalogRow): map<string, CatalogEntry> {
    var ndc11 := NormalizeNdc(r.ndc);
    var e := EntryOf(t, parse, r);
    if ndc11 == [] then lookup
    else if ndc11 !in lookup then lookup[ndc11 := e]
    else if Lower(e.contractCost, lookup[ndc11].contractCost) then lookup[ndc11 := e]
    else lookup
  }

  /** The lookup after the loop has seen `rows`. */
  function LookupOf(t: Catalog, parse: string -> Option<real>, rows: seq<CatalogRow>): map<string, CatalogEntry> {
    if rows == [] then map[]
    else Admit(t, parse, LookupOf(t, parse, rows[..|rows| - 1]), rows[|rows| - 1])
  }

  /** `_build_catalog_lookup` as a value: empty without an NDC column. */
  function CatalogLookup(t: Catalog, parse: string -> Option<real>): map<string, CatalogEntry> {
    if NdcColumn !in t.columns then map[] else LookupOf(t, parse, t.rows)
  }

  lemma LookupOfSnoc(t: Catalog, parse: string -> Option<real>, rows: seq<CatalogRow>, n: nat)
    requires n < |rows|
    ensures LookupOf(t, parse, rows[..n + 1]) == Admit(t, parse, LookupOf(t, parse, rows[..n]), rows[n])
  {
    assert rows[..n + 1][..n] == rows[..n];
  }

  /**
   * `_build_catalog_lookup`: without an NDC column the lookup is empty;
   * otherwise each row with an NDC is stored under its normalised NDC unless
   * an entry is there already that it does not undercut in contract cost.
   */
  method BuildCatalogLookup(t: Catalog, parse: string -> Option<real>) returns (lookup: map<string, CatalogEntry>)
    ensures lookup == CatalogLookup(t, parse)
  {
    lookup := map[];
    var hasName := DescriptionColumn in t.columns;
    var hasCost := CostColumn in t.columns;
    var hasAwp := AwpColumn in t.columns;
    if NdcColumn !in t.columns {
      return;
    }
    for n := 0 to |t.rows|
      invariant lookup == LookupOf(t, parse, t.rows[..n])
    {
      LookupOfSnoc(t, parse, t.rows, n);
      var row := t.rows[n];
      var ndc11 := NormalizeNdc(row.ndc);
      if ndc11 == [] {
        continue;
      }
      var drugName := if hasName then row.description.GetOr("None") else "";
      var contractCost := if hasCost then ToDecimal(row.cost, parse) else None;
      var awp := if hasAwp then ToDecimal(row.awp, parse) else None;
      var entry := CatalogEntry(drugName, contractCost, awp);
      if ndc11 !in lookup {
        lookup := lookup[ndc11 := entry];
      } else {
        var existingCost := lookup[ndc11].contractCost;
        if contractCost.Some? && (existingCost.None? || contractCost.value < existingCost.value) {
          lookup := lookup[ndc11 := entry];
        }
      }
    }
    assert t.rows[..|t.rows|] == t.rows;
  }

  /** The normalised NDC under which a row is stored. */
  function RowKey(r: CatalogRow): string {
    NormalizeNdc(r.ndc)
  }

  function KeyFn(): CatalogRow -> string {
    r => RowKey(r)
  }

  function CostFn(t: Catalog, parse: string -> Option<real>): CatalogRow -> Option<real> {
    r => CostOf(t, parse, r)
  }

  /**
   * The row the lookup keeps for key `k`, given each row's key and cost, or
   * -1 when no row has that key (`CheapestRowLowest` and `CheapestRowFirst`
   * say which row it is).
   */
  function CheapestRow(rows: seq<CatalogRow>, key: CatalogRow -> string, cost: CatalogRow -> Option<real>, k: string): (i: int)
    ensures -1 <= i < |rows|
    ensures i >= 0 ==> k != [] && key(rows[i]) == k
    ensures i < 0 ==> k == [] || forall j :: 0 <= j < |rows| ==> key(rows[j]) != k
  {
    if rows == [] then -1
    else
      var n := |rows| - 1;
      var c := CheapestRow(rows[..n], key, cost, k);
      assert c >= 0 ==> rows[..n][c] == rows[c];
      assert forall j :: 0 <= j < n ==> rows[..n][j] == rows[j];
      if k == [] || key(rows[n]) != k then c
      else if c < 0 then n
      else if Lower(cost(rows[n]), cost(rows[c])) then n
      else c
  }

  /** No row with key `k` has a lower cost than the kept row, and if any has a cost, the kept row has one. */
  lemma {:induction false} CheapestRowLowest(rows: seq<CatalogRow>, key: CatalogRow -> string, cost: CatalogRow -> Option<real>,
                                             k: string, j: nat)
    requires j < |rows| && k != [] && key(rows[j]) == k && cost(rows[j]).Some?
    ensures var i := CheapestRow(rows, key, cost, k);
            && 0 <= i && cost(rows[i]).Some?
            && cost(rows[i]).value <= cost(rows[j]).value
  {
    var n := |rows| - 1;
    var c := CheapestRow(rows[..n], key, cost, k);
    if j < n {
      assert rows[..n][j] == rows[j];
      CheapestRowLowest(rows[..n], key, cost, k, j);
      assert rows[..n][c] == rows[c];
    } else if c >= 0 {
      assert rows[..n][c] == rows[c];
    }
  }

  /**
   * Every earlier row with key `k` is dearer than the kept row or has no
   * cost, and the kept row has a cost: ties keep the first row, and a row
   * without cost is kept only when it is the first row with its key and no
   * row with that key has a cost.
   */
  lemma {:induction false} CheapestRowFirst(rows: seq<CatalogRow>, key: CatalogRow -> string, cost: CatalogRow -> Option<real>,
                                            k: string, j: nat)
    requires j < CheapestRow(rows, key, cost, k) && key(rows[j]) == k
    ensures var i := CheapestRow(rows, key, cost, k);
            && cost(rows[i]).Some?
            && (cost(rows[j]).None? || cost(rows[i]).value < cost(rows[j]).value)
  {
    var n := |rows| - 1;
    var c := CheapestRow(rows[..n], key, cost, k);
    var i := CheapestRow(rows, key, cost, k);
    assert rows[..n][j] == rows[j];
    if i == n {
      assert c >= 0;
      assert rows[..n][c] == rows[c];
      if cost(rows[j]).Some? {
        CheapestRowLowest(rows[..n], key, cost, k, j);
      }
    } else {
      CheapestRowFirst(rows[..n], key, cost, k, j);
      assert rows[..n][i] == rows[i];
    }
  }

  /** The lookup holds a key exactly when some row has it, and stores that key's cheapest row. */
  lemma {:induction false} LookupOfCheapest(t: Catalog, parse: string -> Option<real>, rows: seq<CatalogRow>, k: string)
    ensures k in LookupOf(t, parse, rows) <==> CheapestRow(rows, KeyFn(), CostFn(t, parse), k) >= 0
    ensures k in LookupOf(t, parse, rows) ==> LookupOf(t, parse, rows)[k] == EntryOf(t, parse, rows[CheapestRow(rows, KeyFn(), CostFn(t, parse), k)])
  {
    if rows != [] {
      var n := |rows| - 1;
      LookupOfCheapest(t, parse, rows[..n], k);
      assert rows[..n][..] == rows[..n];
      var c := CheapestRow(rows[..n], KeyFn(), CostFn(t, parse), k);
      if c >= 0 {
        assert rows[..n][c] == rows[c];
      }
    }
  }

  /**
   * The catalog lookup has one entry per normalised NDC of a row, none
   * without an NDC column and none under the empty key; each entry is the
   * row of lowest contract cost, the first one on a tie.
   */
  lemma CatalogLookupSpec(t: Catalog, parse: string -> Option<real>, k: string)
    ensures NdcColumn !in t.columns ==> CatalogLookup(t, parse) == map[]
    ensures "" !in CatalogLookup(t, parse)
    ensures NdcColumn in t.columns ==>
              (k in CatalogLookup(t, parse) <==> k != [] && exists j :: 0 <= j < |t.rows| && RowKey(t.rows[j]) == k)
    ensures k in CatalogLookup(t, parse) ==>
              var i := CheapestRow(t.rows, KeyFn(), CostFn(t, parse), k);
              0 <= i && CatalogLookup(t, parse)[k] == EntryOf(t, parse, t.rows[i])
  {
    LookupOfCheapest(t, parse, t.rows, k);
    LookupOfCheapest(t, parse, t.rows, "");
  }

  // ---------------------------------------------------------------------------
  // Pharmacy margins

  /** `AWP_MULTIPLIERS.get(drug_type.upper(), 0.85)`: 0.20 for a generic, 0.85 for any other type. */
  function AwpMultiplier(drugType: string): (m: real)
    ensures m == (if Upper(drugType) == "GENERIC" then 0.20 else 0.85)
  {
    var key := Upper(drugType);
    if key in AwpMultipliers then AwpMultipliers[key] else DefaultAwpMultiplier
  }

  /** The pharmacy Medicaid margin (never available: the catalog has no NADAC) and the Medicare/Commercial margin. */
  datatype PharmacyMargins = PharmacyMargins(medicaid: Option<real>, medicareCommercial: Option<real>)

  /**
   * `_calculate_pharmacy_margins`: no Medicaid margin; the Medicare/Commercial
   * margin is AWP times the type's multiplier less the contract cost, when
   * both prices are known.
   */
  function CalculatePharmacyMargins(contractCost: Option<real>, awp: Option<real>, drugType: string): (r: PharmacyMargins)
    ensures r.medicaid == None
    ensures r.medicareCommercial.Some? <==> contractCost.Some? && awp.Some?
    ensures r.medicareCommercial.Some? ==>
              (r.medicareCommercial.value > 0.0 <==> awp.value * AwpMultiplier(drugType) > contractCost.value)
  {
    var medicaidMargin := None;
    if contractCost.Some? && awp.Some? then
      PharmacyMargins(medicaidMargin, Some(awp.value * AwpMultiplier(drugType) - contractCost.value))
    else
      PharmacyMargins(medicaidMargin, None)
  }

  /** The drug type counts only as generic or not, in any case: every other type is priced as a brand. */
  lemma PharmacyMarginsByType(contractCost: Option<real>, awp: Option<real>, drugType: string)
    ensures CalculatePharmacyMargins(contractCost, awp, drugType)
            == CalculatePharmacyMargins(contractCost, awp, if Upper(drugType) == "GENERIC" then "GENERIC" else "BRAND")
  {
    AwpMultiplierByType(drugType);
  }

  /** Only whether the upper-cased type is `GENERIC` decides the multiplier. */
  lemma AwpMultiplierByType(drugType: string)
    ensures AwpMultiplier(drugType) == AwpMultiplier(if Upper(drugType) == "GENERIC" then "GENERIC" else "BRAND")
  {
    CanonicalTypes();
  }

  /** The two canonical type names are their own upper case, and differ. */
  lemma CanonicalTypes()
    ensures Upper("GENERIC") == "GENERIC" && Upper("BRAND") == "BRAND" && "BRAND" != "GENERIC"
  {
    UpperNoop("GENERIC");
    UpperNoop("BRAND");
    assert "BRAND"[0] != "GENERIC"[0];
  }

  // ---------------------------------------------------------------------------
  // The batch

  /**
   * One uploaded row: `Drug Description`, `NDC11` (None when missing), `Type`
   * and `Product Description`, as `str()` renders them.
   */
  datatype InputRow = InputRow(drugDescription: string, ndc: Option<string>, drugType: string, productDescription: string)

  /** One result row, the prices as values rather than currency text. */
  datatype NdcResult = NdcResult(
    inputName: string,
    ndc11: string,
    matchStatus: MatchStatus,
    catalogDescription: string,
    drugType: string,
    contractCost: Option<real>,
    awp: Option<real>,
    medicaidMargin: Option<real>,
    medicareCommercialMargin: Option<real>)

  /** The result of one uploaded row against the catalog lookup. */
  function ResultFor(lookup: map<string, CatalogEntry>, row: InputRow): NdcResult {
    var inputName := Strip(row.drugDescription);
    var drugType := Strip(Upper(row.drugType));
    var ndc11 := NormalizeNdc(row.ndc);
    if ndc11 in lookup then
      var e := lookup[ndc11];
      var margins := CalculatePharmacyMargins(e.contractCost, e.awp, drugType);
      NdcResult(inputName, ndc11, DetermineMatchStatus(inputName, Some(e.drugName), true).0, e.drugName, drugType,
                e.contractCost, e.awp, margins.medicaid, margins.medicareCommercial)
    else
      NdcResult(inputName, ndc11, DetermineMatchStatus(inputName, None, false).0, "", drugType, None, None, None, None)
  }

  function ResultWith(lookup: map<string, CatalogEntry>): InputRow -> NdcResult {
    row => ResultFor(lookup, row)
  }

  /** `_process_ndc_lookup`: build the catalog lookup, then one result per uploaded row, in upload order. */
  method ProcessNdcLookup(input: seq<InputRow>, catalog: Catalog, parse: string -> Option<real>) returns (results: seq<NdcResult>)
    ensures results == Seqs.Map(input, ResultWith(CatalogLookup(catalog, parse)))
  {
    var catalogLookup := BuildCatalogLookup(catalog, parse);
    results := [];
    for n := 0 to |input|
      invariant results == Seqs.Map(input[..n], ResultWith(catalogLookup))
    {
      Seqs.MapSnoc(input, n, ResultWith(catalogLookup));
      var row := input[n];
      var inputName := Strip(row.drugDescription);
      var drugType := Strip(Upper(row.drugType));
      var expectedDesc := Strip(row.productDescription);
      var ndc11 := NormalizeNdc(row.ndc);
      var result;
      if ndc11 in catalogLookup {
        var catalogData := catalogLookup[ndc11];
        var matchStatus := DetermineMatchStatus(inputName, Some(catalogData.drugName), true);
        var margins := CalculatePharmacyMargins(catalogData.contractCost, catalogData.awp, drugType);
        result := NdcResult(inputName, ndc11, matchStatus.0, catalogData.drugName, drugType,
                            catalogData.contractCost, catalogData.awp, margins.medicaid, margins.medicareCommercial);
      } else {
        var matchStatus := DetermineMatchStatus(inputName, None, false);
        result := NdcResult(inputName, ndc11, matchStatus.0, "", drugType, None, None, None, None);
      }
      results := results + [result];
    }
    assert input[..|input|] == input;
  }

  /**
   * Each uploaded row gets its normalised NDC and upper-cased type; a row
   * whose NDC is not in the catalog, in particular one without an NDC, is
   * "NDC NOT FOUND" with neither margin; a found row reports the prices of
   * the catalog's cheapest row for that NDC, and its margin exists exactly
   * when both prices do.
   */
  lemma ProcessNdcLookupSpec(input: seq<InputRow>, catalog: Catalog, parse: string -> Option<real>, i: nat)
    requires i < |input|
    ensures var r := Seqs.Map(input, ResultWith(CatalogLookup(catalog, parse)))[i];
            var ndc11 := NormalizeNdc(input[i].ndc);
            && r.ndc11 == ndc11
            && r.drugType == Strip(Upper(input[i].drugType))
            && r.medicaidMargin == None
            && (input[i].ndc.None? ==> r.matchStatus == NdcNotFound)
            && (ndc11 !in CatalogLookup(catalog, parse) ==>
                  r.matchStatus == NdcNotFound && r.medicareCommercialMargin == None && r.contractCost == None)
            && (ndc11 in CatalogLookup(catalog, parse) ==>
                  var i := CheapestRow(catalog.rows, KeyFn(), CostFn(catalog, parse), ndc11);
                  0 <= i &&
                  var e := EntryOf(catalog, parse, catalog.rows[i]);
                  && r.contractCost == e.contractCost && r.awp == e.awp && r.catalogDescription == e.drugName
                  && (r.medicareCommercialMargin.Some? <==> e.contractCost.Some? && e.awp.Some?)
                  && r.matchStatus != NdcNotFound)
  {
    var lookup := CatalogLookup(catalog, parse);
    assert Seqs.Map(input, ResultWith(lookup))[i] == ResultFor(lookup, input[i]);
    ResultForSpec(lookup, input[i]);
    NormalizeNdcEmpty(input[i].ndc);
    CatalogLookupSpec(catalog, parse, NormalizeNdc(input[i].ndc));
  }

  /**
   * Against any lookup, a row gets its normalised NDC and upper-cased type
   * and never a Medicaid margin; a row whose NDC is absent is "NDC NOT
   * FOUND" with no prices or margin, and a present one carries the stored
   * prices and description, and a margin exactly when both prices exist.
   */
  lemma ResultForSpec(lookup: map<string, CatalogEntry>, row: InputRow)
    ensures var r := ResultFor(lookup, row);
            var ndc11 := NormalizeNdc(row.ndc);
            && r.ndc11 == ndc11
            && r.drugType == Strip(Upper(row.drugType))
            && r.medicaidMargin == None
            && (ndc11 !in lookup <==> r.matchStatus == NdcNotFound)
            && (ndc11 !in lookup ==> r.medicareCommercialMargin == None && r.contractCost == None && r.awp == None)
            && (ndc11 in lookup ==>
                  var e := lookup[ndc11];
                  && r.contractCost == e.contractCost && r.awp == e.awp && r.catalogDescription == e.drugName
                  && (r.medicareCommercialMargin.Some? <==> e.contractCost.Some? && e.awp.Some?))
  {
  }
}
