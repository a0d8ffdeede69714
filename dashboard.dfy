/**
 * The dashboard's ranked opportunity list (ui/pages/dashboard.py): lookup
 * tables from the NDC-HCPCS crosswalk with ASP pricing and from NADAC, the
 * conversion of each catalog row into a drug, the margin analysis of every
 * convertible drug sorted by margin delta, and the user's filters.
 *
 * A DataFrame is a set of column names and a sequence of rows, each row a
 * map from column name to cell. Python's `str()` of a number and the text
 * syntax of `float()`, `Decimal()` and `int()` are parameters (`show`,
 * `parse`, `parseInt`). The IRA tables are the explicit state `t`.
 */
module Dashboard {
  import opened Wrappers
  import opened Text
  import opened Models
  import Margins
  import PennyPricing
  import IraFlags
  import Dicts
  import Seqs

  /** A DataFrame cell: null, a number, or text. */
  datatype Cell = Null | Num(x: real) | Str(s: string)

  type Row = map<string, Cell>

  datatype Frame = Frame(columns: set<string>, rows: seq<Row>)

  /** Python truthiness of a cell: null, zero and "" are false. */
  predicate Truthy(c: Cell) {
    match c
    case Null => false
    case Num(x) => x != 0.0
    case Str(s) => s != []
  }

  /** `str()` of a cell. */
  function Show(c: Cell, show: real -> string): string {
    match c
    case Null => "None"
    case Num(x) => show(x)
    case Str(s) => s
  }

  /** `row.get(col)`: null for a column the frame lacks. */
  function Get(f: Frame, row: Row, col: string): Cell {
    if col in f.columns && col in row then row[col] else Null
  }

  /** `str(row.get(col, ""))`: "" for a column the frame lacks. */
  function GetText(f: Frame, row: Row, col: string, show: real -> string): string {
    if col in f.columns then Show(Get(f, row, col), show) else ""
  }

  /** `float(value)` and `Decimal(str(value))`; None when the conversion raises. */
  function NumberOf(c: Cell, parse: string -> Option<real>): Option<real> {
    match c
    case Null => None
    case Num(x) => Some(x)
    case Str(s) => parse(s)
  }

  /** `int(x)` of a float: truncation toward zero. */
  function Trunc(x: real): int {
    if x >= 0.0 then x.Floor else -((-x).Floor)
  }

  // ---------------------------------------------------------------------------
  // The HCPCS lookup

  /** What the HCPCS lookup stores per NDC. */
  datatype HcpcsInfo = HcpcsInfo(hcpcsCode: string, asp: Option<real>, billUnits: int)

  const BillUnitsColumn := "Billing Units Per Package"

  function PaymentColumn(aspPricing: Frame): string {
    if "Payment Limit" in aspPricing.columns then "Payment Limit" else "PAYMENT_LIMIT"
  }

  /** One ASP pricing row's write: upper-cased HCPCS to payment, skipped when either is falsy or the payment is no number. */
  function AspEntry(aspPricing: Frame, show: real -> string, parse: string -> Option<real>): Row -> Option<(string, real)> {
    row =>
      var hcpcs := Get(aspPricing, row, "HCPCS Code");
      var payment := Get(aspPricing, row, PaymentColumn(aspPricing));
      if Truthy(hcpcs) && Truthy(payment) && NumberOf(payment, parse).Some? then
        Some((Upper(Show(hcpcs, show)), NumberOf(payment, parse).value))
      else None
  }

  /** `asp_lookup`: empty unless the pricing file has a payment column and a HCPCS column. */
  function AspLookup(aspPricing: Frame, show: real -> string, parse: string -> Option<real>): map<string, real> {
    if PaymentColumn(aspPricing) in aspPricing.columns && "HCPCS Code" in aspPricing.columns then
      Dicts.Collect(aspPricing.rows, AspEntry(aspPricing, show, parse))
    else map[]
  }

  function NdcColumnOf(crosswalk: Frame): string {
    if "NDC" in crosswalk.columns then "NDC" else "NDC2"
  }

  function HcpcsColumnOf(crosswalk: Frame): string {
    if "HCPCS Code" in crosswalk.columns then "HCPCS Code" else "_2025_CODE"
  }

  /** The crosswalk row's key: its NDC text without dashes, stripped. */
  function CrosswalkNdc(crosswalk: Frame, row: Row, show: real -> string): string {
    Strip(Remove(GetText(crosswalk, row, NdcColumnOf(crosswalk), show), '-'))
  }

  /** The crosswalk row's HCPCS text, upper-cased and stripped. */
  function CrosswalkHcpcs(crosswalk: Frame, row: Row, show: real -> string): string {
    Strip(Upper(GetText(crosswalk, row, HcpcsColumnOf(crosswalk), show)))
  }

  /** `int(row.get("Billing Units Per Package", 1) or 1)`; None when `int()` raises. */
  function BillUnits(crosswalk: Frame, row: Row, parseInt: string -> Option<int>): (r: Option<int>)
    ensures !(BillUnitsColumn in crosswalk.columns && Truthy(Get(crosswalk, row, BillUnitsColumn))) ==> r == Some(1)
  {
    var c := if BillUnitsColumn in crosswalk.columns then Get(crosswalk, row, BillUnitsColumn) else Num(1.0);
    if !Truthy(c) then Some(1)
    else match c
      case Num(x) => Some(Trunc(x))
      case Str(s) => parseInt(s)
      case Null => Some(1)
  }

  /** A row that would be written and whose billing units make `int()` raise, which aborts the whole lookup. */
  predicate Raises(crosswalk: Frame, row: Row, show: real -> string, parseInt: string -> Option<int>) {
    CrosswalkNdc(crosswalk, row, show) != [] && CrosswalkHcpcs(crosswalk, row, show) != []
    && BillUnits(crosswalk, row, parseInt).None?
  }

  /** One crosswalk row's write: NDC to HCPCS, its ASP (if priced) and its billing units; skipped when the NDC or HCPCS is empty. */
  function CrosswalkWrite(crosswalk: Frame, aspLookup: map<string, real>, show: real -> string, parseInt: string -> Option<int>,
                          row: Row): Option<(string, HcpcsInfo)>
  {
    var ndc := CrosswalkNdc(crosswalk, row, show);
    var hcpcs := CrosswalkHcpcs(crosswalk, row, show);
    var billUnits := BillUnits(crosswalk, row, parseInt);
    if ndc != [] && hcpcs != [] && billUnits.Some? then
      Some((ndc, HcpcsInfo(hcpcs, if hcpcs in aspLookup then Some(aspLookup[hcpcs]) else None, billUnits.value)))
    else None
  }

  function CrosswalkEntry(crosswalk: Frame, aspLookup: map<string, real>, show: real -> string, parseInt: string -> Option<int>)
    : Row -> Option<(string, HcpcsInfo)>
  {
    row => CrosswalkWrite(crosswalk, aspLookup, show, parseInt, row)
  }

  function RaisesTest(crosswalk: Frame, show: real -> string, parseInt: string -> Option<int>): Row -> bool {
    row => Raises(crosswalk, row, show, parseInt)
  }

  /**
   * `_build_hcpcs_lookup` as a value; None when it raises. Empty without
   * either file or without the crosswalk's NDC or HCPCS column.
   */
  function HcpcsLookup(crosswalk: Option<Frame>, aspPricing: Option<Frame>, show: real -> string,
                       parse: string -> Option<real>, parseInt: string -> Option<int>): Option<map<string, HcpcsInfo>>
  {
    if crosswalk.None? || aspPricing.None? then Some(map[])
    else
      var cw := crosswalk.value;
      if NdcColumnOf(cw) !in cw.columns || HcpcsColumnOf(cw) !in cw.columns then Some(map[])
      else Dicts.CollectOrRaise(cw.rows, RaisesTest(cw, show, parseInt), CrosswalkEntry(cw, AspLookup(aspPricing.value, show, parse), show, parseInt))
  }

  /** The ASP loop of `_build_hcpcs_lookup`: each priced HCPCS to its payment, the last row winning. */
  method BuildAspLookup(aspPricing: Frame, show: real -> string, parse: string -> Option<real>)
    returns (aspLookup: map<string, real>)
    ensures aspLookup == AspLookup(aspPricing, show, parse)
  {
    aspLookup := map[];
    var paymentCol := PaymentColumn(aspPricing);
    if paymentCol in aspPricing.columns && "HCPCS Code" in aspPricing.columns {
      for n := 0 to |aspPricing.rows|
        invariant aspLookup == Dicts.Collect(aspPricing.rows[..n], AspEntry(aspPricing, show, parse))
      {
        Dicts.CollectSnoc(aspPricing.rows, n, AspEntry(aspPricing, show, parse));
        var row := aspPricing.rows[n];
        var hcpcs := Get(aspPricing, row, "HCPCS Code");
        var payment := Get(aspPricing, row, paymentCol);
        if Truthy(hcpcs) && Truthy(payment) {
          var value := NumberOf(payment, parse);
          if value.None? {
            continue;
          }
          aspLookup := aspLookup[Upper(Show(hcpcs, show)) := value.value];
        }
      }
      assert aspPricing.rows[..|aspPricing.rows|] == aspPricing.rows;
    }
  }

  /** The crosswalk loop of `_build_hcpcs_lookup`; None when `int()` raises on a row's billing units. */
  method FillFromCrosswalk(crosswalk: Frame, aspLookup: map<string, real>, show: real -> string, parseInt: string -> Option<int>)
    returns (lookup: Option<map<string, HcpcsInfo>>)
    ensures lookup == Dicts.CollectOrRaise(crosswalk.rows, RaisesTest(crosswalk, show, parseInt),
                                           CrosswalkEntry(crosswalk, aspLookup, show, parseInt))
  {
    ghost var raises := RaisesTest(crosswalk, show, parseInt);
    ghost var entry := CrosswalkEntry(crosswalk, aspLookup, show, parseInt);
    var entries: map<string, HcpcsInfo> := map[];
    for n := 0 to |crosswalk.rows|
      invariant Dicts.CollectOrRaise(crosswalk.rows[..n], raises, entry) == Some(entries)
    {
      Dicts.CollectOrRaiseSnoc(crosswalk.rows, n, raises, entry);
      var row := crosswalk.rows[n];
      var ndc := CrosswalkNdc(crosswalk, row, show);
      var hcpcs := CrosswalkHcpcs(crosswalk, row, show);
      if ndc != [] && hcpcs != [] {
        var asp := if hcpcs in aspLookup then Some(aspLookup[hcpcs]) else None;
        var billUnits := BillUnits(crosswalk, row, parseInt);
        if billUnits.None? {
          Dicts.CollectOrRaiseNone(crosswalk.rows, raises, entry);
          assert raises(crosswalk.rows[n]);
          return None;
        }
        entries := entries[ndc := HcpcsInfo(hcpcs, asp, billUnits.value)];
      }
    }
    assert crosswalk.rows[..|crosswalk.rows|] == crosswalk.rows;
    lookup := Some(entries);
  }

  /**
   * `_build_hcpcs_lookup`: collect the ASP of each priced HCPCS, then map
   * each crosswalk NDC to its HCPCS, that HCPCS's ASP and its billing units,
   * the last row for an NDC winning.
   */
  method BuildHcpcsLookup(crosswalk: Option<Frame>, aspPricing: Option<Frame>, show: real -> string,
                          parse: string -> Option<real>, parseInt: string -> Option<int>)
    returns (lookup: Option<map<string, HcpcsInfo>>)
    ensures lookup == HcpcsLookup(crosswalk, aspPricing, show, parse, parseInt)
  {
    if crosswalk.None? || aspPricing.None? {
      return Some(map[]);
    }
    var cw := crosswalk.value;
    if NdcColumnOf(cw) !in cw.columns || HcpcsColumnOf(cw) !in cw.columns {
      return Some(map[]);
    }
    var aspLookup := BuildAspLookup(aspPricing.value, show, parse);
    lookup := FillFromCrosswalk(cw, aspLookup, show, parseInt);
  }

  /**
   * With both files and the crosswalk's columns present, and no row making
   * `int()` raise, the lookup has an entry for an NDC exactly when some
   * crosswalk row has that NDC and a HCPCS code.
   */
  lemma HcpcsLookupKeys(crosswalk: Frame, aspPricing: Frame, show: real -> string,
                        parse: string -> Option<real>, parseInt: string -> Option<int>, ndc: string)
    requires NdcColumnOf(crosswalk) in crosswalk.columns && HcpcsColumnOf(crosswalk) in crosswalk.columns
    requires HcpcsLookup(Some(crosswalk), Some(aspPricing), show, parse, parseInt).Some?
    ensures ndc in HcpcsLookup(Some(crosswalk), Some(aspPricing), show, parse, parseInt).value
            <==> exists j :: 0 <= j < |crosswalk.rows| && CrosswalkNdc(crosswalk, crosswalk.rows[j], show) == ndc && ndc != []
                              && CrosswalkHcpcs(crosswalk, crosswalk.rows[j], show) != []
  {
    var rows := crosswalk.rows;
    var raises := RaisesTest(crosswalk, show, parseInt);
    var entry := CrosswalkEntry(crosswalk, AspLookup(aspPricing, show, parse), show, parseInt);
    Dicts.CollectOrRaiseSome(rows, raises, entry);
    Dicts.CollectOrRaiseNone(rows, raises, entry);
    Dicts.CollectKeys(rows, entry, ndc);
    forall j | 0 <= j < |rows|
      ensures entry(rows[j]).Some? <==> CrosswalkNdc(crosswalk, rows[j], show) != [] && CrosswalkHcpcs(crosswalk, rows[j], show) != []
      ensures entry(rows[j]).Some? ==> entry(rows[j]).value.0 == CrosswalkNdc(crosswalk, rows[j], show)
    {
      assert !raises(rows[j]);
    }
  }

  /**
   * The last crosswalk row with an NDC and a HCPCS code decides that NDC's
   * entry: its HCPCS code, the payment of that code when the ASP file
   * prices it (None otherwise), and the row's own billing units.
   */
  lemma HcpcsLookupLast(crosswalk: Frame, aspPricing: Frame, show: real -> string,
                        parse: string -> Option<real>, parseInt: string -> Option<int>, i: nat)
    requires NdcColumnOf(crosswalk) in crosswalk.columns && HcpcsColumnOf(crosswalk) in crosswalk.columns
    requires HcpcsLookup(Some(crosswalk), Some(aspPricing), show, parse, parseInt).Some?
    requires i < |crosswalk.rows| && CrosswalkNdc(crosswalk, crosswalk.rows[i], show) != []
             && CrosswalkHcpcs(crosswalk, crosswalk.rows[i], show) != []
    requires forall j :: i < j < |crosswalk.rows| && CrosswalkHcpcs(crosswalk, crosswalk.rows[j], show) != []
               ==> CrosswalkNdc(crosswalk, crosswalk.rows[j], show) != CrosswalkNdc(crosswalk, crosswalk.rows[i], show)
    ensures var lookup := HcpcsLookup(Some(crosswalk), Some(aspPricing), show, parse, parseInt).value;
            var ndc := CrosswalkNdc(crosswalk, crosswalk.rows[i], show);
            var hcpcs := CrosswalkHcpcs(crosswalk, crosswalk.rows[i], show);
            var asp := AspLookup(aspPricing, show, parse);
            && ndc in lookup
            && lookup[ndc].hcpcsCode == hcpcs
            && lookup[ndc].asp == (if hcpcs in asp then Some(asp[hcpcs]) else None)
            && BillUnits(crosswalk, crosswalk.rows[i], parseInt).Some?
            && lookup[ndc].billUnits == BillUnits(crosswalk, crosswalk.rows[i], parseInt).value
  {
    var rows := crosswalk.rows;
    var raises := RaisesTest(crosswalk, show, parseInt);
    var entry := CrosswalkEntry(crosswalk, AspLookup(aspPricing, show, parse), show, parseInt);
    Dicts.CollectOrRaiseSome(rows, raises, entry);
    Dicts.CollectOrRaiseNone(rows, raises, entry);
    assert !raises(rows[i]);
    forall j | i < j < |rows| && entry(rows[j]).Some?
      ensures entry(rows[j]).value.0 != entry(rows[i]).value.0
    {
      assert CrosswalkHcpcs(crosswalk, rows[j], show) != [];
    }
    Dicts.CollectLast(rows, entry, i);
  }

  /** A priced HCPCS has the payment of the last row that prices it. */
  lemma AspLookupLast(aspPricing: Frame, show: real -> string, parse: string -> Option<real>, i: nat)
    requires PaymentColumn(aspPricing) in aspPricing.columns && "HCPCS Code" in aspPricing.columns
    requires i < |aspPricing.rows| && AspEntry(aspPricing, show, parse)(aspPricing.rows[i]).Some?
    requires forall j :: i < j < |aspPricing.rows| && AspEntry(aspPricing, show, parse)(aspPricing.rows[j]).Some?
               ==> AspEntry(aspPricing, show, parse)(aspPricing.rows[j]).value.0 != AspEntry(aspPricing, show, parse)(aspPricing.rows[i]).value.0
    ensures var e := AspEntry(aspPricing, show, parse)(aspPricing.rows[i]).value;
            e.0 in AspLookup(aspPricing, show, parse) && AspLookup(aspPricing, show, parse)[e.0] == e.1
  {
    Dicts.CollectLast(aspPricing.rows, AspEntry(aspPricing, show, parse), i);
  }

  // ---------------------------------------------------------------------------
  // The NADAC lookup

  /** What the NADAC lookup stores per NDC. */
  datatype NadacInfo = NadacInfo(discountPct: Option<real>, pennyPricing: bool)

  /** The NADAC row's key: its NDC text without dashes, stripped. */
  function NadacNdc(t: PennyPricing.NadacTable, row: PennyPricing.NadacRow): string {
    PennyPricing.CleanNdc(PennyPricing.RowNdcText(t, row))
  }

  /** One NADAC row's write: its discount, and penny pricing when flagged or discounted 95% or more; skipped when its NDC is empty. */
  function NadacEntry(t: PennyPricing.NadacTable): PennyPricing.NadacRow -> Option<(string, NadacInfo)> {
    row =>
      var ndc := NadacNdc(t, row);
      var discount := if PennyPricing.DiscountColumn in t.columns then row.discount else None;
      var penny := PennyPricing.PennyColumn in t.columns && row.penny;
      if ndc != [] then
        Some((ndc, NadacInfo(discount, penny || (discount.Some? && discount.value >= PennyPricing.HighDiscountThreshold))))
      else None
  }

  /** `_build_nadac_lookup` as a value. */
  function NadacLookup(nadac: Option<PennyPricing.NadacTable>): map<string, NadacInfo> {
    if nadac.None? then map[] else Dicts.Collect(nadac.value.rows, NadacEntry(nadac.value))
  }

  /** `_build_nadac_lookup`: map each NADAC NDC to its discount and penny-pricing flag, the last row for an NDC winning. */
  method BuildNadacLookup(nadac: Option<PennyPricing.NadacTable>) returns (lookup: map<string, NadacInfo>)
    ensures lookup == NadacLookup(nadac)
  {
    lookup := map[];
    if nadac.None? {
      return;
    }
    var t := nadac.value;
    for n := 0 to |t.rows|
      invariant lookup == Dicts.Collect(t.rows[..n], NadacEntry(t))
    {
      Dicts.CollectSnoc(t.rows, n, NadacEntry(t));
      var row := t.rows[n];
      var ndc := NadacNdc(t, row);
      var discount := if PennyPricing.DiscountColumn in t.columns then row.discount else None;
      var penny := PennyPricing.PennyColumn in t.columns && row.penny;
      if ndc != [] {
        var isPenny := penny || (discount.Some? && discount.value >= PennyPricing.HighDiscountThreshold);
        lookup := lookup[ndc := NadacInfo(discount, isPenny)];
      }
    }
    assert t.rows[..|t.rows|] == t.rows;
  }

  /**
   * The NADAC lookup has an entry for an NDC exactly when some row has it;
   * the last such row decides, and its penny-pricing flag is the penny
   * scan's own criterion on that row (flag set or discount of 95% or more).
   */
  lemma NadacLookupSpec(t: PennyPricing.NadacTable, ndc: string, i: nat)
    ensures ndc in NadacLookup(Some(t)) <==> ndc != [] && exists j :: 0 <= j < |t.rows| && NadacNdc(t, t.rows[j]) == ndc
    ensures i < |t.rows| && NadacNdc(t, t.rows[i]) == ndc && ndc != []
            && (forall j :: i < j < |t.rows| ==> NadacNdc(t, t.rows[j]) != ndc)
            ==> NadacLookup(Some(t))[ndc].pennyPricing == PennyPricing.IsPennyRow(t, t.rows[i])
  {
    Dicts.CollectKeys(t.rows, NadacEntry(t), ndc);
    if i < |t.rows| && NadacNdc(t, t.rows[i]) == ndc && ndc != [] && (forall j :: i < j < |t.rows| ==> NadacNdc(t, t.rows[j]) != ndc) {
      Dicts.CollectLast(t.rows, NadacEntry(t), i);
    }
  }

  // ---------------------------------------------------------------------------
  // Catalog rows to drugs

  /** The catalog's alternative column names, in the order `_row_to_drug` tries them. */
  const DrugNameColumns: seq<string> := ["Drug Name", "Trade Name", "DRUG_NAME"]
  const ManufacturerColumns: seq<string> := ["Manufacturer", "MANUFACTURER"]
  const ContractCostColumns: seq<string> := ["Contract Cost", "CONTRACT_COST"]
  const AwpColumns: seq<string> := ["AWP", "Medispan AWP", "MEDISPAN_AWP"]

  /** `row.get(a) or row.get(b) or ...` without its default: the first truthy cell of `cols`. */
  function FirstTruthy(f: Frame, row: Row, cols: seq<string>): (r: Option<Cell>)
    ensures r.None? <==> forall i :: 0 <= i < |cols| ==> !Truthy(Get(f, row, cols[i]))
    ensures r.Some? ==> exists i :: 0 <= i < |cols| && r.value == Get(f, row, cols[i]) && Truthy(r.value)
                                    && forall j :: 0 <= j < i ==> !Truthy(Get(f, row, cols[j]))
  {
    if cols == [] then None
    else if Truthy(Get(f, row, cols[0])) then Some(Get(f, row, cols[0]))
    else
      var r := FirstTruthy(f, row, cols[1..]);
      assert r.Some? ==> exists i :: 1 <= i < |cols| && r.value == Get(f, row, cols[i]) && Truthy(r.value)
                                    && forall j :: 0 <= j < i ==> !Truthy(Get(f, row, cols[j])) by {
        if r.Some? {
          var i :| 0 <= i < |cols[1..]| && r.value == Get(f, row, cols[1..][i]) && Truthy(r.value)
                   && forall j :: 0 <= j < i ==> !Truthy(Get(f, row, cols[1..][j]));
          assert forall j :: 0 < j < i + 1 ==> cols[j] == cols[1..][j - 1];
        }
      }
      r
  }

  /** `row.get(a) or row.get(b) or ... or default`. */
  function Or(f: Frame, row: Row, cols: seq<string>, default: Cell): Cell {
    match FirstTruthy(f, row, cols)
    case Some(c) => c
    case None => default
  }

  /**
   * `_row_to_drug`: None without an NDC or when the contract cost or AWP is
   * no number; otherwise the drug with its name, manufacturer and prices from
   * the first non-empty of their alternative columns, its HCPCS data and
   * penny-pricing flag from the lookups under the NDC without dashes, and
   * its IRA flag from the IRA assessment of its name.
   */
  function RowToDrug(t: IraFlags.IraTables, catalog: Frame, hcpcsLookup: map<string, HcpcsInfo>,
                     nadacLookup: map<string, NadacInfo>, row: Row, show: real -> string, parse: string -> Option<real>)
    : (d: Option<Drug>)
    ensures GetText(catalog, row, "NDC", show) == [] ==> d.None?
    ensures d.Some? ==> d.value.ndc == GetText(catalog, row, "NDC", show)
    ensures d.Some? ==> d.value.billUnitsPerPackage != 0
    ensures d.Some? && d.value.asp.Some? ==> d.value.asp.value != 0.0
    ensures d.Some? ==> d.value.iraFlag == IraFlags.CheckIraStatus(t, d.value.drugName).isIraDrug
    ensures d.Some? ==> (d.value.HasMedicalPath() ==> PennyPricing.CleanNdc(d.value.ndc) in hcpcsLookup)
    ensures d.None? <==> GetText(catalog, row, "NDC", show) == []
                         || NumberOf(Or(catalog, row, ContractCostColumns, Num(0.0)), parse).None?
                         || NumberOf(Or(catalog, row, AwpColumns, Num(0.0)), parse).None?
    ensures d.Some? ==> && Some(d.value.contractCost) == NumberOf(Or(catalog, row, ContractCostColumns, Num(0.0)), parse)
                        && Some(d.value.awp) == NumberOf(Or(catalog, row, AwpColumns, Num(0.0)), parse)
                        && d.value.manufacturer == Show(Or(catalog, row, ManufacturerColumns, Str("Unknown")), show)
  {
    var ndc := GetText(catalog, row, "NDC", show);
    if ndc == [] then None
    else
      var ndcNormalized := PennyPricing.CleanNdc(ndc);
      var drugName := Show(Or(catalog, row, DrugNameColumns, Str("Unknown")), show);
      var manufacturer := Show(Or(catalog, row, ManufacturerColumns, Str("Unknown")), show);
      var contractCost := NumberOf(Or(catalog, row, ContractCostColumns, Num(0.0)), parse);
      var awp := NumberOf(Or(catalog, row, AwpColumns, Num(0.0)), parse);
      if contractCost.None? || awp.None? then None
      else
        var info := if ndcNormalized in hcpcsLookup then Some(hcpcsLookup[ndcNormalized]) else None;
        var asp := if info.Some? then info.value.asp else None;
        var hcpcsCode := if info.Some? then Some(info.value.hcpcsCode) else None;
        var billUnits := if info.Some? then info.value.billUnits else 1;
        var penny := ndcNormalized in nadacLookup && nadacLookup[ndcNormalized].pennyPricing;
        var iraStatus := IraFlags.CheckIraStatus(t, drugName);
        Some(Drug(ndc, drugName, manufacturer, contractCost.value, awp.value,
                  asp := if asp.Some? && asp.value != 0.0 then asp else None,
                  hcpcsCode := if hcpcsCode.Some? && hcpcsCode.value != [] then hcpcsCode else None,
                  billUnitsPerPackage := if billUnits != 0 then billUnits else 1,
                  iraFlag := iraStatus.isIraDrug,
                  pennyPricingFlag := penny))
  }

  /**
   * The drug's name is the first non-empty of `Drug Name`, `Trade Name` and
   * `DRUG_NAME`, and "Unknown" when all are empty.
   */
  lemma RowToDrugName(t: IraFlags.IraTables, catalog: Frame, hcpcsLookup: map<string, HcpcsInfo>,
                      nadacLookup: map<string, NadacInfo>, row: Row, show: real -> string, parse: string -> Option<real>)
    ensures var d := RowToDrug(t, catalog, hcpcsLookup, nadacLookup, row, show, parse);
            d.Some? ==>
              && ((forall i :: 0 <= i < |DrugNameColumns| ==> !Truthy(Get(catalog, row, DrugNameColumns[i])))
                  ==> d.value.drugName == "Unknown")
              && ((exists i :: 0 <= i < |DrugNameColumns| && Truthy(Get(catalog, row, DrugNameColumns[i]))
                      && d.value.drugName == Show(Get(catalog, row, DrugNameColumns[i]), show)
                      && (forall j :: 0 <= j < i ==> !Truthy(Get(catalog, row, DrugNameColumns[j]))))
                  || d.value.drugName == "Unknown")
  {
    var r := FirstTruthy(catalog, row, DrugNameColumns);
  }

  /**
   * The drug's penny-pricing flag is the NADAC lookup's flag for its NDC
   * without dashes, false when absent; an NDC absent from the HCPCS lookup
   * leaves no ASP or HCPCS code and one billing unit, and a present one
   * gives its HCPCS code, its ASP when non-zero (none when it is missing or
   * zero) and its billing units when non-zero (one otherwise).
   */
  lemma RowToDrugLookups(t: IraFlags.IraTables, catalog: Frame, hcpcsLookup: map<string, HcpcsInfo>,
                         nadacLookup: map<string, NadacInfo>, row: Row, show: real -> string, parse: string -> Option<real>)
    ensures var d := RowToDrug(t, catalog, hcpcsLookup, nadacLookup, row, show, parse);
            d.Some? ==>
              var key := PennyPricing.CleanNdc(d.value.ndc);
              && d.value.pennyPricingFlag == (key in nadacLookup && nadacLookup[key].pennyPricing)
              && (key !in hcpcsLookup ==> d.value.asp == None && d.value.hcpcsCode == None && d.value.billUnitsPerPackage == 1)
              && (key in hcpcsLookup && hcpcsLookup[key].hcpcsCode != [] ==> d.value.hcpcsCode == Some(hcpcsLookup[key].hcpcsCode))
              && (key in hcpcsLookup && hcpcsLookup[key].asp.Some? && hcpcsLookup[key].asp.value != 0.0
                  ==> d.value.asp == hcpcsLookup[key].asp)
              && (key in hcpcsLookup && (hcpcsLookup[key].asp.None? || hcpcsLookup[key].asp.value == 0.0)
                  ==> d.value.asp == None)
              && (key in hcpcsLookup ==>
                    d.value.billUnitsPerPackage == (if hcpcsLookup[key].billUnits != 0 then hcpcsLookup[key].billUnits else 1))
  {
  }

  /** The cell `row.get(a) or row.get(b) or ... or default` yields: the first truthy cell of `cols`, else `default`. */
  predicate PicksFirst(f: Frame, row: Row, cols: seq<string>, default: Cell, c: Cell) {
    || ((forall i :: 0 <= i < |cols| ==> !Truthy(Get(f, row, cols[i]))) && c == default)
    || (exists i :: 0 <= i < |cols| && Truthy(Get(f, row, cols[i])) && c == Get(f, row, cols[i])
          && forall j :: 0 <= j < i ==> !Truthy(Get(f, row, cols[j])))
  }

  /**
   * The contract cost and the AWP are the numbers in the first non-empty of
   * their alternative columns, 0 when all are empty, and the manufacturer is
   * the first non-empty manufacturer column, else "Unknown". A row with an
   * NDC converts exactly when both price cells are numbers.
   */
  lemma RowToDrugPrices(t: IraFlags.IraTables, catalog: Frame, hcpcsLookup: map<string, HcpcsInfo>,
                        nadacLookup: map<string, NadacInfo>, row: Row, show: real -> string, parse: string -> Option<real>)
    ensures var d := RowToDrug(t, catalog, hcpcsLookup, nadacLookup, row, show, parse);
            var cost := Or(catalog, row, ContractCostColumns, Num(0.0));
            var awp := Or(catalog, row, AwpColumns, Num(0.0));
            var manufacturer := Or(catalog, row, ManufacturerColumns, Str("Unknown"));
            && PicksFirst(catalog, row, ContractCostColumns, Num(0.0), cost)
            && PicksFirst(catalog, row, AwpColumns, Num(0.0), awp)
            && PicksFirst(catalog, row, ManufacturerColumns, Str("Unknown"), manufacturer)
            && (GetText(catalog, row, "NDC", show) != [] ==>
                  (d.Some? <==> NumberOf(cost, parse).Some? && NumberOf(awp, parse).Some?))
            && (d.Some? ==>
                  && Some(d.value.contractCost) == NumberOf(cost, parse)
                  && Some(d.value.awp) == NumberOf(awp, parse)
                  && d.value.manufacturer == Show(manufacturer, show)
                  && ((forall i :: 0 <= i < |ContractCostColumns| ==> !Truthy(Get(catalog, row, ContractCostColumns[i])))
                        ==> d.value.contractCost == 0.0)
                  && ((forall i :: 0 <= i < |AwpColumns| ==> !Truthy(Get(catalog, row, AwpColumns[i])))
                        ==> d.value.awp == 0.0))
  {
    OrPicksFirst(catalog, row, ContractCostColumns, Num(0.0));
    OrPicksFirst(catalog, row, AwpColumns, Num(0.0));
    OrPicksFirst(catalog, row, ManufacturerColumns, Str("Unknown"));
  }

  /** `Or` yields the first truthy cell, else the default. */
  lemma OrPicksFirst(f: Frame, row: Row, cols: seq<string>, default: Cell)
    ensures PicksFirst(f, row, cols, default, Or(f, row, cols, default))
  {
    var r := FirstTruthy(f, row, cols);
  }

  // ---------------------------------------------------------------------------
  // The opportunity list

  /** The analysis of a catalog row, none when the row does not convert to a drug. */
  function Analyse(t: IraFlags.IraTables, catalog: Frame, hcpcsLookup: map<string, HcpcsInfo>,
                   nadacLookup: map<string, NadacInfo>, captureRate: real, show: real -> string,
                   parse: string -> Option<real>): Row -> Option<MarginAnalysis>
  {
    row =>
      match RowToDrug(t, catalog, hcpcsLookup, nadacLookup, row, show, parse)
      case None => None
      case Some(d) => Some(Margins.AnalyzeDrugMargin(d, captureRate))
  }

  /** The results of the rows that `convert` accepts, in row order. */
  function Converted<R, A>(rows: seq<R>, convert: R -> Option<A>): (r: seq<A>)
    ensures |r| <= |rows|
  {
    if rows == [] then []
    else
      var prev := Converted(rows[..|rows| - 1], convert);
      var c := convert(rows[|rows| - 1]);
      if c.Some? then prev + [c.value] else prev
  }

  /** One more iteration of the loop `Converted` describes. */
  lemma ConvertedSnoc<R, A>(rows: seq<R>, n: nat, convert: R -> Option<A>)
    requires n < |rows|
    ensures Converted(rows[..n + 1], convert)
            == Converted(rows[..n], convert) + (if convert(rows[n]).Some? then [convert(rows[n]).value] else [])
  {
    assert rows[..n + 1][..n] == rows[..n];
  }

  /** Every result comes from some row, and every row that converts has its result in the list. */
  lemma {:induction false} ConvertedSpec<R, A>(rows: seq<R>, convert: R -> Option<A>)
    ensures forall k :: 0 <= k < |Converted(rows, convert)| ==>
              exists i :: 0 <= i < |rows| && convert(rows[i]) == Some(Converted(rows, convert)[k])
    ensures forall i :: 0 <= i < |rows| && convert(rows[i]).Some? ==> convert(rows[i]).value in Converted(rows, convert)
  {
    if rows == [] {
      assert Converted(rows, convert) == [];
    } else {
      var n := |rows| - 1;
      var prev := Converted(rows[..n], convert);
      var r := Converted(rows, convert);
      ConvertedSpec(rows[..n], convert);
      assert forall i :: 0 <= i < n ==> rows[..n][i] == rows[i];
      assert forall k :: 0 <= k < |prev| ==> r[k] == prev[k];
      forall k | 0 <= k < |r| ensures exists i :: 0 <= i < |rows| && convert(rows[i]) == Some(r[k]) {
        if k == |prev| {
          assert convert(rows[n]) == Some(r[k]);
        } else {
          var i :| 0 <= i < n && convert(rows[..n][i]) == Some(prev[k]);
          assert convert(rows[i]) == Some(r[k]);
        }
      }
      forall i | 0 <= i < |rows| && convert(rows[i]).Some? ensures convert(rows[i]).value in r {
        if i < n {
          assert convert(rows[..n][i]).value in prev;
          var m :| 0 <= m < |prev| && prev[m] == convert(rows[i]).value;
          assert r[m] == prev[m];
        } else {
          assert r[|prev|] == convert(rows[n]).value;
        }
      }
    }
  }

  function ByDelta(): MarginAnalysis -> real {
    (a: MarginAnalysis) => a.marginDelta
  }

  /**
   * `_calculate_opportunities` as a value: no catalog gives no opportunities;
   * a HCPCS lookup that raises gives None; otherwise the analyses of the
   * convertible rows, sorted by margin delta, highest first.
   */
  function Opportunities(t: IraFlags.IraTables, catalog: Option<Frame>, crosswalk: Option<Frame>, aspPricing: Option<Frame>,
                         nadac: Option<PennyPricing.NadacTable>, captureRate: real, show: real -> string,
                         parse: string -> Option<real>, parseInt: string -> Option<int>): Option<seq<MarginAnalysis>>
  {
    if catalog.None? then Some([])
    else match HcpcsLookup(crosswalk, aspPricing, show, parse, parseInt)
      case None => None
      case Some(hcpcsLookup) =>
        var analyse := Analyse(t, catalog.value, hcpcsLookup, NadacLookup(nadac), captureRate, show, parse);
        Some(Seqs.SortDesc(Converted(catalog.value.rows, analyse), ByDelta()))
  }

  /** The row loop of `_calculate_opportunities`: the analyses of the rows that convert to a drug, in catalog order. */
  method AnalyseRows(t: IraFlags.IraTables, catalog: Frame, hcpcsLookup: map<string, HcpcsInfo>,
                     nadacLookup: map<string, NadacInfo>, captureRate: real, show: real -> string,
                     parse: string -> Option<real>)
    returns (list: seq<MarginAnalysis>)
    ensures list == Converted(catalog.rows, Analyse(t, catalog, hcpcsLookup, nadacLookup, captureRate, show, parse))
  {
    ghost var analyse := Analyse(t, catalog, hcpcsLookup, nadacLookup, captureRate, show, parse);
    var rows := catalog.rows;
    list := [];
    for n := 0 to |rows|
      invariant list == Converted(rows[..n], analyse)
    {
      ConvertedSnoc(rows, n, analyse);
      var drug := RowToDrug(t, catalog, hcpcsLookup, nadacLookup, rows[n], show, parse);
      if drug.Some? {
        var analysis := Margins.AnalyzeDrugMargin(drug.value, captureRate);
        list := list + [analysis];
      }
    }
    assert rows[..|rows|] == rows;
  }

  /**
   * `_calculate_opportunities`: build both lookups, analyse each catalog
   * row that converts to a drug, skipping the others, and sort the analyses
   * by margin delta, highest first.
   */
  method CalculateOpportunities(t: IraFlags.IraTables, catalog: Option<Frame>, crosswalk: Option<Frame>, aspPricing: Option<Frame>,
                                nadac: Option<PennyPricing.NadacTable>, captureRate: real, show: real -> string,
                                parse: string -> Option<real>, parseInt: string -> Option<int>)
    returns (analyses: Option<seq<MarginAnalysis>>)
    ensures analyses == Opportunities(t, catalog, crosswalk, aspPricing, nadac, captureRate, show, parse, parseInt)
  {
    if catalog.None? {
      return Some([]);
    }
    var hcpcsLookup := BuildHcpcsLookup(crosswalk, aspPricing, show, parse, parseInt);
    if hcpcsLookup.None? {
      return None;
    }
    var nadacLookup := BuildNadacLookup(nadac);
    var list := AnalyseRows(t, catalog.value, hcpcsLookup.value, nadacLookup, captureRate, show, parse);
    analyses := Some(Seqs.SortDesc(list, ByDelta()));
  }

  /**
   * Sorting the rows' results by a key, highest first: the list is ordered,
   * a permutation of the results in row order that keeps row order among
   * equal keys, holds only results of some row, and holds every row's result.
   */
  lemma SortConverted<R, A>(rows: seq<R>, convert: R -> Option<A>, key: A -> real, k: real)
    ensures var inOrder := Converted(rows, convert);
            var r := Seqs.SortDesc(inOrder, key);
            && Seqs.SortedDesc(r, key)
            && multiset(r) == multiset(inOrder)
            && Seqs.WithKey(r, key, k) == Seqs.WithKey(inOrder, key, k)
            && (forall j :: 0 <= j < |r| ==> exists i :: 0 <= i < |rows| && convert(rows[i]) == Some(r[j]))
            && (forall i :: 0 <= i < |rows| && convert(rows[i]).Some? ==> convert(rows[i]).value in r)
  {
    var inOrder := Converted(rows, convert);
    var r := Seqs.SortDesc(inOrder, key);
    Seqs.SortDescSorted(inOrder, key);
    Seqs.SortDescStable(inOrder, key, k);
    ConvertedSpec(rows, convert);
    forall j | 0 <= j < |r| ensures exists i :: 0 <= i < |rows| && convert(rows[i]) == Some(r[j]) {
      assert r[j] in multiset(inOrder);
      var m :| 0 <= m < |inOrder| && inOrder[m] == r[j];
    }
    forall i | 0 <= i < |rows| && convert(rows[i]).Some? ensures convert(rows[i]).value in r {
      assert convert(rows[i]).value in multiset(r);
    }
  }

  /**
   * The opportunity list is ordered by margin delta, highest first; each
   * entry is the analysis of some catalog row, every row that converts to a
   * drug has its analysis listed, the list is a permutation of the analyses
   * in catalog order, and analyses with equal margin delta keep catalog
   * order (the sort is stable).
   */
  lemma OpportunitiesSpec(t: IraFlags.IraTables, catalog: Frame, crosswalk: Option<Frame>, aspPricing: Option<Frame>,
                          nadac: Option<PennyPricing.NadacTable>, captureRate: real, show: real -> string,
                          parse: string -> Option<real>, parseInt: string -> Option<int>, delta: real)
    requires HcpcsLookup(crosswalk, aspPricing, show, parse, parseInt).Some?
    ensures var analyse := Analyse(t, catalog, HcpcsLookup(crosswalk, aspPricing, show, parse, parseInt).value,
                                   NadacLookup(nadac), captureRate, show, parse);
            var inOrder := Converted(catalog.rows, analyse);
            var r := Opportunities(t, Some(catalog), crosswalk, aspPricing, nadac, captureRate, show, parse, parseInt).value;
            && Seqs.SortedDesc(r, ByDelta())
            && multiset(r) == multiset(inOrder)
            && Seqs.WithKey(r, ByDelta(), delta) == Seqs.WithKey(inOrder, ByDelta(), delta)
            && (forall j :: 0 <= j < |r| ==> exists i :: 0 <= i < |catalog.rows| && analyse(catalog.rows[i]) == Some(r[j]))
            && (forall i :: 0 <= i < |catalog.rows| && analyse(catalog.rows[i]).Some? ==> analyse(catalog.rows[i]).value in r)
  {
    var analyse := Analyse(t, catalog, HcpcsLookup(crosswalk, aspPricing, show, parse, parseInt).value,
                           NadacLookup(nadac), captureRate, show, parse);
    SortConverted(catalog.rows, analyse, ByDelta(), delta);
  }

  // ---------------------------------------------------------------------------
  // Filters

  /** The search: an empty query keeps everything; otherwise the upper-cased query occurs in the upper-cased name or in the NDC. */
  predicate MatchesQuery(a: MarginAnalysis, searchQuery: string) {
    searchQuery == [] || Contains(Upper(a.drug.drugName), Upper(searchQuery)) || Contains(a.drug.ndc, Upper(searchQuery))
  }

  /** Everything `_apply_filters` demands of an analysis. */
  predicate Passes(a: MarginAnalysis, searchQuery: string, showIraOnly: bool, hidePenny: bool, minDelta: real) {
    && MatchesQuery(a, searchQuery)
    && (showIraOnly ==> a.drug.iraFlag)
    && (hidePenny ==> !a.drug.pennyPricingFlag)
    && a.marginDelta >= minDelta
  }

  function SearchTest(query: string): MarginAnalysis -> bool {
    (a: MarginAnalysis) => Contains(Upper(a.drug.drugName), query) || Contains(a.drug.ndc, query)
  }

  function IraTest(): MarginAnalysis -> bool {
    (a: MarginAnalysis) => a.drug.iraFlag
  }

  function NotPennyTest(): MarginAnalysis -> bool {
    (a: MarginAnalysis) => !a.drug.pennyPricingFlag
  }

  function DeltaTest(minDelta: real): MarginAnalysis -> bool {
    (a: MarginAnalysis) => a.marginDelta >= minDelta
  }

  function PassTest(searchQuery: string, showIraOnly: bool, hidePenny: bool, minDelta: real): MarginAnalysis -> bool {
    (a: MarginAnalysis) => Passes(a, searchQuery, showIraOnly, hidePenny, minDelta)
  }

  /**
   * `_apply_filters`: the search, then the IRA-only filter, then the
   * penny-pricing filter, each when enabled, then the minimum margin delta.
   */
  function ApplyFilters(analyses: seq<MarginAnalysis>, searchQuery: string := "", showIraOnly: bool := false,
                        hidePenny: bool := true, minDelta: real := 0.0): (r: seq<MarginAnalysis>)
    ensures forall i :: 0 <= i < |r| ==> r[i].marginDelta >= minDelta
  {
    var afterSearch := if searchQuery != [] then Seqs.Filter(analyses, SearchTest(Upper(searchQuery))) else analyses;
    var afterIra := if showIraOnly then Seqs.Filter(afterSearch, IraTest()) else afterSearch;
    var afterPenny := if hidePenny then Seqs.Filter(afterIra, NotPennyTest()) else afterIra;
    Seqs.Filter(afterPenny, DeltaTest(minDelta))
  }

  /** The successive filters are one filter on `Passes`. */
  lemma ApplyFiltersIsFilter(analyses: seq<MarginAnalysis>, searchQuery: string, showIraOnly: bool, hidePenny: bool, minDelta: real)
    ensures ApplyFilters(analyses, searchQuery, showIraOnly, hidePenny, minDelta)
            == Seqs.Filter(analyses, PassTest(searchQuery, showIraOnly, hidePenny, minDelta))
  {
    var query := Upper(searchQuery);
    var s := SearchTest(query);
    var searchStage: MarginAnalysis -> bool := a => searchQuery == [] || s(a);
    var iraStage: MarginAnalysis -> bool := a => searchStage(a) && (showIraOnly ==> a.drug.iraFlag);
    var pennyStage: MarginAnalysis -> bool := a => iraStage(a) && (hidePenny ==> !a.drug.pennyPricingFlag);
    var all: MarginAnalysis -> bool := a => true;
    var afterSearch := if searchQuery != [] then Seqs.Filter(analyses, s) else analyses;
    if searchQuery == [] {
      Seqs.FilterAll(analyses, searchStage);
    } else {
      Seqs.FilterAll(analyses, all);
      Seqs.FilterFilter(analyses, all, s, searchStage);
    }
    assert afterSearch == Seqs.Filter(analyses, searchStage);
    var afterIra := if showIraOnly then Seqs.Filter(afterSearch, IraTest()) else afterSearch;
    if showIraOnly {
      Seqs.FilterFilter(analyses, searchStage, IraTest(), iraStage);
    } else {
      Seqs.FilterFilter(analyses, searchStage, all, iraStage);
      Seqs.FilterAll(afterSearch, all);
    }
    assert afterIra == Seqs.Filter(analyses, iraStage);
    var afterPenny := if hidePenny then Seqs.Filter(afterIra, NotPennyTest()) else afterIra;
    if hidePenny {
      Seqs.FilterFilter(analyses, iraStage, NotPennyTest(), pennyStage);
    } else {
      Seqs.FilterFilter(analyses, iraStage, all, pennyStage);
      Seqs.FilterAll(afterIra, all);
    }
    assert afterPenny == Seqs.Filter(analyses, pennyStage);
    Seqs.FilterFilter(analyses, pennyStage, DeltaTest(minDelta), PassTest(searchQuery, showIraOnly, hidePenny, minDelta));
  }

  /**
   * The filtered list keeps input order, every survivor meets every enabled
   * criterion, every analysis meeting them all survives, and filtering the
   * result again with the same settings changes nothing.
   */
  lemma ApplyFiltersSpec(analyses: seq<MarginAnalysis>, searchQuery: string, showIraOnly: bool, hidePenny: bool, minDelta: real)
    ensures var r := ApplyFilters(analyses, searchQuery, showIraOnly, hidePenny, minDelta);
            && Seqs.IsSubseq(r, analyses)
            && (forall i :: 0 <= i < |r| ==> Passes(r[i], searchQuery, showIraOnly, hidePenny, minDelta))
            && (forall i :: 0 <= i < |analyses| && Passes(analyses[i], searchQuery, showIraOnly, hidePenny, minDelta) ==> analyses[i] in r)
            && ApplyFilters(r, searchQuery, showIraOnly, hidePenny, minDelta) == r
  {
    var p := PassTest(searchQuery, showIraOnly, hidePenny, minDelta);
    ApplyFiltersIsFilter(analyses, searchQuery, showIraOnly, hidePenny, minDelta);
    var r := Seqs.Filter(analyses, p);
    Seqs.FilterIsSubseq(analyses, p);
    ApplyFiltersIsFilter(r, searchQuery, showIraOnly, hidePenny, minDelta);
    Seqs.FilterAll(r, p);
  }
}
