/**
 * Inflation Reduction Act (IRA) price-negotiation flags (risk/ira_flags.py):
 * the two negotiated-drug tables, the combined name-to-year dict built from
 * them, and the lookup that flags a drug name by exact, then partial, match.
 */
module IraFlags {
  import opened Wrappers
  import opened Text
  import opened Dicts
  import Seqs

  /** Drugs negotiated for 2026 pricing: brand name and description, in table order. */
  const Ira2026Drugs: seq<(string, string)> := [
    ("ELIQUIS", "Blood thinner (apixaban)"),
    ("JARDIANCE", "Diabetes (empagliflozin)"),
    ("XARELTO", "Blood thinner (rivaroxaban)"),
    ("JANUVIA", "Diabetes (sitagliptin)"),
    ("FARXIGA", "Diabetes/Heart failure (dapagliflozin)"),
    ("ENTRESTO", "Heart failure (sacubitril/valsartan)"),
    ("ENBREL", "Autoimmune (etanercept)"),
    ("IMBRUVICA", "Cancer (ibrutinib)"),
    ("STELARA", "Autoimmune (ustekinumab)"),
    ("FIASP", "Insulin (insulin aspart)"),
    ("FIASP FLEXTOUCH", "Insulin (insulin aspart)"),
    ("FIASP PENFILL", "Insulin (insulin aspart)"),
    ("NOVOLOG", "Insulin (insulin aspart)"),
    ("NOVOLOG FLEXPEN", "Insulin (insulin aspart)"),
    ("NOVOLOG MIX", "Insulin (insulin aspart)")
  ]

  /** Drugs negotiated for 2027 pricing. */
  const Ira2027Drugs: seq<(string, string)> := [
    ("OZEMPIC", "Diabetes/Weight loss (semaglutide)"),
    ("RYBELSUS", "Diabetes (oral semaglutide)"),
    ("WEGOVY", "Weight loss (semaglutide)"),
    ("TRELEGY ELLIPTA", "COPD (fluticasone/umeclidinium/vilanterol)"),
    ("TRULICITY", "Diabetes (dulaglutide)"),
    ("POMALYST", "Cancer (pomalidomide)"),
    ("AUSTEDO", "Movement disorders (deutetrabenazine)"),
    ("IBRANCE", "Cancer (palbociclib)"),
    ("OTEZLA", "Autoimmune (apremilast)"),
    ("COSENTYX", "Autoimmune (secukinumab)"),
    ("TALZENNA", "Cancer (talazoparib)"),
    ("AUBAGIO", "Multiple sclerosis (teriflunomide)"),
    ("OMVOH", "Ulcerative colitis (mirikizumab)"),
    ("XTANDI", "Cancer (enzalutamide)"),
    ("SIVEXTRO", "Antibiotic (tedizolid)")
  ]

  /** The write `IRA_DRUGS_BY_YEAR[drug.upper()] = year` made for one table entry. */
  function YearEntry(year: int): ((string, string)) -> (string, int) {
    (e: (string, string)) => (Upper(e.0), year)
  }

  /** Risk levels reported: "High Risk", "Low Risk", "Unknown". */
  datatype RiskLabel = HighRisk | LowRisk | Unknown

  function RiskLabelText(l: RiskLabel): string {
    match l
    case HighRisk => "High Risk"
    case LowRisk => "Low Risk"
    case Unknown => "Unknown"
  }

  /** One entry of `get_all_ira_drugs`. */
  datatype IraInfo = IraInfo(year: int, description: string, riskLevel: RiskLabel)

  /** The write `all_drugs[drug] = {...}` made by `get_all_ira_drugs` for one table entry. */
  function InfoEntry(year: int): ((string, string)) -> (string, IraInfo) {
    (e: (string, string)) => (e.0, IraInfo(year, e.1, HighRisk))
  }

  /** `IRA_DRUGS_BY_YEAR` as the module's loops build it: the 2026 names first, then the 2027 names, upper-cased. */
  function ByYearOf(drugs2026: seq<(string, string)>, drugs2027: seq<(string, string)>): seq<(string, int)> {
    PutEach(PutEach([], drugs2026, YearEntry(2026)), drugs2027, YearEntry(2027))
  }

  /**
   * The module's state: its two negotiated-drug tables and the dict
   * `IRA_DRUGS_BY_YEAR` built from them when the module loads.
   */
  datatype IraTables = IraTables(
    drugs2026: seq<(string, string)>,
    drugs2027: seq<(string, string)>,
    byYear: seq<(string, int)>)
  {
    ghost predicate Valid() {
      byYear == ByYearOf(drugs2026, drugs2027)
    }

    /** The dict `get_all_ira_drugs` returns: the 2026 table written first, then the 2027 table. */
    function AllDrugs(): seq<(string, IraInfo)> {
      PutEach(PutEach([], drugs2026, InfoEntry(2026)), drugs2027, InfoEntry(2027))
    }

    /** `IRA_2026_DRUGS.get(k) or IRA_2027_DRUGS.get(k)`: an empty 2026 description also falls through. */
    function Description(k: string): Option<string> {
      var d := Lookup(drugs2026, k);
      if d.Some? && d.value != [] then d else Lookup(drugs2027, k)
    }
  }

  /** Loading the module: the loops that fill `IRA_DRUGS_BY_YEAR` from the two tables. */
  method LoadIraTables(drugs2026: seq<(string, string)>, drugs2027: seq<(string, string)>) returns (t: IraTables)
    ensures t.Valid() && t.drugs2026 == drugs2026 && t.drugs2027 == drugs2027
  {
    var byYear := [];
    ghost var first := byYear;
    for n := 0 to |drugs2026|
      invariant byYear == PutEach(first, drugs2026[..n], YearEntry(2026))
    {
      PutEachSnoc(first, drugs2026, n, YearEntry(2026));
      byYear := Put(byYear, Upper(drugs2026[n].0), 2026);
    }
    assert drugs2026[..|drugs2026|] == drugs2026;
    first := byYear;
    for n := 0 to |drugs2027|
      invariant byYear == PutEach(first, drugs2027[..n], YearEntry(2027))
    {
      PutEachSnoc(first, drugs2027, n, YearEntry(2027));
      byYear := Put(byYear, Upper(drugs2027[n].0), 2027);
    }
    assert drugs2027[..|drugs2027|] == drugs2027;
    t := IraTables(drugs2026, drugs2027, byYear);
  }

  /** `k` is the upper-cased name of some entry of `table`. */
  predicate HasUpperName(table: seq<(string, string)>, k: string) {
    exists i :: 0 <= i < |table| && Upper(table[i].0) == k
  }

  lemma {:induction false} LastYear(table: seq<(string, string)>, year: int, k: string)
    ensures LastValue(table, YearEntry(year), k) == if HasUpperName(table, k) then Some(year) else None
  {
    if table != [] {
      var n := |table| - 1;
      LastYear(table[..n], year, k);
      if HasUpperName(table, k) && Upper(table[n].0) != k {
        var i :| 0 <= i < |table| && Upper(table[i].0) == k;
        assert table[..n][i] == table[i];
      }
      if HasUpperName(table[..n], k) {
        var i :| 0 <= i < n && Upper(table[..n][i].0) == k;
        assert table[i] == table[..n][i];
      }
    }
  }

  /**
   * `IRA_DRUGS_BY_YEAR` maps a name to 2027 when it is a 2027 drug, else to
   * 2026 when it is a 2026 drug (the second loop overwrites the first), and
   * holds no other key.
   */
  lemma ByYearLookup(t: IraTables, k: string)
    requires t.Valid()
    ensures Lookup(t.byYear, k)
            == if HasUpperName(t.drugs2027, k) then Some(2027)
               else if HasUpperName(t.drugs2026, k) then Some(2026)
               else None
  {
    var first := PutEach([], t.drugs2026, YearEntry(2026));
    PutEachLookup(first, t.drugs2027, YearEntry(2027), k);
    PutEachLookup([], t.drugs2026, YearEntry(2026), k);
    LastYear(t.drugs2027, 2027, k);
    LastYear(t.drugs2026, 2026, k);
  }

  predicate IraYear(y: int) {
    y == 2026 || y == 2027
  }

  /** The keys of `IRA_DRUGS_BY_YEAR` are distinct and its years are 2026 or 2027. */
  lemma ByYearWellFormed(t: IraTables)
    requires t.Valid()
    ensures DistinctKeys(t.byYear)
    ensures forall i :: 0 <= i < |t.byYear| ==> IraYear(t.byYear[i].1)
  {
    var first := PutEach([], t.drugs2026, YearEntry(2026));
    PutEachValues([], t.drugs2026, YearEntry(2026), IraYear);
    PutEachValues(first, t.drugs2027, YearEntry(2027), IraYear);
  }

  /** The warning shown with an assessment, with the data its text is built from. */
  datatype IraWarning =
    | NoNameProvided
    | ExactIraMatch(inputName: string, year: int)
    | PartialIraMatch(inputName: string, matched: string, year: int)
    | NoIraRisk

  /** The dict returned by `check_ira_status`. */
  datatype IraStatus = IraStatus(
    isIraDrug: bool,
    iraYear: Option<int>,
    drugName: Option<string>,
    description: Option<string>,
    warning: IraWarning,
    riskLevel: RiskLabel)

  /** The partial-match test: either name occurs in the other. */
  predicate NamesOverlap(nameUpper: string, iraDrug: string) {
    Contains(nameUpper, iraDrug) || Contains(iraDrug, nameUpper)
  }

  function OverlapTest(nameUpper: string): ((string, int)) -> bool {
    (e: (string, int)) => NamesOverlap(nameUpper, e.0)
  }

  /** The position of the first entry, in insertion order, that overlaps `nameUpper`, or -1. */
  function PartialMatch(byYear: seq<(string, int)>, nameUpper: string): (i: int)
    ensures -1 <= i < |byYear|
    ensures i >= 0 ==> NamesOverlap(nameUpper, byYear[i].0)
    ensures forall j :: 0 <= j < |byYear| && (i < 0 || j < i) ==> !NamesOverlap(nameUpper, byYear[j].0)
  {
    Seqs.FirstIndex(byYear, OverlapTest(nameUpper))
  }

  /** The normalized name: `drug_name.upper().strip()`. */
  function NameKey(drugName: string): string {
    Strip(Upper(drugName))
  }

  /**
   * `check_ira_status`: an empty name is of unknown risk; otherwise the
   * normalized name is looked up exactly, then matched partially against
   * `IRA_DRUGS_BY_YEAR` in insertion order; a hit is high risk, anything else
   * low risk.
   */
  function CheckIraStatus(t: IraTables, drugName: string): (s: IraStatus)
    ensures drugName == [] ==> s == IraStatus(false, None, None, None, NoNameProvided, Unknown)
    ensures s.isIraDrug ==> s.riskLevel == HighRisk && s.iraYear.Some? && s.drugName.Some?
    ensures !s.isIraDrug ==>
      && s.iraYear == None && s.drugName == None && s.description == None
      && s.riskLevel == (if drugName == [] then Unknown else LowRisk)
  {
    if drugName == [] then IraStatus(false, None, None, None, NoNameProvided, Unknown)
    else
      var byYear := t.byYear;
      var nameUpper := NameKey(drugName);
      var exact := Lookup(byYear, nameUpper);
      if exact.Some? then
        IraStatus(true, exact, Some(nameUpper), t.Description(nameUpper), ExactIraMatch(drugName, exact.value), HighRisk)
      else
        var i := PartialMatch(byYear, nameUpper);
        if i >= 0 then
          var (k, year) := byYear[i];
          IraStatus(true, Some(year), Some(k), t.Description(k), PartialIraMatch(drugName, k, year), HighRisk)
        else
          IraStatus(false, None, None, None, NoIraRisk, LowRisk)
  }

  /**
   * A flagged drug is reported under a name of `IRA_DRUGS_BY_YEAR`, with the
   * year that dict gives it (2026 or 2027) and that name's description.
   */
  lemma CheckIraStatusMatched(t: IraTables, drugName: string)
    requires t.Valid()
    ensures var s := CheckIraStatus(t, drugName);
            s.isIraDrug ==>
              && IraYear(s.iraYear.value)
              && Lookup(t.byYear, s.drugName.value) == s.iraYear
              && s.description == t.Description(s.drugName.value)
  {
    var byYear := t.byYear;
    ByYearWellFormed(t);
    if drugName != [] && Lookup(byYear, NameKey(drugName)).None? {
      var i := PartialMatch(byYear, NameKey(drugName));
      if i >= 0 {
        LookupEntry(byYear, i);
      }
    }
  }

  /** Every name occurs in itself. */
  lemma ContainsSelf(s: string)
    ensures Contains(s, s)
  {
    assert MatchAt(s, s, 0);
  }

  /**
   * A non-empty name is flagged exactly when its normalized form and some
   * name of `IRA_DRUGS_BY_YEAR` overlap (one occurs in the other).
   */
  lemma CheckIraStatusFlagged(t: IraTables, drugName: string)
    requires drugName != []
    ensures CheckIraStatus(t, drugName).isIraDrug
            <==> exists i :: 0 <= i < |t.byYear| && NamesOverlap(NameKey(drugName), t.byYear[i].0)
  {
    var nameUpper := NameKey(drugName);
    if Lookup(t.byYear, nameUpper).Some? {
      var j := IndexOf(t.byYear, nameUpper);
      ContainsSelf(nameUpper);
      assert NamesOverlap(nameUpper, t.byYear[j].0);
    }
  }

  /**
   * An exact match wins over every partial match: the name reported is the
   * normalized input with its own year. Otherwise the entry reported is the
   * first overlapping one in insertion order.
   */
  lemma CheckIraStatusOrder(t: IraTables, drugName: string)
    requires drugName != []
    ensures var s := CheckIraStatus(t, drugName);
            var k := NameKey(drugName);
            && (Lookup(t.byYear, k).Some? ==> s.drugName == Some(k) && s.iraYear == Lookup(t.byYear, k))
            && (Lookup(t.byYear, k).None? && s.isIraDrug ==>
                  exists i :: 0 <= i < |t.byYear| && t.byYear[i] == (s.drugName.value, s.iraYear.value)
                    && NamesOverlap(k, t.byYear[i].0)
                    && forall j :: 0 <= j < i ==> !NamesOverlap(k, t.byYear[j].0))
  {
    var k := NameKey(drugName);
    var s := CheckIraStatus(t, drugName);
    if Lookup(t.byYear, k).None? && s.isIraDrug {
      var i := PartialMatch(t.byYear, k);
      assert t.byYear[i] == (s.drugName.value, s.iraYear.value);
    }
  }

  /** A name that overlaps no table name, once upper-cased, is not flagged. */
  lemma NotFlagged(t: IraTables, drugName: string)
    requires t.Valid() && drugName != []
    requires forall j :: 0 <= j < |t.drugs2026| ==> !NamesOverlap(NameKey(drugName), Upper(t.drugs2026[j].0))
    requires forall j :: 0 <= j < |t.drugs2027| ==> !NamesOverlap(NameKey(drugName), Upper(t.drugs2027[j].0))
    ensures CheckIraStatus(t, drugName) == IraStatus(false, None, None, None, NoIraRisk, LowRisk)
  {
    CheckIraStatusFlagged(t, drugName);
    ByYearWellFormed(t);
    forall i | 0 <= i < |t.byYear| ensures !NamesOverlap(NameKey(drugName), t.byYear[i].0) {
      LookupEntry(t.byYear, i);
      ByYearLookup(t, t.byYear[i].0);
    }
  }

  /**
   * A name of whitespace only normalizes to "", which no table name equals
   * and which occurs in every name, so it matches the first entry of
   * `IRA_DRUGS_BY_YEAR`: the first 2026 drug, upper-cased, with its year.
   */
  lemma CheckIraStatusBlank(t: IraTables, drugName: string)
    requires t.Valid() && t.drugs2026 != []
    requires forall j :: 0 <= j < |t.drugs2026| ==> t.drugs2026[j].0 != []
    requires forall j :: 0 <= j < |t.drugs2027| ==> t.drugs2027[j].0 != []
    requires drugName != [] && forall i :: 0 <= i < |drugName| ==> IsSpace(drugName[i])
    ensures var first := Upper(t.drugs2026[0].0);
            var s := CheckIraStatus(t, drugName);
            s.isIraDrug && s.drugName == Some(first) && s.iraYear == Lookup(t.byYear, first)
  {
    assert forall i :: 0 <= i < |drugName| ==> Upper(drugName)[i] == drugName[i];
    StripBlank(Upper(drugName));
    assert NameKey(drugName) == [];
    ByYearLookup(t, []);
    PutEachFirst(t.drugs2026, YearEntry(2026));
    var first := Upper(t.drugs2026[0].0);
    assert t.byYear[0].0 == first;
    assert MatchAt(first, [], 0);
    assert PartialMatch(t.byYear, []) == 0;
    ByYearWellFormed(t);
    LookupEntry(t.byYear, 0);
  }

  /** Upper-case text without surrounding whitespace is its own key. */
  lemma NameKeyNoop(s: string)
    requires Stripped(s) && forall i :: 0 <= i < |s| ==> !IsLower(s[i])
    ensures NameKey(s) == s
  {
    UpperNoop(s);
  }

  /** Case and surrounding whitespace do not matter: only the warning repeats the input as given. */
  lemma CheckIraStatusNormalized(t: IraTables, a: string, b: string)
    requires a != [] && b != [] && NameKey(a) == NameKey(b)
    ensures CheckIraStatus(t, a).(warning := NoIraRisk) == CheckIraStatus(t, b).(warning := NoIraRisk)
  {
  }

  /** The `IRARiskStatus` record: the assessment with its risk level as text. */
  datatype IraRiskStatus = IraRiskStatus(
    isIraDrug: bool,
    iraYear: Option<int>,
    drugName: Option<string>,
    description: Option<string>,
    warning: IraWarning,
    riskLevel: string)

  /** `get_ira_risk_status`: the assessment of `check_ira_status` as a record. */
  function GetIraRiskStatus(t: IraTables, drugName: string): (r: IraRiskStatus)
    requires t.Valid()
    ensures r.riskLevel == "High Risk" <==> r.isIraDrug
    ensures r.riskLevel == "Unknown" <==> drugName == []
    ensures r.riskLevel == "Low Risk" <==> drugName != [] && !r.isIraDrug
    ensures r.isIraDrug ==> r.iraYear.Some? && IraYear(r.iraYear.value) && r.drugName.Some?
  {
    CheckIraStatusMatched(t, drugName);
    var s := CheckIraStatus(t, drugName);
    IraRiskStatus(s.isIraDrug, s.iraYear, s.drugName, s.description, s.warning, RiskLabelText(s.riskLevel))
  }

  /** An assessment of a flagged name, tagged with the name as given (`input_name`). */
  datatype IraFlaggedName = IraFlaggedName(status: IraStatus, inputName: string)

  function IraTest(t: IraTables): string -> bool {
    (n: string) => CheckIraStatus(t, n).isIraDrug
  }

  /** `status["input_name"] = name`: the assessment of `name`, tagged with it. */
  function Tag(t: IraTables): string -> IraFlaggedName {
    (n: string) => IraFlaggedName(CheckIraStatus(t, n), n)
  }

  function InputName(f: IraFlaggedName): string {
    f.inputName
  }

  /** `filter_ira_drugs`: the assessments of the flagged names, in input order. */
  method FilterIraDrugs(t: IraTables, drugNames: seq<string>) returns (iraDrugs: seq<IraFlaggedName>)
    ensures iraDrugs == Seqs.Map(Seqs.Filter(drugNames, IraTest(t)), Tag(t))
  {
    iraDrugs := [];
    for n := 0 to |drugNames|
      invariant iraDrugs == Seqs.Map(Seqs.Filter(drugNames[..n], IraTest(t)), Tag(t))
    {
      var name := drugNames[n];
      var status := CheckIraStatus(t, name);
      Seqs.MapFilterSnoc(drugNames, n, IraTest(t), Tag(t));
      if status.isIraDrug {
        iraDrugs := iraDrugs + [IraFlaggedName(status, name)];
      }
    }
    assert drugNames[..|drugNames|] == drugNames;
  }

  /**
   * Every reported entry is a flagged assessment of its own input name, and
   * the input names reported are the flagged inputs, in input order.
   */
  lemma FilterIraDrugsSpec(t: IraTables, drugNames: seq<string>)
    ensures var r := Seqs.Map(Seqs.Filter(drugNames, IraTest(t)), Tag(t));
            && (forall i :: 0 <= i < |r| ==> r[i].status.isIraDrug && r[i].status == CheckIraStatus(t, r[i].inputName))
            && Seqs.Map(r, InputName) == Seqs.Filter(drugNames, IraTest(t))
  {
    var f := Seqs.Filter(drugNames, IraTest(t));
    Seqs.MapInverse(f, Tag(t), InputName);
  }

  /** `k` is the name of some entry of `table`. */
  predicate HasName(table: seq<(string, string)>, k: string) {
    exists i :: 0 <= i < |table| && table[i].0 == k
  }

  lemma {:induction false} LastInfo(table: seq<(string, string)>, year: int, k: string)
    ensures LastValue(table, InfoEntry(year), k).Some? <==> HasName(table, k)
    ensures LastValue(table, InfoEntry(year), k).Some? ==>
              var info := LastValue(table, InfoEntry(year), k).value;
              && info.year == year && info.riskLevel == HighRisk
              && exists i :: 0 <= i < |table| && table[i] == (k, info.description)
  {
    if table != [] {
      var n := |table| - 1;
      LastInfo(table[..n], year, k);
      if HasName(table, k) && table[n].0 != k {
        var i :| 0 <= i < |table| && table[i].0 == k;
        assert table[..n][i] == table[i];
      }
      if HasName(table[..n], k) {
        var i :| 0 <= i < n && table[..n][i].0 == k;
        assert table[i] == table[..n][i];
      }
      if table[n].0 != k && LastValue(table, InfoEntry(year), k).Some? {
        var info := LastValue(table, InfoEntry(year), k).value;
        var i :| 0 <= i < n && table[..n][i] == (k, info.description);
        assert table[i] == table[..n][i];
      }
    }
  }

  /**
   * `get_all_ira_drugs` lists every drug of both tables under its own name,
   * as a high-risk drug of 2027 when it is in the 2027 table (the second
   * loop overwrites) and of 2026 otherwise, with a description that table
   * gives it; it lists nothing else.
   */
  lemma AllDrugsLookup(t: IraTables, k: string)
    ensures Lookup(t.AllDrugs(), k).Some? <==> HasName(t.drugs2026, k) || HasName(t.drugs2027, k)
    ensures Lookup(t.AllDrugs(), k).Some? ==>
              var info := Lookup(t.AllDrugs(), k).value;
              var table := if HasName(t.drugs2027, k) then t.drugs2027 else t.drugs2026;
              && info.year == (if HasName(t.drugs2027, k) then 2027 else 2026)
              && info.riskLevel == HighRisk
              && exists i :: 0 <= i < |table| && table[i] == (k, info.description)
  {
    var first := PutEach([], t.drugs2026, InfoEntry(2026));
    PutEachLookup(first, t.drugs2027, InfoEntry(2027), k);
    PutEachLookup([], t.drugs2026, InfoEntry(2026), k);
    LastInfo(t.drugs2027, 2027, k);
    LastInfo(t.drugs2026, 2026, k);
  }

  /** `get_all_ira_drugs`. */
  method GetAllIraDrugs(t: IraTables) returns (allDrugs: seq<(string, IraInfo)>)
    ensures allDrugs == t.AllDrugs()
  {
    allDrugs := [];
    ghost var first := allDrugs;
    for n := 0 to |t.drugs2026|
      invariant allDrugs == PutEach(first, t.drugs2026[..n], InfoEntry(2026))
    {
      PutEachSnoc(first, t.drugs2026, n, InfoEntry(2026));
      var (drug, description) := t.drugs2026[n];
      allDrugs := Put(allDrugs, drug, IraInfo(2026, description, HighRisk));
    }
    assert t.drugs2026[..|t.drugs2026|] == t.drugs2026;
    first := allDrugs;
    for n := 0 to |t.drugs2027|
      invariant allDrugs == PutEach(first, t.drugs2027[..n], InfoEntry(2027))
    {
      PutEachSnoc(first, t.drugs2027, n, InfoEntry(2027));
      var (drug, description) := t.drugs2027[n];
      allDrugs := Put(allDrugs, drug, IraInfo(2027, description, HighRisk));
    }
    assert t.drugs2027[..|t.drugs2027|] == t.drugs2027;
  }
}
