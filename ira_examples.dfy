/**
 * The IRA assessment on the tables the module publishes: the gatekeeper
 * cases of the project's validation scripts.
 */
module IraExamples {
  import opened Wrappers
  import opened Text
  import opened Dicts
  import opened IraFlags

  /** The module's state once loaded from its published tables. */
  predicate Published(t: IraTables) {
    t.drugs2026 == Ira2026Drugs && t.drugs2027 == Ira2027Drugs
  }

  lemma EnbrelInTables()
    ensures NameKey("ENBREL") == "ENBREL"
    ensures HasUpperName(Ira2026Drugs, "ENBREL") && !HasUpperName(Ira2027Drugs, "ENBREL")
  {
    UpperNoop("ENBREL");
    UpperNoop(Ira2026Drugs[6].0);
    EnbrelNot2027();
  }

  lemma EnbrelNot2027()
    ensures !HasUpperName(Ira2027Drugs, "ENBREL")
  {
    TablesUpper();
  }

  lemma EnbrelDescription()
    ensures Lookup(Ira2026Drugs, "ENBREL") == Some("Autoimmune (etanercept)")
  {
    assert Ira2026Drugs[6].0 == "ENBREL";
    assert forall j :: 0 <= j < 6 ==> Ira2026Drugs[j].0 != "ENBREL";
  }

  /** ENBREL is a 2026 drug: an exact match, high risk. */
  lemma EnbrelExample(t: IraTables)
    requires t.Valid() && Published(t)
    ensures CheckIraStatus(t, "ENBREL")
            == IraStatus(true, Some(2026), Some("ENBREL"), Some("Autoimmune (etanercept)"), ExactIraMatch("ENBREL", 2026), HighRisk)
  {
    EnbrelInTables();
    EnbrelDescription();
    ByYearLookup(t, "ENBREL");
  }

  /** A name lacking a character of a table name, and holding a character that name lacks (or longer than it), does not overlap it. */
  lemma NoOverlap(name: string, k: string, i: nat, j: nat)
    requires i < |name| && name[i] !in k
    requires |k| > |name| || (j < |k| && k[j] !in name)
    ensures !NamesOverlap(name, k)
  {
    MissingChar(k, name, i);
    if |k| <= |name| {
      MissingChar(name, k, j);
    }
  }

  lemma TablesUpper()
    ensures forall j :: 0 <= j < |Ira2026Drugs| ==> Upper(Ira2026Drugs[j].0) == Ira2026Drugs[j].0
    ensures forall j :: 0 <= j < |Ira2027Drugs| ==> Upper(Ira2027Drugs[j].0) == Ira2027Drugs[j].0
  {
    forall j | 0 <= j < |Ira2026Drugs| ensures Upper(Ira2026Drugs[j].0) == Ira2026Drugs[j].0 {
      UpperNoop(Ira2026Drugs[j].0);
    }
    forall j | 0 <= j < |Ira2027Drugs| ensures Upper(Ira2027Drugs[j].0) == Ira2027Drugs[j].0 {
      UpperNoop(Ira2027Drugs[j].0);
    }
  }

  lemma HumiraMisses2026()
    ensures forall j :: 0 <= j < |Ira2026Drugs| ==> !NamesOverlap("HUMIRA", Ira2026Drugs[j].0)
  {
    HumiraMisses2026Head();
    HumiraMisses2026Tail();
  }

  lemma HumiraMisses2026Head()
    ensures forall j :: 0 <= j < 8 ==> !NamesOverlap("HUMIRA", Ira2026Drugs[j].0)
  {
    NoOverlap("HUMIRA", Ira2026Drugs[0].0, 0, 0);
    NoOverlap("HUMIRA", Ira2026Drugs[1].0, 0, 0);
    NoOverlap("HUMIRA", Ira2026Drugs[2].0, 0, 0);
    NoOverlap("HUMIRA", Ira2026Drugs[3].0, 0, 0);
    NoOverlap("HUMIRA", Ira2026Drugs[4].0, 0, 0);
    NoOverlap("HUMIRA", Ira2026Drugs[5].0, 0, 0);
    NoOverlap("HUMIRA", Ira2026Drugs[6].0, 0, 0);
    NoOverlap("HUMIRA", Ira2026Drugs[7].0, 0, 0);
  }

  lemma HumiraMisses2026Tail()
    ensures forall j :: 8 <= j < |Ira2026Drugs| ==> !NamesOverlap("HUMIRA", Ira2026Drugs[j].0)
  {
    NoOverlap("HUMIRA", Ira2026Drugs[8].0, 0, 0);
    NoOverlap("HUMIRA", Ira2026Drugs[9].0, 0, 0);
    NoOverlap("HUMIRA", Ira2026Drugs[10].0, 2, 0);
    NoOverlap("HUMIRA", Ira2026Drugs[11].0, 0, 0);
    NoOverlap("HUMIRA", Ira2026Drugs[12].0, 0, 0);
    NoOverlap("HUMIRA", Ira2026Drugs[13].0, 0, 0);
    NoOverlap("HUMIRA", Ira2026Drugs[14].0, 0, 0);
  }

  lemma HumiraMisses2027()
    ensures forall j :: 0 <= j < |Ira2027Drugs| ==> !NamesOverlap("HUMIRA", Ira2027Drugs[j].0)
  {
    HumiraMisses2027Head();
    HumiraMisses2027Tail();
  }

  lemma HumiraMisses2027Head()
    ensures forall j :: 0 <= j < 8 ==> !NamesOverlap("HUMIRA", Ira2027Drugs[j].0)
  {
    NoOverlap("HUMIRA", Ira2027Drugs[0].0, 0, 0);
    NoOverlap("HUMIRA", Ira2027Drugs[1].0, 0, 0);
    NoOverlap("HUMIRA", Ira2027Drugs[2].0, 0, 0);
    NoOverlap("HUMIRA", Ira2027Drugs[3].0, 0, 0);
    NoOverlap("HUMIRA", Ira2027Drugs[4].0, 0, 0);
    NoOverlap("HUMIRA", Ira2027Drugs[5].0, 0, 0);
    NoOverlap("HUMIRA", Ira2027Drugs[6].0, 0, 0);
    NoOverlap("HUMIRA", Ira2027Drugs[7].0, 0, 0);
  }

  lemma HumiraMisses2027Tail()
    ensures forall j :: 8 <= j < |Ira2027Drugs| ==> !NamesOverlap("HUMIRA", Ira2027Drugs[j].0)
  {
    NoOverlap("HUMIRA", Ira2027Drugs[8].0, 0, 0);
    NoOverlap("HUMIRA", Ira2027Drugs[9].0, 0, 0);
    NoOverlap("HUMIRA", Ira2027Drugs[10].0, 0, 0);
    NoOverlap("HUMIRA", Ira2027Drugs[11].0, 0, 0);
    NoOverlap("HUMIRA", Ira2027Drugs[12].0, 1, 0);
    NoOverlap("HUMIRA", Ira2027Drugs[13].0, 0, 0);
    NoOverlap("HUMIRA", Ira2027Drugs[14].0, 0, 0);
  }

  lemma MetforminMisses2026()
    ensures forall j :: 0 <= j < |Ira2026Drugs| ==> !NamesOverlap("METFORMIN", Ira2026Drugs[j].0)
  {
    MetforminMisses2026Head();
    MetforminMisses2026Tail();
  }

  lemma MetforminMisses2026Head()
    ensures forall j :: 0 <= j < 8 ==> !NamesOverlap("METFORMIN", Ira2026Drugs[j].0)
  {
    NoOverlap("METFORMIN", Ira2026Drugs[0].0, 0, 1);
    NoOverlap("METFORMIN", Ira2026Drugs[1].0, 0, 0);
    NoOverlap("METFORMIN", Ira2026Drugs[2].0, 0, 0);
    NoOverlap("METFORMIN", Ira2026Drugs[3].0, 0, 0);
    NoOverlap("METFORMIN", Ira2026Drugs[4].0, 0, 1);
    NoOverlap("METFORMIN", Ira2026Drugs[5].0, 0, 5);
    NoOverlap("METFORMIN", Ira2026Drugs[6].0, 0, 2);
    NoOverlap("METFORMIN", Ira2026Drugs[7].0, 1, 2);
  }

  lemma MetforminMisses2026Tail()
    ensures forall j :: 8 <= j < |Ira2026Drugs| ==> !NamesOverlap("METFORMIN", Ira2026Drugs[j].0)
  {
    NoOverlap("METFORMIN", Ira2026Drugs[8].0, 0, 0);
    NoOverlap("METFORMIN", Ira2026Drugs[9].0, 0, 2);
    NoOverlap("METFORMIN", Ira2026Drugs[10].0, 0, 0);
    NoOverlap("METFORMIN", Ira2026Drugs[11].0, 0, 0);
    NoOverlap("METFORMIN", Ira2026Drugs[12].0, 0, 2);
    NoOverlap("METFORMIN", Ira2026Drugs[13].0, 0, 0);
    NoOverlap("METFORMIN", Ira2026Drugs[14].0, 1, 0);
  }

  lemma MetforminMisses2027()
    ensures forall j :: 0 <= j < |Ira2027Drugs| ==> !NamesOverlap("METFORMIN", Ira2027Drugs[j].0)
  {
    MetforminMisses2027Head();
    MetforminMisses2027Tail();
  }

  lemma MetforminMisses2027Head()
    ensures forall j :: 0 <= j < 8 ==> !NamesOverlap("METFORMIN", Ira2027Drugs[j].0)
  {
    NoOverlap("METFORMIN", Ira2027Drugs[0].0, 2, 1);
    NoOverlap("METFORMIN", Ira2027Drugs[1].0, 0, 1);
    NoOverlap("METFORMIN", Ira2027Drugs[2].0, 0, 0);
    NoOverlap("METFORMIN", Ira2027Drugs[3].0, 0, 0);
    NoOverlap("METFORMIN", Ira2027Drugs[4].0, 0, 2);
    NoOverlap("METFORMIN", Ira2027Drugs[5].0, 1, 0);
    NoOverlap("METFORMIN", Ira2027Drugs[6].0, 0, 0);
    NoOverlap("METFORMIN", Ira2027Drugs[7].0, 0, 1);
  }

  lemma MetforminMisses2027Tail()
    ensures forall j :: 8 <= j < |Ira2027Drugs| ==> !NamesOverlap("METFORMIN", Ira2027Drugs[j].0)
  {
    NoOverlap("METFORMIN", Ira2027Drugs[8].0, 0, 3);
    NoOverlap("METFORMIN", Ira2027Drugs[9].0, 0, 0);
    NoOverlap("METFORMIN", Ira2027Drugs[10].0, 0, 1);
    NoOverlap("METFORMIN", Ira2027Drugs[11].0, 0, 0);
    NoOverlap("METFORMIN", Ira2027Drugs[12].0, 1, 2);
    NoOverlap("METFORMIN", Ira2027Drugs[13].0, 0, 0);
    NoOverlap("METFORMIN", Ira2027Drugs[14].0, 0, 0);
  }

  lemma HumiraFacts()
    ensures NameKey("HUMIRA") == "HUMIRA"
    ensures forall j :: 0 <= j < |Ira2026Drugs| ==> !NamesOverlap("HUMIRA", Upper(Ira2026Drugs[j].0))
    ensures forall j :: 0 <= j < |Ira2027Drugs| ==> !NamesOverlap("HUMIRA", Upper(Ira2027Drugs[j].0))
  {
    NameKeyNoop("HUMIRA");
    TablesUpper();
    HumiraMisses2026();
    HumiraMisses2027();
  }

  /** HUMIRA is not an IRA drug: low risk. */
  lemma HumiraExample(t: IraTables)
    requires t.Valid() && Published(t)
    ensures CheckIraStatus(t, "HUMIRA") == IraStatus(false, None, None, None, NoIraRisk, LowRisk)
  {
    HumiraFacts();
    NotFlagged(t, "HUMIRA");
  }

  lemma MetforminFacts()
    ensures NameKey("METFORMIN") == "METFORMIN"
    ensures forall j :: 0 <= j < |Ira2026Drugs| ==> !NamesOverlap("METFORMIN", Upper(Ira2026Drugs[j].0))
    ensures forall j :: 0 <= j < |Ira2027Drugs| ==> !NamesOverlap("METFORMIN", Upper(Ira2027Drugs[j].0))
  {
    NameKeyNoop("METFORMIN");
    TablesUpper();
    MetforminMisses2026();
    MetforminMisses2027();
  }

  /** METFORMIN, a generic, is not an IRA drug: low risk. */
  lemma MetforminExample(t: IraTables)
    requires t.Valid() && Published(t)
    ensures CheckIraStatus(t, "METFORMIN") == IraStatus(false, None, None, None, NoIraRisk, LowRisk)
  {
    MetforminFacts();
    NotFlagged(t, "METFORMIN");
  }

  lemma OzempicInTables()
    ensures NameKey("OZEMPIC") == "OZEMPIC" && HasUpperName(Ira2027Drugs, "OZEMPIC")
  {
    UpperNoop("OZEMPIC");
    assert Upper(Ira2027Drugs[0].0) == "OZEMPIC";
  }

  lemma OzempicNot2026()
    ensures Lookup(Ira2026Drugs, "OZEMPIC") == None
  {
    assert forall j :: 0 <= j < |Ira2026Drugs| ==> Ira2026Drugs[j].0 != "OZEMPIC";
    LookupAbsent(Ira2026Drugs, "OZEMPIC");
  }

  lemma OzempicDescription()
    ensures Lookup(Ira2026Drugs, "OZEMPIC") == None
    ensures Lookup(Ira2027Drugs, "OZEMPIC") == Some("Diabetes/Weight loss (semaglutide)")
  {
    OzempicNot2026();
    assert IndexOf(Ira2027Drugs, "OZEMPIC") == 0;
  }

  /** OZEMPIC is a 2027 drug: an exact match, high risk. */
  lemma OzempicExample(t: IraTables)
    requires t.Valid() && Published(t)
    ensures CheckIraStatus(t, "OZEMPIC")
            == IraStatus(true, Some(2027), Some("OZEMPIC"), Some("Diabetes/Weight loss (semaglutide)"), ExactIraMatch("OZEMPIC", 2027), HighRisk)
  {
    OzempicInTables();
    OzempicDescription();
    ByYearLookup(t, "OZEMPIC");
  }

  lemma EliquisFirst()
    ensures Upper(Ira2026Drugs[0].0) == "ELIQUIS"
    ensures HasUpperName(Ira2026Drugs, "ELIQUIS") && !HasUpperName(Ira2027Drugs, "ELIQUIS")
  {
    UpperNoop("ELIQUIS");
    TablesUpper();
  }

  lemma NamesNonEmpty()
    ensures forall j :: 0 <= j < |Ira2026Drugs| ==> Ira2026Drugs[j].0 != []
    ensures forall j :: 0 <= j < |Ira2027Drugs| ==> Ira2027Drugs[j].0 != []
  {
  }

  lemma BlankName()
    ensures "   " != [] && forall i :: 0 <= i < |"   "| ==> IsSpace("   "[i])
  {
  }

  /** A name of blanks matches the first table entry, ELIQUIS, as a 2026 drug. */
  lemma BlankNameExample(t: IraTables)
    requires t.Valid() && Published(t)
    ensures var s := CheckIraStatus(t, "   ");
            s.isIraDrug && s.drugName == Some("ELIQUIS") && s.iraYear == Some(2026)
  {
    EliquisFirst();
    NamesNonEmpty();
    BlankName();
    CheckIraStatusBlank(t, "   ");
    ByYearLookup(t, "ELIQUIS");
  }
}
