/**
 * The records of the 340B optimizer (models.py): the recommended site-of-care
 * pathway, the drug entity combining catalog and pricing data, the margin
 * analysis of one drug, and the loading-dose profile of a biologic.
 * Python `Decimal` amounts are exact `real`s.
 */
module Models {
  import opened Wrappers
  import opened Text

  /** Site-of-care pathway; the three enum members of `RecommendedPath`. */
  datatype RecommendedPath = Retail | MedicareMedical | CommercialMedical

  /** The enum's string values. */
  function PathValue(p: RecommendedPath): (v: string)
    ensures |v| > 0
  {
    match p
    case Retail => "RETAIL"
    case MedicareMedical => "MEDICARE_MEDICAL"
    case CommercialMedical => "COMMERCIAL_MEDICAL"
  }

  /** `RecommendedPath` has exactly three members, each with its own value. */
  lemma PathValuesDistinct(p: RecommendedPath, q: RecommendedPath)
    ensures p == Retail || p == MedicareMedical || p == CommercialMedical
    ensures PathValue(p) == PathValue(q) <==> p == q
  {
  }

  /** Risk classification for regulatory flags. */
  datatype RiskLevel = Low | Medium | High

  /**
   * A drug: catalog identity, 340B contract cost and AWP per package, and the
   * optional medical-billing data (ASP per billing unit and HCPCS code).
   * The defaults are those of the dataclass.
   */
  datatype Drug = Drug(
    ndc: string,
    drugName: string,
    manufacturer: string,
    contractCost: real,
    awp: real,
    asp: Option<real> := None,
    hcpcsCode: Option<string> := None,
    billUnitsPerPackage: int := 1,
    therapeuticClass: Option<string> := None,
    isBiologic: bool := false,
    iraFlag: bool := false,
    pennyPricingFlag: bool := false)
  {
    /** The drug can be billed through the medical channel: it has both a HCPCS code and an ASP. */
    predicate HasMedicalPath()
      ensures HasMedicalPath() <==> hcpcsCode.Some? && asp.Some?
    {
      hcpcsCode.Some? && asp.Some?
    }

    /** The NDC with '-' and ' ' removed: `ndc.replace("-", "").replace(" ", "")`. */
    function NdcCleaned(): (c: string)
      ensures forall i :: 0 <= i < |c| ==> c[i] != '-' && c[i] != ' '
    {
      Remove(Remove(ndc, '-'), ' ')
    }

    /**
     * `ndc_normalized`: the cleaned NDC zero-filled to 11 characters and cut
     * to its rightmost 11.
     */
    function NdcNormalized(): (r: string)
      ensures |r| == 11
      ensures forall i :: 0 <= i < 11 ==> r[i] == '0' || r[i] in NdcCleaned()
      ensures |NdcCleaned()| >= 11 ==> r == NdcCleaned()[|NdcCleaned()| - 11..]
      ensures |NdcCleaned()| < 11 && (NdcCleaned() == [] || NdcCleaned()[0] != '+')
              ==> r == Zeros(11 - |NdcCleaned()|) + NdcCleaned()
    {
      var z := ZFill(NdcCleaned(), 11);
      var r := z[|z| - 11..];
      assert forall i :: 0 <= i < 11 ==> r[i] == z[|z| - 11 + i];
      r
    }
  }

  /** A drug built with only its required fields takes the dataclass defaults. */
  lemma DrugDefaults(ndc: string, name: string, manufacturer: string, cost: real, awp: real)
    ensures var d := Drug(ndc, name, manufacturer, cost, awp);
            && d.asp == None && d.hcpcsCode == None && d.billUnitsPerPackage == 1
            && d.therapeuticClass == None && !d.isBiologic && !d.iraFlag && !d.pennyPricingFlag
            && !d.HasMedicalPath()
  {
  }

  /** Re-normalizing a normalized NDC changes nothing. */
  lemma {:induction false} NdcNormalizedIdempotent(d: Drug)
    ensures d.(ndc := d.NdcNormalized()).NdcNormalized() == d.NdcNormalized()
  {
    var r := d.NdcNormalized();
    var e := d.(ndc := r);
    forall i | 0 <= i < |r| ensures r[i] != '-' && r[i] != ' ' {
      assert r[i] == '0' || r[i] in d.NdcCleaned();
    }
    assert Remove(r, '-') == r;
    assert e.NdcCleaned() == r;
  }

  lemma {:induction false} RemoveSeparators(a: string, b: string, c: string, sep: char)
    requires forall i :: 0 <= i < |a| ==> a[i] != sep
    requires forall i :: 0 <= i < |b| ==> b[i] != sep
    requires forall i :: 0 <= i < |c| ==> c[i] != sep
    ensures Remove(a + [sep] + b + [sep] + c, sep) == a + b + c
  {
    assert Remove([sep], sep) == [];
    RemoveAppend(a + [sep] + b + [sep], c, sep);
    RemoveAppend(a + [sep] + b, [sep], sep);
    RemoveAppend(a + [sep], b, sep);
    RemoveAppend(a, [sep], sep);
  }

  /** The key of the hyphenated NDC 00074-4339-02 is 00074433902. */
  lemma NdcNormalizedExample(d: Drug)
    requires d.ndc == "00074" + "-" + "4339" + "-" + "02"
    ensures d.NdcNormalized() == "00074433902"
  {
    var key := "00074433902";
    RemoveSeparators("00074", "4339", "02", '-');
    assert Remove(d.ndc, '-') == key;
    assert forall i :: 0 <= i < |key| ==> key[i] != ' ';
    assert d.NdcCleaned() == key;
  }

  /**
   * Complete margin analysis for one drug: the three pathway margins, the
   * capture rate used, the recommended pathway and the delta to the next best.
   */
  datatype MarginAnalysis = MarginAnalysis(
    drug: Drug,
    retailGrossMargin: real,
    retailNetMargin: real,
    retailCaptureRate: real,
    medicareMargin: Option<real>,
    commercialMargin: Option<real>,
    recommendedPath: RecommendedPath,
    marginDelta: real)

  /** Loading-dose profile of a biologic: fills in year 1 and in each maintenance year. */
  datatype DosingProfile = DosingProfile(
    drugName: string,
    indication: string,
    year1Fills: int,
    year2PlusFills: int,
    adjustedYear1Fills: real)
  {
    /** Year-1 revenue: compliance-adjusted year-1 fills times the margin per fill. */
    function Year1Revenue(marginPerFill: real): (r: real)
      ensures marginPerFill == 0.0 ==> r == 0.0
      ensures adjustedYear1Fills > 0.0 ==> (r > 0.0 <==> marginPerFill > 0.0)
    {
      RevenueSign(adjustedYear1Fills, marginPerFill);
      adjustedYear1Fills * marginPerFill
    }

    /** Annual maintenance revenue (year 2 on): maintenance fills times the margin per fill. */
    function MaintenanceRevenue(marginPerFill: real): (r: real)
      ensures marginPerFill == 0.0 ==> r == 0.0
      ensures year2PlusFills > 0 ==> (r > 0.0 <==> marginPerFill > 0.0)
    {
      RevenueSign(year2PlusFills as real, marginPerFill);
      year2PlusFills as real * marginPerFill
    }

    /** The patient-acquisition opportunity: year-1 revenue less maintenance revenue. */
    function LoadingDoseDelta(marginPerFill: real): (r: real)
      ensures r == (adjustedYear1Fills - year2PlusFills as real) * marginPerFill
    {
      Year1Revenue(marginPerFill) - MaintenanceRevenue(marginPerFill)
    }
  }

  /**
   * The loading-dose delta is the surplus of year-1 fills over maintenance
   * fills, priced at the margin per fill; it is positive exactly when both the
   * fill surplus and the margin have the same strict sign.
   */
  lemma LoadingDoseDeltaFactors(p: DosingProfile, m: real)
    ensures p.LoadingDoseDelta(m) == (p.adjustedYear1Fills - p.year2PlusFills as real) * m
    ensures var f := p.adjustedYear1Fills - p.year2PlusFills as real;
            p.LoadingDoseDelta(m) > 0.0 <==> (f > 0.0 && m > 0.0) || (f < 0.0 && m < 0.0)
    ensures m == 0.0 ==> p.Year1Revenue(m) == 0.0 && p.MaintenanceRevenue(m) == 0.0 && p.LoadingDoseDelta(m) == 0.0
  {
    var f := p.adjustedYear1Fills - p.year2PlusFills as real;
    assert p.LoadingDoseDelta(m) == f * m;
    ProductPositive(f, m);
  }

  /** A product of reals is positive exactly when both factors have the same strict sign. */
  lemma ProductPositive(a: real, b: real)
    ensures a * b > 0.0 <==> (a > 0.0 && b > 0.0) || (a < 0.0 && b < 0.0)
  {
    if a > 0.0 && b < 0.0 {
      assert a * b == -(a * -b);
    } else if a < 0.0 && b > 0.0 {
      assert a * b == -(-a * b);
    } else if a < 0.0 && b < 0.0 {
      assert a * b == -a * -b;
    }
  }

  /** Revenue at a positive fill count is positive exactly when the margin per fill is. */
  lemma RevenueSign(fills: real, m: real)
    ensures m == 0.0 ==> fills * m == 0.0
    ensures fills > 0.0 ==> (fills * m > 0.0 <==> m > 0.0)
  {
    ProductPositive(fills, m);
  }

  /** 15.3 adjusted fills against 12 maintenance fills at 500 per fill: 7650, 6000, delta 1650 (27.5% uplift). */
  lemma LoadingDoseExample()
    ensures var p := DosingProfile("COSENTYX", "Psoriasis", 17, 12, 15.3);
            && p.Year1Revenue(500.0) == 7650.0
            && p.MaintenanceRevenue(500.0) == 6000.0
            && p.LoadingDoseDelta(500.0) == 1650.0
            && (p.Year1Revenue(500.0) - p.MaintenanceRevenue(500.0)) / p.MaintenanceRevenue(500.0) * 100.0 > 25.0
  {
  }
}
