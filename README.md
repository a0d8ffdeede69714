# 340B optimizer: the pricing engine and its lookups, in Dafny

This project models the decision core of the 340B site-of-care optimizer, a
Streamlit application that tells a covered entity, drug by drug, whether the
retail pharmacy channel or a medical billing channel (Medicare Part B or a
commercial payer) earns the larger margin on a 340B purchase. The model covers:

- **Records** (`models.dfy`, module `Models`):
  - the three-valued `RecommendedPath`;
  - the `Drug` record with its defaults, `has_medical_path` and the 11-character `ndc_normalized` key;
  - `MarginAnalysis`;
  - the `DosingProfile` revenue arithmetic.
- **Margin engine** (`margins.dfy`, module `Margins`):
  - the retail, Medicare and commercial formulas;
  - `determine_recommendation`, which sorts the options by margin and is proved equal to an independent reference: the first option with the largest margin, and its lead over the rest;
  - the complete and payer-specific analyses;
  - the capture-rate sensitivity table.
- **Risk flags**:
  - `penny_pricing.dfy`, module `PennyPricing`: the NADAC scan, the single-drug check, the Top Opportunities filter and the summary counts;
  - `ira_flags.dfy`, module `IraFlags`: the negotiated-drug tables and the year dict built from them when the module loads, the exact-then-partial name match, the list filter and the full drug list;
  - `ira_examples.dfy`: the validation script's cases, proved on the published tables.
- **NDC Lookup page** (`ndc_lookup.dfy`, module `NdcLookup`):
  - digit-only NDC normalisation;
  - trade-name extraction and the match status;
  - the catalog lookup that keeps the cheapest row per NDC;
  - pharmacy margins by drug type;
  - the per-row batch results.
- **Dashboard** (`dashboard.dfy`, module `Dashboard`):
  - the HCPCS/ASP and NADAC lookups;
  - catalog-row to `Drug` conversion;
  - the analysed opportunity list sorted by margin delta;
  - the user's filters.

Supporting modules model the Python built-ins the code relies on:

- `Wrappers`: `Option`.
- `Text`: ASCII `strip`, `upper`, `lower`, `replace` of one character, digit filtering, `zfill`, `in` and `find`.
- `Seqs`: filtering and mapping, first index, and a stable descending insertion sort standing for `list.sort(key=..., reverse=True)`, with sortedness, permutation and stability lemmas.
- `Dicts`: Python dicts as insertion-ordered `(key, value)` sequences where iteration order is observable. Where a dict is only read by key, it is a Dafny `map` built by `Collect`, where the last write wins. `CollectOrRaise` is the same loop when a row can raise.

Modelling conventions:

- **Numbers and tables.**
  - `Decimal` arithmetic is exact `real` arithmetic.
  - A DataFrame is a set of present columns and a sequence of rows. A null cell is `None`/`Null`, and truthiness is modelled where the code tests it.
  - Python's `str()` of a number, and the text syntax accepted by `float()`, `Decimal()` and `int()`, are function parameters (`show`, `parse`, `parseInt`). A conversion that raises is `None`.
- **Module state and session data.**
  - The IRA module's tables and `IRA_DRUGS_BY_YEAR` are an explicit `IraTables` value. `LoadIraTables` builds it with the module's two loops, and `Valid()` states that the dict is the one those loops build.
  - Streamlit session data (the uploaded catalog, crosswalk, ASP file and NADAC file) becomes parameters.
- **Loops as methods.** Functions that work by loops and appends are methods with loop invariants, each proved equal to a specification function. The properties the source promises are proved about those functions as lemmas.

Where the code and the repository's tests disagree, the model follows the code:

- `Drug.ndc_normalized` (models.py:64-74) removes '-' and ' ' and yields exactly 11 characters: the rightmost 11 of a longer NDC, or a shorter one zero-filled. The unit tests in tests/test_models.py:40-67 expect 10-character keys instead.

## Model

| member | source | states |
|---|---|---|
| `Models.PathValue` | src/optimizer_340b/models.py:8-13 | every pathway has a non-empty string value |
| `Models.PathValuesDistinct` | src/optimizer_340b/models.py:8-13 | `RecommendedPath` has exactly the three members RETAIL, MEDICARE_MEDICAL, COMMERCIAL_MEDICAL, and two members have the same value only if they are the same member |
| `Models.Drug.HasMedicalPath` | src/optimizer_340b/models.py:56-62 | a drug has a medical billing path exactly when it has both a HCPCS code and an ASP; either one alone is not enough |
| `Models.Drug.NdcCleaned` | src/optimizer_340b/models.py:73 | the cleaned NDC contains no '-' and no ' ' |
| `Models.Drug.NdcNormalized` | src/optimizer_340b/models.py:64-74 | the key always has exactly 11 characters, each a '0' or a character of the cleaned NDC; a longer cleaned NDC keeps its rightmost 11; a shorter one not starting with '+' is left-padded with zeros (`zfill` keeps a leading sign in front) |
| `Models.NdcNormalizedIdempotent` | src/optimizer_340b/models.py:73-74 | normalising an already normalised NDC returns it unchanged |
| `Models.NdcNormalizedExample` | src/optimizer_340b/models.py:73-74 | the hyphenated NDC 00074-4339-02 has the key 00074433902 |
| `Models.DrugDefaults` | src/optimizer_340b/models.py:48-62 | a drug built from its required fields has no ASP, HCPCS code or class, one billing unit, all three flags false, and no medical path |
| `Models.DosingProfile.Year1Revenue` | src/optimizer_340b/models.py:148-157 | year-1 revenue is zero at a zero margin, and with a positive adjusted fill count it is positive exactly when the margin per fill is |
| `Models.DosingProfile.MaintenanceRevenue` | src/optimizer_340b/models.py:159-168 | maintenance revenue is zero at a zero margin, and with a positive maintenance fill count it is positive exactly when the margin per fill is |
| `Models.DosingProfile.LoadingDoseDelta` | src/optimizer_340b/models.py:170-183 | the delta of year-1 over maintenance revenue is the fill surplus (adjusted year-1 fills − maintenance fills) priced at the margin per fill |
| `Models.LoadingDoseDeltaFactors` | src/optimizer_340b/models.py:148-183 | the loading-dose delta is (adjusted year-1 fills − maintenance fills) × margin per fill; it is positive exactly when the fill surplus and the margin have the same strict sign; a zero margin gives zero year-1, maintenance and delta revenue |
| `Models.LoadingDoseExample` | src/optimizer_340b/models.py:148-183 | 15.3 adjusted fills against 12 maintenance fills at 500 per fill give 7650, 6000 and a delta of 1650, an uplift above 25% |
| `Margins.RetailMargin` | src/optimizer_340b/compute/margins.py:28-60 | gross margin plus contract cost is the AWP-based revenue (AWP × 0.85), so the gross margin is positive exactly when that revenue exceeds the cost; net margin is gross × capture rate |
| `Margins.MedicareMargin` | src/optimizer_340b/compute/margins.py:63-99 | the Medicare margin exists exactly when the drug has a medical path |
| `Margins.CommercialMargin` | src/optimizer_340b/compute/margins.py:102-138 | the commercial margin exists exactly when the drug has a medical path |
| `Margins.RetailMarginLinear` | src/optimizer_340b/compute/margins.py:28-60 | the net retail margin is the full-capture margin × the capture rate; gross does not depend on the rate; with a positive gross, a lower rate gives a strictly lower net |
| `Margins.CommercialExceedsMedicare` | src/optimizer_340b/compute/margins.py:80-130 | commercial − Medicare = 0.09 × ASP × bill units, so commercial is strictly larger whenever ASP × bill units > 0 |
| `Margins.MarginExample` | src/optimizer_340b/compute/margins.py:28-138 | AWP 6500, cost 150, ASP 2800, 2 units: gross retail 5375, net 2418.75 at the 45% default, Medicare 5786, commercial 6290 |
| `Margins.Options` | src/optimizer_340b/compute/margins.py:159-168 | the option list has one to three entries and starts with retail at its net margin |
| `Margins.BestIndex` | src/optimizer_340b/compute/margins.py:170-173 | the reference pick: a position whose margin is ≥ every option's and > every earlier option's |
| `Margins.SortedRecommendation` | src/optimizer_340b/compute/margins.py:170-180 | the head of the stable descending sort and its lead over the second entry equal the reference recommendation |
| `Margins.DetermineRecommendation` | src/optimizer_340b/compute/margins.py:141-187 | the append-sort-read procedure returns exactly the reference recommendation over the available options |
| `Margins.RecommendationIsBest` | src/optimizer_340b/compute/margins.py:159-180 | the recommended pathway is available with the largest margin; every pathway listed before it is strictly smaller, so ties go to retail, then Medicare, then commercial; with a medical option the delta is ≥ 0 and equals best − runner-up; with retail only the path is retail and the delta is the retail net margin |
| `Margins.RecommendationProps` | src/optimizer_340b/compute/margins.py:173-180 | on any option list the reference delta is the lead over some other option and bounds all others, or is the single option's margin |
| `Margins.AnalyzeDrugMargin` | src/optimizer_340b/compute/margins.py:190-231 | the analysis keeps the drug and the rate and stores the retail calculator's gross and net margins unchanged (net = gross × rate); both medical margins exist iff the drug has a medical path; path and delta are the recommendation over the three margins |
| `Margins.AnalyzeDrugMarginBest` | src/optimizer_340b/compute/margins.py:206-224 | in a complete analysis the recommended pathway has the largest available margin; the delta is ≥ 0 with a medical path; a retail-only drug gets retail with delta = net retail |
| `Margins.AnalyzeDrugWithPayer` | src/optimizer_340b/compute/margins.py:234-279 | the payer analysis reports both medical margins and the retail pair unchanged, and its delta is never negative |
| `Margins.AnalyzeDrugWithPayerChoice` | src/optimizer_340b/compute/margins.py:251-278 | the payer's medical path is recommended iff its margin exists and strictly exceeds net retail (Medicare only for "medicare" in any case); the delta is the distance between the two margins, or ± net retail when there is no medical margin |
| `Margins.CalculateMarginSensitivity` | src/optimizer_340b/compute/margins.py:282-327 | one line per capture rate (the five defaults when none are given), in input order, each with the net retail margin, the medical margins (0 when missing) and the pathway recommended at that rate |
| `Margins.SensitivityProportional` | src/optimizer_340b/compute/margins.py:313-325 | each line's net retail margin is the full-capture net × that line's rate; the medical margins are the same on every line |
| `PennyPricing.FlaggedDrugs` | src/optimizer_340b/risk/penny_pricing.py:74-103 | at most one flagged entry per row, each marked penny priced and to be excluded |
| `PennyPricing.CheckPennyPricing` | src/optimizer_340b/risk/penny_pricing.py:49-111 | the scan returns exactly the entries of the penny rows in table order, and nothing when both the flag and the discount columns are missing |
| `PennyPricing.FlaggedDrugsSpec` | src/optimizer_340b/risk/penny_pricing.py:74-103 | the penny rows are a subsequence of the table; a row is among them iff its flag is set or its discount is ≥ 95; each entry reports its own row |
| `PennyPricing.CheckPennyPricingExample` | src/optimizer_340b/risk/penny_pricing.py:79-91 | rows (flag, 99.9), (no flag, 50), (no flag, 96) give exactly two entries, the first and third rows, both for high discount |
| `PennyPricing.FirstMatch` | src/optimizer_340b/risk/penny_pricing.py:142-157 | the first row whose cleaned NDC equals the key, or none when no row matches |
| `PennyPricing.CheckPennyPricingForDrug` | src/optimizer_340b/risk/penny_pricing.py:114-203 | without an NDC column, or without a matching row: not penny, no price or discount; otherwise the first match decides: penny iff flag, price ≤ 0.10 or discount ≥ 95, and exclude always equals penny |
| `PennyPricing.CheckPennyPricingForDrugExample` | src/optimizer_340b/risk/penny_pricing.py:180-186 | a matching row with discount 99 is penny priced; one with 50 is not |
| `PennyPricing.FilterTopOpportunities` | src/optimizer_340b/risk/penny_pricing.py:206-251 | the result is the input filtered by "NDC not in the penny set and own flag not set", the penny set coming from the argument, else from the NADAC scan, else empty |
| `PennyPricing.TopOpportunitiesExclusion` | src/optimizer_340b/risk/penny_pricing.py:234-244 | the survivors are an order-preserving subsequence; an opportunity survives iff its NDC is not penny and its flag is unset |
| `PennyPricing.FilterTopOpportunitiesExample` | src/optimizer_340b/risk/penny_pricing.py:224-251 | of three opportunities, the highest-margin one with its penny flag set is removed and the other two stay in order |
| `PennyPricing.GetPennyPricingSummary` | src/optimizer_340b/risk/penny_pricing.py:254-274 | total = rows; count = the scan's length ≤ total; the percentage is count/total × 100 within 0..100, and 0 for an empty table; the NDC list is the flagged NDCs in order |
| `PennyPricing.Percent` | src/optimizer_340b/risk/penny_pricing.py:267 | the share is between 0 and 100, 0 when the total is 0, and percentage × total = count × 100 |
| `IraFlags.LoadIraTables` | src/optimizer_340b/risk/ira_flags.py:62-66 | the module's two loops build exactly the dict `Valid()` describes from the two tables |
| `IraFlags.ByYearLookup` | src/optimizer_340b/risk/ira_flags.py:62-66 | the dict maps an upper-cased name to 2027 if it is a 2027 drug, else to 2026 if it is a 2026 drug (the later loop overwrites), and holds no other key |
| `IraFlags.ByYearWellFormed` | src/optimizer_340b/risk/ira_flags.py:62-66 | the dict's keys are distinct and every year in it is 2026 or 2027 |
| `IraFlags.PartialMatch` | src/optimizer_340b/risk/ira_flags.py:145-146 | the first dict entry, in insertion order, that occurs in the name or contains it, or none |
| `IraFlags.CheckIraStatus` | src/optimizer_340b/risk/ira_flags.py:90-173 | an empty name gives not-IRA with risk "Unknown"; a flagged result is "High Risk" with a year and a name; an unflagged non-empty name is "Low Risk" with no year, name or description |
| `IraFlags.CheckIraStatusMatched` | src/optimizer_340b/risk/ira_flags.py:120-163 | a flagged drug is reported under a key of the dict, with that key's year (2026 or 2027) and the description found under that name in the 2026 table, or else the 2027 table |
| `IraFlags.CheckIraStatusFlagged` | src/optimizer_340b/risk/ira_flags.py:120-173 | a non-empty name is flagged iff its normalised form and some dict key overlap (one occurs in the other) |
| `IraFlags.CheckIraStatusOrder` | src/optimizer_340b/risk/ira_flags.py:122-163 | an exact match wins, reporting the normalised name and its own year; otherwise the report is the first overlapping entry in insertion order |
| `IraFlags.NotFlagged` | src/optimizer_340b/risk/ira_flags.py:144-173 | a name that overlaps no upper-cased table name is not IRA, with "Low Risk" |
| `IraFlags.CheckIraStatusBlank` | src/optimizer_340b/risk/ira_flags.py:120-163 | when no table name is empty, a whitespace-only name strips to "", which every key contains, so it is reported as the first 2026 drug |
| `IraFlags.CheckIraStatusNormalized` | src/optimizer_340b/risk/ira_flags.py:119-173 | two names with the same upper-cased, stripped form get the same assessment apart from the warning text |
| `IraFlags.GetIraRiskStatus` | src/optimizer_340b/risk/ira_flags.py:176-193 | "High Risk" iff IRA; "Unknown" iff the name is empty; "Low Risk" iff a non-empty name is not IRA; an IRA result carries a year 2026 or 2027 and a name |
| `IraFlags.FilterIraDrugs` | src/optimizer_340b/risk/ira_flags.py:196-213 | the loop returns the assessments of the flagged names, in input order, each tagged with its input name |
| `IraFlags.FilterIraDrugsSpec` | src/optimizer_340b/risk/ira_flags.py:205-213 | every entry is a flagged assessment of its own input name, and the tagged names are exactly the flagged inputs in order |
| `IraFlags.AllDrugsLookup` | src/optimizer_340b/risk/ira_flags.py:216-238 | every drug of both tables is listed under its own name, as high risk, year 2027 if in the 2027 table (overwriting) else 2026, with that table's description; nothing else is listed |
| `IraFlags.GetAllIraDrugs` | src/optimizer_340b/risk/ira_flags.py:216-238 | the two loops build exactly the dict `AllDrugs` describes |
| `IraExamples.EnbrelExample` | scripts/validate_phase5.py:20-32 | ENBREL is an exact match: IRA 2026, "High Risk", with its description |
| `IraExamples.OzempicExample` | scripts/validate_phase5.py:34-43 | OZEMPIC is an exact match: IRA 2027, "High Risk", with its description |
| `IraExamples.HumiraExample` | scripts/validate_phase5.py:45-54 | HUMIRA overlaps no table name: not IRA, "Low Risk" |
| `IraExamples.MetforminExample` | src/optimizer_340b/risk/ira_flags.py:165-173 | METFORMIN overlaps no table name: not IRA, "Low Risk" |
| `IraExamples.BlankNameExample` | src/optimizer_340b/risk/ira_flags.py:109-163 | the name "   " is not empty, strips to "" and is reported as ELIQUIS, 2026 |
| `NdcLookup.NormalizeNdc` | src/optimizer_340b/ui/pages/ndc_lookup.py:186-205 | a missing value gives ""; otherwise the digits of the text, left-padded with zeros to 11 and never cut, so the length is max(11, digit count), and every character is a digit |
| `NdcLookup.NormalizeNdcIdempotent` | src/optimizer_340b/ui/pages/ndc_lookup.py:199-205 | normalising a normalised NDC changes nothing |
| `NdcLookup.NormalizeNdcEmpty` | src/optimizer_340b/ui/pages/ndc_lookup.py:195-205 | the key is empty iff the value is missing; any present value gives at least 11 characters |
| `NdcLookup.NamesMatch` | src/optimizer_340b/ui/pages/ndc_lookup.py:208-225 | two names match only when both are non-empty |
| `NdcLookup.NamesMatchProperties` | src/optimizer_340b/ui/pages/ndc_lookup.py:218-225 | the comparison is symmetric, ignores case, and a name matches itself iff it is non-empty |
| `NdcLookup.EarliestStop` | src/optimizer_340b/ui/pages/ndc_lookup.py:254-258 | the cut position is the end of the text or the first occurrence, at an index > 0, of some stop pattern, and no pattern first occurs above 0 before it |
| `NdcLookup.ExtractTradeName` | src/optimizer_340b/ui/pages/ndc_lookup.py:228-260 | the loop over the stop patterns returns exactly the trade name: "" for empty input, else the stripped upper-cased text before the earliest stop |
| `NdcLookup.TradeNameSpec` | src/optimizer_340b/ui/pages/ndc_lookup.py:239-260 | the trade name is upper case and stripped, and is the whole description upper-cased and stripped when no stop pattern occurs past index 0 |
| `NdcLookup.TradeNameUpper` | src/optimizer_340b/ui/pages/ndc_lookup.py:251 | upper-casing the description first does not change the trade name |
| `NdcLookup.DetermineMatchStatus` | src/optimizer_340b/ui/pages/ndc_lookup.py:263-292 | the flag is true iff the status is MATCH; NDC NOT FOUND iff the NDC was not found; NO CATALOG NAME for a found NDC whose catalog name is missing or empty |
| `NdcLookup.DetermineMatchStatusSpec` | src/optimizer_340b/ui/pages/ndc_lookup.py:284-292 | MATCH iff the NDC is found, the catalog name is non-empty, and the two trade names are equal and non-empty |
| `NdcLookup.DetermineMatchStatusSymmetric` | src/optimizer_340b/ui/pages/ndc_lookup.py:284-292 | the status does not depend on case, and swapping two non-empty names leaves it unchanged |
| `NdcLookup.DecimalAsWritten` | src/optimizer_340b/ui/pages/ndc_lookup.py:399-410 | as written, the conversion raises exactly for a text cell that is no decimal number, and gives None exactly for a null cell |
| `NdcLookup.ToDecimal` | src/optimizer_340b/ui/pages/ndc_lookup.py:399-410 | as intended, a value is None iff the cell is null or unconvertible text, and it agrees with the as-written conversion wherever that does not raise |
| `NdcLookup.UnparseablePriceRaises` | src/optimizer_340b/ui/pages/ndc_lookup.py:399-410 | a price cell such as "N/A" raises out of the lookup as written, but becomes a missing price as intended |
| `NdcLookup.BuildCatalogLookup` | src/optimizer_340b/ui/pages/ndc_lookup.py:366-433 | the loop builds exactly `CatalogLookup`: empty without an NDC column, else the rows admitted one by one |
| `NdcLookup.CheapestRow` | src/optimizer_340b/ui/pages/ndc_lookup.py:412-430 | the row kept for a key has that key, and there is one exactly when the key is non-empty and some row has it |
| `NdcLookup.CheapestRowLowest` | src/optimizer_340b/ui/pages/ndc_lookup.py:419-430 | no row with the key has a lower cost than the kept row, and if any has a cost, the kept row has one |
| `NdcLookup.CheapestRowFirst` | src/optimizer_340b/ui/pages/ndc_lookup.py:413-430 | every earlier row with the key has no cost or a strictly higher one, so ties keep the first row |
| `NdcLookup.LookupOfCheapest` | src/optimizer_340b/ui/pages/ndc_lookup.py:387-430 | after any prefix of rows, a key is in the lookup iff some row has it, and its entry is that of the cheapest row |
| `NdcLookup.CatalogLookupSpec` | src/optimizer_340b/ui/pages/ndc_lookup.py:366-433 | no NDC column gives an empty map; "" is never a key; a key is present iff some row normalises to it; its entry is the cheapest row's, the first on a tie |
| `NdcLookup.AwpMultiplier` | src/optimizer_340b/ui/pages/ndc_lookup.py:18-22 | the multiplier is 0.20 when the upper-cased type is GENERIC and 0.85 for every other type, listed or not |
| `NdcLookup.CalculatePharmacyMargins` | src/optimizer_340b/ui/pages/ndc_lookup.py:436-467 | the Medicaid margin is always None; the other margin exists iff cost and AWP both do, and is positive iff AWP × multiplier > cost |
| `NdcLookup.PharmacyMarginsByType` | src/optimizer_340b/ui/pages/ndc_lookup.py:459-463 | the margins depend on the drug type only through whether it is GENERIC, in any case |
| `NdcLookup.AwpMultiplierByType` | src/optimizer_340b/ui/pages/ndc_lookup.py:461 | the multiplier of any type equals that of GENERIC or of BRAND, according to its upper case |
| `NdcLookup.ProcessNdcLookup` | src/optimizer_340b/ui/pages/ndc_lookup.py:295-363 | the batch loop returns one result per uploaded row, in upload order, each computed against the catalog lookup |
| `NdcLookup.ProcessNdcLookupSpec` | src/optimizer_340b/ui/pages/ndc_lookup.py:313-363 | each result has the row's normalised NDC and upper-cased type and no Medicaid margin. A row without an NDC, or whose NDC is absent, is NDC NOT FOUND with no margin. A found row reports the cheapest catalog row's prices and description, and has a margin iff both prices exist |
| `NdcLookup.ResultForSpec` | src/optimizer_340b/ui/pages/ndc_lookup.py:313-361 | against any lookup, NDC NOT FOUND iff the key is absent, in which case there are no prices or margin; a present key gives the stored prices and a margin iff both exist |
| `Dashboard.BillUnits` | src/optimizer_340b/ui/pages/dashboard.py:219-224 | the billing units default to 1 when the column is missing or the cell is falsy |
| `Dashboard.BuildAspLookup` | src/optimizer_340b/ui/pages/dashboard.py:193-210 | the ASP loop builds exactly `AspLookup`: empty without the payment and HCPCS columns, else each priced HCPCS, upper-cased, with its numeric payment, skipping falsy or non-numeric rows |
| `Dashboard.AspLookupLast` | src/optimizer_340b/ui/pages/dashboard.py:201-210 | a priced HCPCS gets the payment of the last row that prices it |
| `Dashboard.FillFromCrosswalk` | src/optimizer_340b/ui/pages/dashboard.py:212-225 | the crosswalk loop builds exactly the collected map, or aborts (None) when a written row's billing units make `int()` raise |
| `Dashboard.BuildHcpcsLookup` | src/optimizer_340b/ui/pages/dashboard.py:170-227 | the lookup is empty without either file or without the crosswalk's NDC/HCPCS column, and otherwise is the crosswalk collected against the ASP lookup |
| `Dashboard.HcpcsLookupKeys` | src/optimizer_340b/ui/pages/dashboard.py:213-225 | when no row raises, an NDC is a key iff some crosswalk row has that non-empty cleaned NDC and a non-empty HCPCS |
| `Dashboard.HcpcsLookupLast` | src/optimizer_340b/ui/pages/dashboard.py:213-225 | the last crosswalk row for an NDC decides its entry: its HCPCS code; that code's payment, or None when the code is not priced; and the row's own billing units (1 when missing or falsy, `int()` of the value otherwise) |
| `Dashboard.BuildNadacLookup` | src/optimizer_340b/ui/pages/dashboard.py:230-253 | the loop builds exactly `NadacLookup`: empty without a NADAC file, else each non-empty cleaned NDC with its discount and penny flag |
| `Dashboard.NadacLookupSpec` | src/optimizer_340b/ui/pages/dashboard.py:241-251 | an NDC is a key iff some row has it; the last such row decides, and its penny flag is the penny scan's own criterion (flag set or discount ≥ 95) |
| `Dashboard.FirstTruthy` | src/optimizer_340b/ui/pages/dashboard.py:279-297 | the `or` chain yields nothing iff every alternative column is falsy, else the first truthy one |
| `Dashboard.RowToDrug` | src/optimizer_340b/ui/pages/dashboard.py:256-328 | no drug exactly when the NDC text is empty or the chosen contract cost or AWP cell is no number; a drug keeps the row's NDC, has those prices and the chosen manufacturer, non-zero billing units and a non-zero ASP if any, carries the IRA assessment of its name, and has a medical path only when its dashless NDC is in the HCPCS lookup |
| `Dashboard.RowToDrugName` | src/optimizer_340b/ui/pages/dashboard.py:279-284 | the drug name is the first non-empty of Drug Name, Trade Name and DRUG_NAME, else "Unknown" |
| `Dashboard.RowToDrugPrices` | src/optimizer_340b/ui/pages/dashboard.py:286-301 | the contract cost is the number in the first non-empty of Contract Cost and CONTRACT_COST, and the AWP that of AWP, Medispan AWP and MEDISPAN_AWP, each 0 when all are empty; the manufacturer is the first non-empty of Manufacturer and MANUFACTURER, else "Unknown"; a row with an NDC converts exactly when both price cells are numbers |
| `Dashboard.RowToDrugLookups` | src/optimizer_340b/ui/pages/dashboard.py:303-327 | the penny flag is the NADAC lookup's flag (false when absent). An NDC absent from the HCPCS lookup gives no ASP, no code and one billing unit. A present one gives its code, its ASP when non-zero (none when missing or 0), and its billing units when non-zero (1 otherwise) |
| `Dashboard.ConvertedSpec` | src/optimizer_340b/ui/pages/dashboard.py:154-162 | every result comes from some row, and every row that converts has its result in the list |
| `Dashboard.AnalyseRows` | src/optimizer_340b/ui/pages/dashboard.py:154-162 | the row loop returns the analyses of the convertible rows, in catalog order |
| `Dashboard.CalculateOpportunities` | src/optimizer_340b/ui/pages/dashboard.py:129-167 | no catalog gives no opportunities. A HCPCS lookup that raises gives None. Otherwise the result is the convertible rows' analyses sorted by margin delta, highest first |
| `Dashboard.SortConverted` | src/optimizer_340b/ui/pages/dashboard.py:165 | the sorted results are ordered, a permutation of the in-order results, stable among equal keys, and hold exactly the rows' results |
| `Dashboard.OpportunitiesSpec` | src/optimizer_340b/ui/pages/dashboard.py:154-167 | the opportunity list is non-increasing in margin delta. It is a permutation of the catalog-order analyses and keeps catalog order on ties. It holds every convertible row's analysis and nothing else |
| `Dashboard.ApplyFilters` | src/optimizer_340b/ui/pages/dashboard.py:331-371 | every survivor has margin delta ≥ the minimum |
| `Dashboard.ApplyFiltersIsFilter` | src/optimizer_340b/ui/pages/dashboard.py:350-371 | the four successive comprehensions equal one filter on the conjunction of the enabled criteria |
| `Dashboard.ApplyFiltersSpec` | src/optimizer_340b/ui/pages/dashboard.py:350-371 | the result is an order-preserving subsequence. Every survivor meets every enabled criterion (search, IRA only, no penny, minimum delta). Every analysis meeting them all survives. Filtering again changes nothing |
| `Dicts.Put` | src/optimizer_340b/risk/ira_flags.py:64 | `d[k] = v` makes k look up v, leaves other keys alone, keeps keys distinct, keeps the positions of existing keys and appends a new key at the end |
| `Dicts.PutEachLookup` | src/optimizer_340b/risk/ira_flags.py:62-66 | after a loop of writes, a key looks up the value of the last write to it, or its earlier value if none |
| `Dicts.CollectLast` | src/optimizer_340b/ui/pages/dashboard.py:246-251 | in a loop of writes into a dict read by key, the last row written for a key decides its value |
| `Dicts.CollectOrRaiseNone` | src/optimizer_340b/ui/pages/dashboard.py:213-225 | the loop aborts iff some row raises |
| `Seqs.SortDescSorted` | src/optimizer_340b/compute/margins.py:171 | `sort(key=..., reverse=True)` yields a non-increasing permutation of its input |
| `Seqs.SortDescStable` | src/optimizer_340b/compute/margins.py:171 | the descending sort keeps input order among equal keys |
| `Seqs.FilterIsSubseq` | src/optimizer_340b/risk/penny_pricing.py:234-244 | a filtering loop or comprehension yields a subsequence of its input |

## Left out

- Streamlit rendering, session state, file upload, CSV/Excel parsing (`_parse_input_csv`, the `load_*` functions), logging, and the display formatting in `_format_currency` and `MarginAnalysis.to_display_dict`. These are I/O and presentation.
- The warning and reason texts. They are modelled as datatypes (`PennyReason`, `PennyWarning`, `IraWarning`) that carry the data each message is built from, but not the formatted strings.
- Decimal's 28-digit context precision and rounding. Decimal values are exact reals, which agrees with the source for the sums and products of the short decimal literals involved.
- Text conversion is a set of parameters: Python's `str()` of a float and the syntax accepted by `float()`, `Decimal()` and `int()` are `show`, `parse` and `parseInt`. Non-ASCII case mapping and Unicode whitespace are not modelled; `upper`, `lower` and `strip` work on ASCII. Two character classes follow from this. First, `Text.Digits` keeps only ASCII 0-9, whereas `str.isdigit()` (ndc_lookup.py:202) also accepts other Unicode digits such as '²' or Arabic-Indic digits, so `NdcLookup.NormalizeNdc` differs on such input. Second, `PennyPricing.CleanNdc` strips with Python's whitespace set (`Text.IsSpace`, which includes U+001C-U+001F) on both sides of the NDC comparison, whereas the NADAC side's polars `str.strip_chars()` (penny_pricing.py:143) strips Unicode White_Space, which excludes those four characters.
- NaN cells: a float NaN is a present value in pandas and polars; the model has only null and numeric cells.
- PennyPricing.GetPennyPricingSummary: the percentage is exact, not rounded to two decimals with `round`.
- The penny count shown by the dashboard's metric card (dashboard.py:119-126) is display code. The threshold 95 it repeats is `PennyPricing.HighDiscountThreshold`, which the NADAC lookup also uses.
- NdcLookup.ProcessNdcLookup: the `Product Description` column is read into `expected_desc` and never used, so the results do not depend on it.
- NdcLookup.BuildCatalogLookup: converts price cells with the intended handler `ToDecimal`. The as-written conversion, which raises on a non-numeric price, is `DecimalAsWritten`; see Findings.
- Dashboard.CalculateOpportunities: an exception from `int()` in the HCPCS lookup escapes the caller and is modelled as a `None` result. The `except Exception` around each catalog row catches nothing the modelled conversion can raise, because `_row_to_drug` returns None itself when a price does not convert.
- Dashboard.RowToDrug: drug prices come from `Decimal(str(value))`. A present numeric cell gives that number, and a text cell goes through `parse`.
- `reload_ira_drugs` and the mutable reload of the IRA tables are not part of this model. The module's state is the `IraTables` value passed to every assessment.
- `drug_detail.py`'s own `_row_to_drug`, `capture_slider.py` and `upload.py` are not part of this model. The ingest package's normaliser, validators and joins are not part of it either.

## Findings

| source | as written | input that shows it | evidently intended | confidence | as-written member | corrected member |
|---|---|---|---|---|---|---|
| src/optimizer_340b/ui/pages/ndc_lookup.py:399-410 | `Decimal(str(value))` is guarded by `except (ValueError, TypeError)`. Decimal signals text that is no number with `decimal.InvalidOperation`, an `ArithmeticError` that this clause does not catch, so the exception escapes `_build_catalog_lookup` | a catalog whose `Contract Cost` (or `Medispan AWP`) cell is the text "N/A" | an unconvertible price becomes None, and the row is still stored with a missing cost | not executed; high for the exception class, medium that such text reaches the column | `NdcLookup.DecimalAsWritten`, `NdcLookup.UnparseablePriceRaises` | `NdcLookup.ToDecimal` |
