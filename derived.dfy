/** The metrics derived from one scenario's extracted values
    (analyse.py, `calcul_indicateurs_derives`): the nuclear and fossil shares
    of production and the CO2 intensity of production, all three present
    only when total production is positive. */
module DerivedMetrics {
  import opened Rounding
  import Catalog

  /** One scenario's values as the calculator reads them; a missing key
      reads as zero. */
  type Values = map<string, real>

  const Nuclear := "Production nucléaire [MWh]"
  const Gas := "Production gaz [MWh]"
  const Coal := "Production charbon [MWh]"
  const Lignite := "Production lignite [MWh]"
  const Oil := "Production fioul [MWh]"
  const WindOffshore := "Eolien offshore [MWh]"
  const WindOnshore := "Eolien onshore [MWh]"
  const SolarPv := "Solaire PV [MWh]"
  const SolarRooftop := "Solaire toiture [MWh]"
  const HydroRunOfRiver := "Hydraulique fil d'eau [MWh]"
  const HydroStorage := "Hydraulique stockage [MWh]"
  const Co2Emissions := "Emissions CO2 [T]"
  const NetBalance := "Balance nette (exports>0) [MWh]"

  const NuclearShareKey := "Part nucléaire [%]"
  const FossilShareKey := "Part fossile [%]"
  const Co2IntensityKey := "Intensité CO2 [gCO2/kWh]"

  /** The derived keys, in the order the calculator inserts them. */
  const DerivedKeys := [NuclearShareKey, FossilShareKey, Co2IntensityKey]

  /** The ten sources that make up total production (oil is not one of them). */
  const ProductionSources := [Nuclear, Gas, Coal, Lignite, WindOffshore, WindOnshore,
                              SolarPv, SolarRooftop, HydroRunOfRiver, HydroStorage]

  /** `row.get(key, 0)`. */
  function Get(row: Values, key: string): real
  {
    if key in row then row[key] else 0.0
  }

  /** `prod_totale`, written as the source writes it. */
  function ProductionTotal(row: Values): real
  {
    Get(row, Nuclear) + Get(row, Gas) + Get(row, Coal) + Get(row, Lignite) +
    Get(row, WindOffshore) + Get(row, WindOnshore) + Get(row, SolarPv) +
    Get(row, SolarRooftop) + Get(row, HydroRunOfRiver) + Get(row, HydroStorage)
  }

  /** Nuclear production as a percentage of total production, before rounding. */
  function NuclearShare(row: Values): real
    requires ProductionTotal(row) > 0.0
  {
    Get(row, Nuclear) / ProductionTotal(row) * 100.0
  }

  /** Gas, coal, lignite and oil production as a percentage of total
      production (which leaves oil out), before rounding. */
  function FossilShare(row: Values): real
    requires ProductionTotal(row) > 0.0
  {
    (Get(row, Gas) + Get(row, Coal) + Get(row, Lignite) + Get(row, Oil)) / ProductionTotal(row) * 100.0
  }

  /** Emissions in tonnes times 1000 per MWh produced, i.e. g/kWh, before rounding. */
  function Co2Intensity(row: Values): real
    requires ProductionTotal(row) > 0.0
  {
    Get(row, Co2Emissions) * 1000.0 / ProductionTotal(row)
  }

  /** `calcul_indicateurs_derives`: the three derived keys exactly when
      total production is positive, none otherwise, each value rounded to
      one decimal. */
  function Derived(row: Values): (d: Values)
    ensures d.Keys == if ProductionTotal(row) > 0.0 then set k | k in DerivedKeys else {}
    ensures ProductionTotal(row) > 0.0 ==>
              && d[NuclearShareKey] == Round1(NuclearShare(row))
              && d[FossilShareKey] == Round1(FossilShare(row))
              && d[Co2IntensityKey] == Round1(Co2Intensity(row))
    ensures forall k :: k in d ==> OneDecimal(d[k])
  {
    if ProductionTotal(row) > 0.0 then
      map[NuclearShareKey := Round1(NuclearShare(row)),
          FossilShareKey := Round1(FossilShare(row)),
          Co2IntensityKey := Round1(Co2Intensity(row))]
    else
      map[]
  }

  /** The sum of the values read at `keys`, missing ones as zero. */
  function SumAt(row: Values, keys: seq<string>): real
  {
    if keys == [] then 0.0 else Get(row, keys[0]) + SumAt(row, keys[1..])
  }

  /** Total production is the sum over the ten listed sources; neither oil
      nor emissions are among them. */
  lemma ProductionTotalIsSumOfSources(row: Values)
    ensures ProductionTotal(row) == SumAt(row, ProductionSources)
    ensures Oil !in ProductionSources && Co2Emissions !in ProductionSources
  {
    SumAtUnfolds(row, ProductionSources);
  }

  lemma SumAtUnfolds(row: Values, s: seq<string>)
    requires |s| == 10
    ensures SumAt(row, s) == Get(row, s[0]) + Get(row, s[1]) + Get(row, s[2]) + Get(row, s[3]) +
                             Get(row, s[4]) + Get(row, s[5]) + Get(row, s[6]) + Get(row, s[7]) +
                             Get(row, s[8]) + Get(row, s[9])
  {
    assert SumAt(row, s[0..]) == Get(row, s[0]) + SumAt(row, s[1..]) by { assert s[0..][1..] == s[1..]; }
    assert SumAt(row, s[1..]) == Get(row, s[1]) + SumAt(row, s[2..]) by { assert s[1..][1..] == s[2..]; }
    assert SumAt(row, s[2..]) == Get(row, s[2]) + SumAt(row, s[3..]) by { assert s[2..][1..] == s[3..]; }
    assert SumAt(row, s[3..]) == Get(row, s[3]) + SumAt(row, s[4..]) by { assert s[3..][1..] == s[4..]; }
    assert SumAt(row, s[4..]) == Get(row, s[4]) + SumAt(row, s[5..]) by { assert s[4..][1..] == s[5..]; }
    assert SumAt(row, s[5..]) == Get(row, s[5]) + SumAt(row, s[6..]) by { assert s[5..][1..] == s[6..]; }
    assert SumAt(row, s[6..]) == Get(row, s[6]) + SumAt(row, s[7..]) by { assert s[6..][1..] == s[7..]; }
    assert SumAt(row, s[7..]) == Get(row, s[7]) + SumAt(row, s[8..]) by { assert s[7..][1..] == s[8..]; }
    assert SumAt(row, s[8..]) == Get(row, s[8]) + SumAt(row, s[9..]) by { assert s[8..][1..] == s[9..]; }
    assert SumAt(row, s[9..]) == Get(row, s[9]) + SumAt(row, s[10..]) by { assert s[9..][1..] == s[10..]; }
    assert s[0..] == s && s[10..] == [];
  }

  /** Oil production never changes total production. */
  lemma ProductionTotalIgnoresOil(row: Values, oil: real)
    ensures ProductionTotal(row[Oil := oil]) == ProductionTotal(row)
  {
  }

  lemma {:induction false} SumAtIgnores(row: Values, keys: seq<string>, k: string, x: real)
    requires k !in keys
    ensures SumAt(row[k := x], keys) == SumAt(row, keys)
  {
    if keys != [] {
      SumAtIgnores(row, keys[1..], k, x);
    }
  }

  /** A missing value counts as zero. */
  lemma {:induction false} MissingCountsAsZero(row: Values, keys: seq<string>, k: string)
    ensures SumAt(row - {k}, keys) == SumAt(row[k := 0.0], keys)
  {
    if keys != [] {
      MissingCountsAsZero(row, keys[1..], k);
    }
  }

  /** No production source has a negative value; other keys, such as the
      signed net balance, may hold anything. */
  predicate SourcesNonNegative(row: Values)
  {
    forall k :: k in ProductionSources ==> Get(row, k) >= 0.0
  }

  /** With non-negative production, nuclear is one of the summands of the
      total, so its share lies in [0, 100], before and after rounding. */
  lemma NuclearShareBounded(row: Values)
    requires SourcesNonNegative(row) && ProductionTotal(row) > 0.0
    ensures 0.0 <= NuclearShare(row) <= 100.0
    ensures 0.0 <= Derived(row)[NuclearShareKey] <= 100.0
  {
    var t, n := ProductionTotal(row), Get(row, Nuclear);
    assert 0.0 <= n <= t;
    assert n / t <= 1.0;
    Round1Within(NuclearShare(row), 0.0, 100.0);
  }

  /** A net importer has a negative balance; the bound still applies to it,
      since only the production sources need to be non-negative. */
  lemma NetImporterShareBounded()
    ensures var row := map[Nuclear := 100.0, Gas := 50.0, NetBalance := -5.0];
            SourcesNonNegative(row) && ProductionTotal(row) == 150.0 &&
            0.0 <= Derived(row)[NuclearShareKey] <= 100.0
  {
    var row := map[Nuclear := 100.0, Gas := 50.0, NetBalance := -5.0];
    assert row.Keys == {Nuclear, Gas, NetBalance};
    assert forall k :: k in ProductionSources ==> Get(row, k) >= 0.0;
    assert ProductionTotal(row) == 150.0;
    NuclearShareBounded(row);
  }

  /** Without oil, the fossil share is bounded the same way, and it never
      exceeds what nuclear leaves over. */
  lemma FossilShareBoundedWithoutOil(row: Values)
    requires SourcesNonNegative(row) && ProductionTotal(row) > 0.0 && Get(row, Oil) == 0.0
    ensures 0.0 <= FossilShare(row) <= 100.0 - NuclearShare(row)
  {
    var t, n, f := ProductionTotal(row), Get(row, Nuclear), Get(row, Gas) + Get(row, Coal) + Get(row, Lignite);
    assert 0.0 <= f && n + f <= t;
    assert FossilShare(row) == f / t * 100.0;
    SharesAdd(f, n, t);
    ShareOfPart(f + n, t);
    ShareOfPart(f, t);
  }

  lemma ShareOfPart(part: real, total: real)
    requires 0.0 <= part <= total && total > 0.0
    ensures 0.0 <= part / total * 100.0 <= 100.0
  {
  }

  lemma SharesAdd(a: real, b: real, t: real)
    requires t > 0.0
    ensures a / t * 100.0 + b / t * 100.0 == (a + b) / t * 100.0
  {
  }

  /** With oil in the numerator and not in the denominator, the fossil
      share is not bounded by 100: one MWh of gas and ten of oil give 1100 %. */
  lemma FossilShareCanExceedHundred()
    ensures var row := map[Gas := 1.0, Oil := 10.0];
            ProductionTotal(row) == 1.0 && Derived(row)[FossilShareKey] == 1100.0
  {
  }

  /** Scenario A produces 100 MWh nuclear and 50 MWh gas for 10 t of CO2. */
  lemma ExampleScenarioA()
    ensures var a := map[Nuclear := 100.0, Gas := 50.0, Co2Emissions := 10.0];
            ProductionTotal(a) == 150.0 &&
            Derived(a) == map[NuclearShareKey := 66.7, FossilShareKey := 33.3, Co2IntensityKey := 66.7]
  {
    var a := map[Nuclear := 100.0, Gas := 50.0, Co2Emissions := 10.0];
    SourcesOnlyNuclearAndGas(a);
    assert NuclearShare(a) == 2000.0 / 30.0 && RoundHalfEven(NuclearShare(a) * 10.0) == 667;
    assert FossilShare(a) == 1000.0 / 30.0 && RoundHalfEven(FossilShare(a) * 10.0) == 333;
    assert Co2Intensity(a) == 2000.0 / 30.0;
  }

  /** Scenario B produces 80 MWh nuclear and 70 MWh gas for 20 t of CO2:
      the same total as A, a smaller nuclear share, twice the intensity. */
  lemma ExampleScenarioB()
    ensures var b := map[Nuclear := 80.0, Gas := 70.0, Co2Emissions := 20.0];
            ProductionTotal(b) == 150.0 &&
            Derived(b) == map[NuclearShareKey := 53.3, FossilShareKey := 46.7, Co2IntensityKey := 133.3]
  {
    var b := map[Nuclear := 80.0, Gas := 70.0, Co2Emissions := 20.0];
    SourcesOnlyNuclearAndGas(b);
    assert NuclearShare(b) == 1600.0 / 30.0 && RoundHalfEven(NuclearShare(b) * 10.0) == 533;
    assert FossilShare(b) == 1400.0 / 30.0 && RoundHalfEven(FossilShare(b) * 10.0) == 467;
    assert Co2Intensity(b) == 4000.0 / 30.0 && RoundHalfEven(Co2Intensity(b) * 10.0) == 1333;
  }

  lemma SourcesOnlyNuclearAndGas(row: Values)
    requires row.Keys == {Nuclear, Gas, Co2Emissions}
    ensures ProductionTotal(row) == row[Nuclear] + row[Gas]
    ensures Get(row, Oil) == 0.0 && Get(row, Coal) == 0.0 && Get(row, Lignite) == 0.0
  {
  }

  /** The keys the calculator reads are spelled exactly as the extractor
      writes them, and the keys it adds are new. */
  lemma KeysAgreeWithCatalog()
    ensures forall k :: k in ProductionSources ==> k in Catalog.CatalogKeys()
    ensures Oil in Catalog.CatalogKeys() && Co2Emissions in Catalog.CatalogKeys()
    ensures forall k :: k in DerivedKeys ==> k !in Catalog.CatalogKeys()
  {
    Catalog.KeysSpelledOut();
    ReadKeysInReport();
    DerivedKeysNotInReport();
  }

  lemma ReadKeysInReport()
    ensures forall k :: k in ProductionSources ==> k in Catalog.ReportKeys
    ensures Oil in Catalog.ReportKeys && Co2Emissions in Catalog.ReportKeys
  {
  }

  lemma DerivedKeysNotInReport()
    ensures forall k :: k in DerivedKeys ==> k !in Catalog.ReportKeys
  {
  }
}
