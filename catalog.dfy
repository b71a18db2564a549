/** The fixed, ordered catalog of indicators that are read from every
    simulation output table (analyse.py, INDICATEURS). */
module Catalog {

  /** How the time series of one column is reduced to one number. */
  datatype Aggregation = Sum | Mean | Max

  /** One catalog entry: the literal header of the source column, the
      aggregation, and the name and unit shown in the report. */
  datatype Indicator = Indicator(column: string, aggregation: Aggregation, name: string, unit: string)

  /** The report key of an indicator: "{name} [{unit}]". */
  function Key(ind: Indicator): string
  {
    ind.name + " [" + ind.unit + "]"
  }

  const Indicators: seq<Indicator> := [
    Indicator("('LOLD', 'Hours', 'EXP')", Sum, "LOLD", "h/an"),
    Indicator("('LOLP', '%', 'values')", Mean, "LOLP", "%"),
    Indicator("('UNSP. ENRG', 'MWh', 'EXP')", Sum, "Energie non servie", "MWh"),
    Indicator("('SPIL. ENRG', 'MWh', 'EXP')", Sum, "Spillage EnR (curtailment)", "MWh"),
    Indicator("('CO2 EMIS.', 'Tons', 'EXP')", Sum, "Emissions CO2", "T"),
    Indicator("('OP. COST', 'Euro', 'EXP')", Sum, "Coût opérationnel (OPEX)", "€"),
    Indicator("('MRG. PRICE', 'Euro', 'EXP')", Mean, "Prix marginal moyen", "€/MWh"),
    Indicator("('MRG. PRICE', 'Euro', 'EXP')", Max, "Prix marginal max", "€/MWh"),
    Indicator("('BALANCE', 'MWh', 'EXP')", Sum, "Balance nette (exports>0)", "MWh"),
    Indicator("('LOAD', 'MWh', 'EXP')", Sum, "Consommation totale", "MWh"),
    Indicator("('NUCLEAR', 'MWh', 'EXP')", Sum, "Production nucléaire", "MWh"),
    Indicator("('GAS', 'MWh', 'EXP')", Sum, "Production gaz", "MWh"),
    Indicator("('COAL', 'MWh', 'EXP')", Sum, "Production charbon", "MWh"),
    Indicator("('LIGNITE', 'MWh', 'EXP')", Sum, "Production lignite", "MWh"),
    Indicator("('OIL', 'MWh', 'EXP')", Sum, "Production fioul", "MWh"),
    Indicator("('WIND OFFSHORE', 'MWh', 'EXP')", Sum, "Eolien offshore", "MWh"),
    Indicator("('WIND ONSHORE', 'MWh', 'EXP')", Sum, "Eolien onshore", "MWh"),
    Indicator("('SOLAR PV', 'MWh', 'EXP')", Sum, "Solaire PV", "MWh"),
    Indicator("('SOLAR ROOFT', 'MWh', 'EXP')", Sum, "Solaire toiture", "MWh"),
    Indicator("('H. ROR', 'MWh', 'EXP')", Sum, "Hydraulique fil d'eau", "MWh"),
    Indicator("('H. STOR', 'MWh', 'EXP')", Sum, "Hydraulique stockage", "MWh")
  ]

  /** The report keys of a catalog, in catalog order. */
  function KeysOf(catalog: seq<Indicator>): seq<string>
  {
    seq(|catalog|, i requires 0 <= i < |catalog| => Key(catalog[i]))
  }

  /** The report keys of the catalog in use. */
  function CatalogKeys(): seq<string>
  {
    KeysOf(Indicators)
  }

  predicate Distinct<T(==)>(s: seq<T>)
  {
    forall i, j :: 0 <= i < j < |s| ==> s[i] != s[j]
  }

  /** The report keys, spelled out as they appear in the report. */
  const ReportKeys: seq<string> := [
    "LOLD [h/an]", "LOLP [%]", "Energie non servie [MWh]", "Spillage EnR (curtailment) [MWh]",
    "Emissions CO2 [T]", "Coût opérationnel (OPEX) [€]", "Prix marginal moyen [€/MWh]",
    "Prix marginal max [€/MWh]", "Balance nette (exports>0) [MWh]", "Consommation totale [MWh]",
    "Production nucléaire [MWh]", "Production gaz [MWh]", "Production charbon [MWh]",
    "Production lignite [MWh]", "Production fioul [MWh]", "Eolien offshore [MWh]",
    "Eolien onshore [MWh]", "Solaire PV [MWh]", "Solaire toiture [MWh]",
    "Hydraulique fil d'eau [MWh]", "Hydraulique stockage [MWh]"
  ]

  // The spelling is checked four or five entries at a time, which keeps each proof small.
  lemma KeysSpelledOutA()
    ensures forall i :: 0 <= i < 4 ==> Key(Indicators[i]) == ReportKeys[i]
  {
  }

  lemma KeysSpelledOutB()
    ensures forall i :: 4 <= i < 8 ==> Key(Indicators[i]) == ReportKeys[i]
  {
  }

  lemma KeysSpelledOutC()
    ensures forall i :: 8 <= i < 12 ==> Key(Indicators[i]) == ReportKeys[i]
  {
  }

  lemma KeysSpelledOutD()
    ensures forall i :: 12 <= i < 16 ==> Key(Indicators[i]) == ReportKeys[i]
  {
  }

  lemma KeysSpelledOutE()
    ensures forall i :: 16 <= i < 21 ==> Key(Indicators[i]) == ReportKeys[i]
  {
  }

  /** The keys computed by `Key` are exactly the report's column headers. */
  lemma KeysSpelledOut()
    ensures CatalogKeys() == ReportKeys
  {
    KeysSpelledOutA();
    KeysSpelledOutB();
    KeysSpelledOutC();
    KeysSpelledOutD();
    KeysSpelledOutE();
  }

  lemma ReportKeysDistinct()
    ensures Distinct(ReportKeys)
  {
  }

  /** No two catalog entries share a report key, so none overwrites another. */
  lemma KeysDistinct()
    ensures Distinct(CatalogKeys())
  {
    KeysSpelledOut();
    ReportKeysDistinct();
  }

  lemma {:induction false} DistinctCardinality<T>(s: seq<T>)
    requires Distinct(s)
    ensures |set x | x in s| == |s|
  {
    if s != [] {
      DistinctCardinality(s[1..]);
      assert (set x | x in s) == {s[0]} + (set x | x in s[1..]);
      assert s[0] !in s[1..];
    }
  }

  /** The extracted row has one key per catalog entry: 21 keys. */
  lemma KeyCount()
    ensures |set k | k in CatalogKeys()| == |Indicators| == 21
  {
    KeysDistinct();
    DistinctCardinality(CatalogKeys());
  }
}
