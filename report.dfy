/** The naming and selection glue of the report (analyse.py, `main`): the
    display name of each scenario and the curated "Synthèse clés" view. */
module Report {
  import opened Options
  import Catalog
  import DerivedMetrics
  import opened Comparison

  /** `NOMS_SCENARIOS`: display names that override the default, by file name. */
  const ScenarioNames: map<string, string> := map[
    "14_reaccteurs.xlsx" := "14 EPR (référence)",
    "12_reacteurs.xlsx" := "12 EPR",
    "10_reacteurs.xlsx" := "10 EPR"
  ]

  /** `s.replace("_", " ")`. */
  function UnderscoresToSpaces(s: string): string
  {
    if s == [] then []
    else [if s[0] == '_' then ' ' else s[0]] + UnderscoresToSpaces(s[1..])
  }

  /** Every underscore becomes a space, every other character stays. */
  lemma {:induction false} UnderscoresToSpacesMeaning(s: string)
    ensures var r := UnderscoresToSpaces(s);
            && |r| == |s| && '_' !in r
            && (forall i :: 0 <= i < |s| ==> r[i] == if s[i] == '_' then ' ' else s[i])
  {
    if s != [] {
      UnderscoresToSpacesMeaning(s[1..]);
    }
  }

  /** The file an input stem comes from: inputs are found by the pattern
      "*.xlsx", so a file's name is its stem followed by ".xlsx". */
  function FileName(stem: string): string
  {
    stem + ".xlsx"
  }

  /** The display name of the scenario read from a file: its entry in
      `ScenarioNames` when the file's name has one, else the stem with
      every underscore turned into a space. */
  function ScenarioName(stem: string): (name: string)
    ensures FileName(stem) in ScenarioNames ==> name == ScenarioNames[FileName(stem)]
    ensures FileName(stem) !in ScenarioNames ==> |name| == |stem| && '_' !in name
    ensures FileName(stem) !in ScenarioNames ==>
              forall i :: 0 <= i < |stem| ==> name[i] == if stem[i] == '_' then ' ' else stem[i]
  {
    if FileName(stem) in ScenarioNames then ScenarioNames[FileName(stem)]
    else
      UnderscoresToSpacesMeaning(stem);
      UnderscoresToSpaces(stem)
  }

  /** The display names the override table gives. */
  lemma OverriddenNames()
    ensures ScenarioName("12_reacteurs") == "12 EPR"
    ensures ScenarioName("14_reaccteurs") == "14 EPR (référence)"
  {
    assert FileName("12_reacteurs") == "12_reacteurs.xlsx";
    assert FileName("14_reaccteurs") == "14_reaccteurs.xlsx";
  }

  /** An override applies to its exact file name only: the fourteen-reactor
      entry is keyed "14_reaccteurs.xlsx", so a file "14_reacteurs.xlsx" gets
      no override and is not shown under the reference label. */
  lemma DefaultName()
    ensures FileName("14_reacteurs") !in ScenarioNames
    ensures var name := ScenarioName("14_reacteurs");
            |name| == 12 && '_' !in name && name != "14 EPR (référence)"
  {
    assert FileName("14_reacteurs") == "14_reacteurs.xlsx";
    assert "14_reacteurs.xlsx" !in ScenarioNames;
  }

  /** `cols_cles`: the curated keys of the synthesis view, in display order. */
  const SynthesisKeys: seq<string> := [
    "LOLD [h/an]",
    "Energie non servie [MWh]",
    "Spillage EnR (curtailment) [MWh]",
    "Emissions CO2 [T]",
    "Intensité CO2 [gCO2/kWh]",
    "Coût opérationnel (OPEX) [€]",
    "Prix marginal moyen [€/MWh]",
    "Balance nette (exports>0) [MWh]",
    "Production nucléaire [MWh]",
    "Production gaz [MWh]",
    "Part nucléaire [%]",
    "Part fossile [%]"
  ]

  /** `r` is `s` with some elements left out, the others in their order. */
  predicate SubsequenceOf<T(==)>(r: seq<T>, s: seq<T>)
  {
    if r == [] then true
    else if s == [] then false
    else if r[0] == s[0] then SubsequenceOf(r[1..], s[1..])
    else SubsequenceOf(r, s[1..])
  }

  /** `[c for c in wanted if c in present]`. */
  function Available(wanted: seq<string>, present: set<string>): seq<string>
  {
    if wanted == [] then []
    else if wanted[0] in present then [wanted[0]] + Available(wanted[1..], present)
    else Available(wanted[1..], present)
  }

  /** The filter keeps exactly the wanted keys that are present, in the
      wanted order, adds none, and keeps distinct keys distinct. */
  lemma {:induction false} AvailableMeaning(wanted: seq<string>, present: set<string>)
    ensures var r := Available(wanted, present);
            && (forall c :: c in r <==> c in wanted && c in present)
            && SubsequenceOf(r, wanted)
            && (Catalog.Distinct(wanted) ==> Catalog.Distinct(r))
  {
    if wanted != [] {
      var rest := Available(wanted[1..], present);
      AvailableMeaning(wanted[1..], present);
      assert forall c :: c in wanted <==> c == wanted[0] || c in wanted[1..];
      if wanted[0] in present {
        assert Catalog.Distinct(wanted) ==> wanted[0] !in rest;
      } else {
        SubsequenceSkip(rest, wanted);
      }
    }
  }

  lemma SubsequenceSkip<T>(r: seq<T>, s: seq<T>)
    requires s != [] && SubsequenceOf(r, s[1..])
    ensures SubsequenceOf(r, s)
  {
    if r != [] && r[0] == s[0] {
      SubsequenceDropFirst(r, s[1..]);
    }
  }

  lemma {:induction false} SubsequenceDropFirst<T>(r: seq<T>, s: seq<T>)
    requires r != [] && SubsequenceOf(r, s)
    ensures SubsequenceOf(r[1..], s)
  {
    if s != [] {
      if r[0] == s[0] {
        if r[1..] != [] {
          SubsequenceDropFirst(r[1..], s[1..]);
          SubsequenceSkip(r[1..], s);
        }
      } else {
        SubsequenceDropFirst(r, s[1..]);
        if r[1..] != [] {
          SubsequenceSkip(r[1..], s);
        }
      }
    }
  }

  /** `df_result[cols_dispo]`: the same scenarios, restricted to the curated
      keys the table has, each once, in curated order, with the same cells. */
  function KeySynthesis(table: Frame): (view: Frame)
    requires table.Valid()
    ensures view.Valid()
    ensures view.index == table.index
    ensures forall c :: c in view.columns <==> c in SynthesisKeys && c in table.columns
    ensures SubsequenceOf(view.columns, SynthesisKeys) && Catalog.Distinct(view.columns)
    ensures forall c :: c in view.data ==> c in table.data && view.data[c] == table.data[c]
  {
    var cols := Available(SynthesisKeys, set c | c in table.columns);
    AvailableMeaning(SynthesisKeys, set c | c in table.columns);
    SynthesisKeysDistinct();
    Frame(table.index, cols, map c | c in cols :: table.data[c])
  }

  lemma SynthesisKeysDistinct()
    ensures Catalog.Distinct(SynthesisKeys)
  {
  }

  /** The first ten curated keys but the fifth are extracted keys. */
  lemma SynthesisKeysExtracted()
    ensures forall i :: 0 <= i < 10 && i != 4 ==> SynthesisKeys[i] in Catalog.ReportKeys
  {
  }

  /** The fifth, eleventh and twelfth curated keys are the derived ones. */
  lemma SynthesisKeysDerived()
    ensures SynthesisKeys[4] == DerivedMetrics.DerivedKeys[2]
    ensures SynthesisKeys[10] == DerivedMetrics.DerivedKeys[0] && SynthesisKeys[11] == DerivedMetrics.DerivedKeys[1]
  {
  }

  /** When a table has every extracted and every derived key, the view
      shows all twelve curated keys. */
  lemma SynthesisOfFullTable(present: set<string>)
    requires forall c :: c in Catalog.ReportKeys || c in DerivedMetrics.DerivedKeys ==> c in present
    ensures Available(SynthesisKeys, present) == SynthesisKeys
  {
    SynthesisKeysExtracted();
    SynthesisKeysDerived();
    assert forall i :: 0 <= i < 12 ==> SynthesisKeys[i] in present;
    AvailableAll(SynthesisKeys, present);
  }

  /** When no scenario produced anything, no derived key exists and the view
      shows the nine extracted curated keys. */
  lemma SynthesisWithoutDerived(present: set<string>)
    requires present == set c | c in Catalog.ReportKeys
    ensures Available(SynthesisKeys, present) == SynthesisKeys[..4] + SynthesisKeys[5..10]
  {
    var s := SynthesisKeys;
    SynthesisKeysExtracted();
    SynthesisKeysDerived();
    DerivedMetrics.DerivedKeysNotInReport();
    assert s == s[..4] + [s[4]] + s[5..10] + s[10..];
    AvailableDropping(s[..4], s[4], s[5..10], s[10..], present);
  }

  /** Filtering a list whose keys before and after one absent key are all
      present, and whose trailing keys are all absent. */
  lemma AvailableDropping(a: seq<string>, x: string, b: seq<string>, c: seq<string>, present: set<string>)
    requires forall k :: k in a ==> k in present
    requires forall k :: k in b ==> k in present
    requires x !in present && forall k :: k in c ==> k !in present
    ensures Available(a + [x] + b + c, present) == a + b
  {
    AvailableAll(a, present);
    AvailableAll(b, present);
    AvailableNone(c, present);
    AvailableSplit(a + [x] + b, c, present);
    AvailableSplit(a + [x], b, present);
    AvailableSplit(a, [x], present);
    assert a + b + [] == a + b;
  }

  lemma {:induction false} AvailableNone(wanted: seq<string>, present: set<string>)
    requires forall c :: c in wanted ==> c !in present
    ensures Available(wanted, present) == []
  {
    if wanted != [] {
      AvailableNone(wanted[1..], present);
    }
  }

  lemma {:induction false} AvailableAll(wanted: seq<string>, present: set<string>)
    requires forall c :: c in wanted ==> c in present
    ensures Available(wanted, present) == wanted
  {
    if wanted != [] {
      AvailableAll(wanted[1..], present);
    }
  }

  lemma {:induction false} AvailableSplit(a: seq<string>, b: seq<string>, present: set<string>)
    ensures Available(a + b, present) == Available(a, present) + Available(b, present)
  {
    if a == [] {
      assert a + b == b;
    } else {
      assert (a + b)[0] == a[0] && (a + b)[1..] == a[1..] + b;
      AvailableSplit(a[1..], b, present);
    }
  }
}
