# Verified model of the EPR scenario comparison pipeline

`analyse.py` compares several Antares simulation outputs, one per
scenario (14, 12 or 10 EPR reactors). For each output table it extracts a
fixed catalog of indicators, aggregating each one by sum, mean or
maximum. From those values it derives the nuclear share, the fossil share
and the CO2 intensity of production. It then expresses every metric as a
percentage change from the first (reference) scenario and selects a
curated "Synthèse clés" view. This project models that pipeline in Dafny
and proves what each step computes.

The model has one module per step:

- `Options`: the `Option` type. `None` stands for a missing value, which
  is Python's `None` or pandas' NaN.
- `Catalog` (`catalog.dfy`): the 21 entries of `INDICATEURS` and their
  keys `"{label} [{unit}]"`. The keys are proved to be distinct.
- `Rounding` (`rounding.dfy`): `round(x, 1)` on exact reals, rounding
  half to even at the first decimal.
- `Extraction` (`extraction.dfy`): the loop of `lire_excel`. It is a
  method with a `for` loop that fills the result map key by key. A table
  arrives already parsed: a map from column header to cells. A cell is
  `None` when it could not be coerced to a number.
- `DerivedMetrics` (`derived.dfy`): `calcul_indicateurs_derives`, as a
  pure function on a map from key to value. A missing key reads as 0.
- `Comparison` (`comparison.dfy`): the scenario × metric table (`Frame`,
  held column by column) and the delta loop of `main`. The delta loop is a
  method that overwrites a copy of the table one column at a time.
- `Report` (`report.dfy`): the display name of each scenario and the
  curated key filter.

Numbers are mathematical reals, not IEEE doubles. The reference scenario
is the first row of the table; `main` has at least one scenario by then,
because it exits when no file is found.

The reference scenario's own delta is 0.0 for every metric whose
reference value is neither null nor zero
(`Comparison.DeltaOfEqualValueIsZero`), and null for every other metric
(`Comparison.DeltaNullWhenReferenceUnusable`).

## Model

| member | source | states |
|---|---|---|
| Catalog.Key | analyse.py:97 | The key `"{label} [{unit}]"` of one catalog entry; what the 21 keys are is stated by `Catalog.KeysSpelledOut` |
| Catalog.KeysSpelledOut | analyse.py:27-50 | The keys built as `"{label} [{unit}]"` from the 21 entries equal the 21 keys spelled out in `ReportKeys`, in catalog order; the keys the calculator reads (analyse.py:58-81) and the nine curated keys that are not derived (analyse.py:161-174) are among them (`DerivedMetrics.KeysAgreeWithCatalog`, `Report.SynthesisKeysExtracted`) |
| Catalog.KeysDistinct | analyse.py:27-50 | No two catalog entries share a key |
| Catalog.KeyCount | analyse.py:27-50 | There are as many distinct keys as catalog entries, namely 21 |
| Extraction.ExtractWith | analyse.py:95-109 | For any catalog, the result has exactly one key per distinct catalog key. Each key holds the value extracted for the last entry that carries it, because later writes overwrite earlier ones |
| Extraction.Extract | analyse.py:95-109 | For any table, the result has exactly the 21 catalog keys. Each key holds its own entry's extracted value. A column absent from the table gives `None`, and its key is still present |
| Extraction.Extracted | analyse.py:98-107 | The value one catalog entry takes in a table; its meaning is stated by `Extraction.ExtractedMeaning` and `Extraction.ExtractedSkipsUncoercible` |
| Extraction.Total | analyse.py:101 | `series.sum()`, 0 for no values; bounded by `Extraction.TotalBounds` and tied to the mean by `Extraction.MeanBounds` |
| Extraction.TotalBounds | analyse.py:101-103 | A sum lies between the count times any lower bound and the count times any upper bound of its values |
| Extraction.ExtractedMeaning | analyse.py:98-107 | An absent column gives `None`. A `sum` gives the sum of the numeric cells, 0 when there are none. A `mean` or `max` has a value if and only if some cell is numeric. The max is one of the numeric cells and is at least each of them. The mean lies between two numeric cells |
| Extraction.Kept | analyse.py:99 | Coercion keeps exactly the numeric cells, and never more values than there are cells |
| Extraction.KeptSkipsUncoercible | analyse.py:99 | Inserting an uncoercible cell anywhere in a column leaves the kept values unchanged |
| Extraction.ExtractedSkipsUncoercible | analyse.py:99-105 | An uncoercible cell never changes an extracted value |
| Extraction.SeriesMean | analyse.py:103 | The mean exists exactly for a non-empty series and lies between its smallest and largest value |
| Extraction.SeriesMax | analyse.py:105 | The max exists exactly for a non-empty series. It is an element of the series and at least every element |
| Extraction.MeanBounds | analyse.py:103 | Total divided by count lies between the smallest and the largest value |
| Extraction.Largest | analyse.py:105 | The largest value is an element and bounds every element |
| Extraction.Smallest | analyse.py:103 | The smallest value is an element and is at most every element |
| Rounding.RoundHalfEven | analyse.py:70-71 | The nearest integer: within one half of x, and x itself when x is an integer |
| Rounding.Round1 | analyse.py:70-71 | The result has one decimal and lies within 0.05 of x. A value that already has one decimal is unchanged, so 0 rounds to 0 |
| Rounding.Round1Within | analyse.py:144 | Rounding never leaves an interval whose bounds have one decimal |
| Rounding.Round1Monotone | analyse.py:144 | Rounding preserves order |
| DerivedMetrics.Derived | analyse.py:53-83 | The three derived keys appear if and only if total production is positive; otherwise the mapping is empty. The values are the rounded nuclear share, fossil share and CO2 intensity, and each has one decimal |
| DerivedMetrics.ProductionTotal | analyse.py:58-67 | `prod_totale`; its meaning is stated by `DerivedMetrics.ProductionTotalIsSumOfSources`, `DerivedMetrics.ProductionTotalIgnoresOil` and `DerivedMetrics.MissingCountsAsZero` |
| DerivedMetrics.ProductionTotalIsSumOfSources | analyse.py:58-67 | Total production is the sum over the ten listed sources. Neither oil nor emissions is one of them |
| DerivedMetrics.ProductionTotalIgnoresOil | analyse.py:58-67 | Changing oil production never changes total production |
| DerivedMetrics.MissingCountsAsZero | analyse.py:58-67 | A missing key contributes exactly what a zero value contributes |
| DerivedMetrics.NuclearShareBounded | analyse.py:69-71 | With non-negative production sources (other keys, such as the signed net balance, are unconstrained) and a positive total, the nuclear share lies in [0, 100], both before and after rounding |
| DerivedMetrics.NetImporterShareBounded | analyse.py:69-71 | A row with a negative net balance still meets the bound's requirement, and its nuclear share lies in [0, 100] |
| DerivedMetrics.FossilShareBoundedWithoutOil | analyse.py:72-76 | With non-negative production sources and no oil, the fossil share lies in [0, 100 − nuclear share] |
| DerivedMetrics.FossilShareCanExceedHundred | analyse.py:72-76 | Oil is in the numerator but not in the denominator: 1 MWh of gas and 10 MWh of oil give a fossil share of 1100.0 % |
| DerivedMetrics.ExampleScenarioA | analyse.py:58-81 | Nuclear 100, gas 50 and CO2 10 give a total of 150 and derived values 66.7 %, 33.3 % and 66.7 g/kWh |
| DerivedMetrics.ExampleScenarioB | analyse.py:58-81 | Nuclear 80, gas 70 and CO2 20 give a total of 150 and derived values 53.3 %, 46.7 % and 133.3 g/kWh |
| DerivedMetrics.KeysAgreeWithCatalog | analyse.py:58-81 | Every key the calculator reads is a catalog key, and every key it adds is not one |
| Comparison.Deltas | analyse.py:137-148 | The delta table has the same scenarios, the same columns in the same order, and the same keys. Each column is the delta column of the same column of the result table |
| Comparison.DeltaColumn | analyse.py:143-146 | One delta column has one cell per scenario, and a cell is null exactly when the reference is null or zero or the value is missing; its values are stated by the lemmas below |
| Comparison.DeltaNullWhenReferenceUnusable | analyse.py:143-146 | A null or zero reference makes every cell of the column null, the reference's own cell included |
| Comparison.DeltaOfEqualValueIsZero | analyse.py:143-144 | With a usable reference, the reference's own delta is 0.0, as is the delta of every value equal to it. A delta is null exactly where the value is missing, and every delta has one decimal |
| Comparison.DeltaFollowsDifference | analyse.py:144 | A value above the reference never gets a negative delta, and a value below it never a positive one |
| Comparison.DeltaRecoversValue | analyse.py:144 | Reading a delta back (reference + delta × \|reference\| / 100) gives the value to within \|reference\| / 2000 |
| Comparison.ExampleDeltas | analyse.py:144 | Nuclear 100 → 80 gives −20.0. CO2 10 → 20 gives +100.0. A zero reference gives null for every scenario |
| Report.UnderscoresToSpaces | analyse.py:124 | `str.replace("_", " ")`; its meaning is stated by `Report.UnderscoresToSpacesMeaning` |
| Report.ScenarioName | analyse.py:124 | The name is the override when the file's name has one. Otherwise it is the stem, of the same length, with every `_` turned into a space and every other character kept |
| Report.UnderscoresToSpacesMeaning | analyse.py:124 | `replace("_", " ")` keeps the length, leaves no underscore, and changes only underscores |
| Report.OverriddenNames | analyse.py:19-23 | `12_reacteurs` is shown as "12 EPR" and `14_reaccteurs` as "14 EPR (référence)" |
| Report.DefaultName | analyse.py:19-23 | The override key is spelled "14_reaccteurs.xlsx", so a file `14_reacteurs.xlsx` gets no override and is not shown as the reference label |
| Report.Available | analyse.py:175 | The comprehension `[c for c in cols_cles if c in df_result.columns]`; its meaning is stated by `Report.AvailableMeaning` |
| Report.AvailableMeaning | analyse.py:175 | The filter keeps exactly the wanted keys that are present, in wanted order. It adds nothing, and distinct wanted keys stay distinct |
| Report.KeySynthesis | analyse.py:161-176 | The view has the same scenarios. Its columns are exactly the curated keys the table has, each once, in curated order, and each with the table's cells |
| Report.SynthesisOfFullTable | analyse.py:161-175 | A table with every extracted and every derived key shows all twelve curated keys |
| Report.SynthesisWithoutDerived | analyse.py:161-175 | A table with only the extracted keys shows the nine extracted curated keys, in curated order |

## Left out

- Reading the workbook with openpyxl and building the DataFrame (analyse.py:88-93) is foreign-library I/O. A table is given as an already-parsed column map.
- `pd.to_numeric(errors='coerce')` is library behaviour. Each cell arrives already coerced, as an `Option<real>`.
- The model does not state pandas' conventions for empty series; it fixes them as sum 0 and mean/max `None`.
- Discovering and sorting the input files, and the exit when there are none (analyse.py:113-120), are file-system I/O. The model takes the scenarios in file order and requires at least one.
- Writing the Excel file is left out: the sheet names, including "Delta % vs {ref}", the transposition to metrics × scenarios, and the column widths (analyse.py:150-184). The console summary (analyse.py:186-203) is left out too. Both are presentation.
- Building the comparison table from the per-scenario dictionaries (`pd.DataFrame(resultats).T`, `pd.concat` with the derived frame) is left out. Two files that map to the same display name, and the column order pandas produces, are therefore not modelled. The delta loop and the synthesis filter take the assembled `Frame`.
- IEEE doubles are not modelled; Python's `round` and `Series.round` are modelled as exact half-to-even rounding at one decimal. For inputs whose binary representation is not exact, the two can differ in the last digit.
- Comparison.Deltas: a NaN reference is truthy in Python and takes the arithmetic branch. That branch yields an all-NaN column, which the model's all-`None` column matches. The bare `except: pass` (analyse.py:147-148) cannot fire on real-valued cells and is not modelled.
- DerivedMetrics.Derived: takes a map to reals. A key that is present but holds `None` or NaN becomes NaN or raises in pandas, depending on dtype. That case is not modelled; only a missing key reads as 0.
- DerivedMetrics.Derived: returns a map, so the insertion order of the three keys (nuclear, fossil, CO2 intensity) is not part of the result. `DerivedKeys` records that order.
