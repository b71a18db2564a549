/** Extraction of the catalog's indicators from one simulation output table
    (analyse.py, the loop of `lire_excel`). Reading the workbook and coercing
    its cells to numbers happen before this point: a table arrives as a map
    from column header to cells, a cell being `None` when it could not be
    coerced. */
module Extraction {
  import opened Options
  import opened Catalog

  /** One input table, column by column. */
  type Table = map<string, seq<Option<real>>>

  /** One scenario's extracted values, keyed "{name} [{unit}]"; `None` is a
      missing column, or a mean or maximum over no numeric cell. */
  type Row = map<string, Option<real>>

  /** The cells that survived numeric coercion, in table order. */
  function Kept(cells: seq<Option<real>>): (r: seq<real>)
    ensures |r| <= |cells|
    ensures forall v :: v in r <==> Some(v) in cells
  {
    if cells == [] then []
    else
      var rest := Kept(cells[1..]);
      assert forall v :: Some(v) in cells <==> Some(v) == cells[0] || Some(v) in cells[1..];
      match cells[0]
      case Some(v) => [v] + rest
      case None => rest
  }

  /** The sum of a series; zero when there is nothing to add. */
  function Total(s: seq<real>): real
  {
    if s == [] then 0.0 else s[0] + Total(s[1..])
  }

  /** The largest value of a non-empty series. */
  function Largest(s: seq<real>): (m: real)
    requires s != []
    ensures m in s
    ensures forall v :: v in s ==> v <= m
  {
    if |s| == 1 then s[0]
    else
      var m := Largest(s[1..]);
      assert forall v :: v in s ==> v == s[0] || v in s[1..];
      if s[0] >= m then s[0] else m
  }

  /** The smallest value of a non-empty series. */
  function Smallest(s: seq<real>): (m: real)
    requires s != []
    ensures m in s
    ensures forall v :: v in s ==> m <= v
  {
    if |s| == 1 then s[0]
    else
      var m := Smallest(s[1..]);
      assert forall v :: v in s ==> v == s[0] || v in s[1..];
      if s[0] <= m then s[0] else m
  }

  /** The arithmetic mean of a non-empty series. */
  function Average(s: seq<real>): real
    requires s != []
  {
    Total(s) / |s| as real
  }

  /** `series.mean()`: no value when there is nothing to average. */
  function SeriesMean(s: seq<real>): (r: Option<real>)
    ensures r.Some? <==> s != []
    ensures r.Some? ==> Smallest(s) <= r.value <= Largest(s)
  {
    if s == [] then None
    else
      MeanBounds(s);
      Some(Average(s))
  }

  /** `series.max()`: no value when the series is empty. */
  function SeriesMax(s: seq<real>): (r: Option<real>)
    ensures r.Some? <==> s != []
    ensures r.Some? ==> r.value in s && forall v :: v in s ==> v <= r.value
  {
    if s == [] then None else Some(Largest(s))
  }

  /** A sum is bounded by the series' length times any bound of its values. */
  lemma {:induction false} TotalBounds(s: seq<real>, lo: real, hi: real)
    requires forall v :: v in s ==> lo <= v <= hi
    ensures |s| as real * lo <= Total(s) <= |s| as real * hi
  {
    if s != [] {
      var rest := s[1..];
      assert s[0] in s;
      forall v | v in rest ensures lo <= v <= hi {
        assert v in s;
      }
      TotalBounds(rest, lo, hi);
      var n := |rest| as real;
      assert |s| as real == n + 1.0;
      assert Total(s) == s[0] + Total(rest);
      assert (n + 1.0) * lo == n * lo + lo && (n + 1.0) * hi == n * hi + hi;
    }
  }

  lemma QuotientBounds(t: real, n: real, lo: real, hi: real)
    requires n > 0.0 && n * lo <= t <= n * hi
    ensures lo <= t / n <= hi
  {
  }

  /** The mean lies between the smallest and the largest value. */
  lemma MeanBounds(s: seq<real>)
    requires s != []
    ensures Smallest(s) <= Average(s) <= Largest(s)
  {
    var lo, hi := Smallest(s), Largest(s);
    TotalBounds(s, lo, hi);
    QuotientBounds(Total(s), |s| as real, lo, hi);
  }

  /** The value one catalog entry takes in a table: `None` for an absent
      column, otherwise its kept cells reduced by the entry's aggregation. */
  function Extracted(table: Table, ind: Indicator): Option<real>
  {
    if ind.column !in table then None
    else
      var kept := Kept(table[ind.column]);
      match ind.aggregation
      case Sum => Some(Total(kept))
      case Mean => SeriesMean(kept)
      case Max => SeriesMax(kept)
  }

  /** No later entry of the catalog than `j` (up to position `n`) has the same key. */
  ghost predicate LastWithKey(keys: seq<string>, j: int, n: int)
    requires 0 <= j < n <= |keys|
  {
    forall l :: j < l < n ==> keys[l] != keys[j]
  }

  /** The loop of `lire_excel` over a catalog: one entry per distinct key,
      filled in catalog order, so that an entry whose key recurs later is
      overwritten by the later one. */
  method ExtractWith(catalog: seq<Indicator>, table: Table) returns (result: Row)
    ensures result.Keys == set k | k in KeysOf(catalog)
    ensures forall i :: 0 <= i < |catalog| && LastWithKey(KeysOf(catalog), i, |catalog|) ==>
              result[KeysOf(catalog)[i]] == Extracted(table, catalog[i])
  {
    ghost var keys := KeysOf(catalog);
    result := map[];
    for i := 0 to |catalog|
      invariant result.Keys == set k | k in keys[..i]
      invariant forall j :: 0 <= j < i && LastWithKey(keys, j, i) ==> result[keys[j]] == Extracted(table, catalog[j])
    {
      var ind := catalog[i];
      var colLabel := Key(ind);
      var value: Option<real>;
      if ind.column in table {
        var series := Kept(table[ind.column]);
        match ind.aggregation {
          case Sum => value := Some(Total(series));
          case Mean => value := SeriesMean(series);
          case Max => value := SeriesMax(series);
        }
      } else {
        value := None;
      }
      assert value == Extracted(table, ind);
      assert colLabel == keys[i] && keys[..i + 1] == keys[..i] + [colLabel];
      ghost var before := result;
      result := result[colLabel := value];
      forall j | 0 <= j < i + 1 && LastWithKey(keys, j, i + 1)
        ensures result[keys[j]] == Extracted(table, catalog[j])
      {
        if j < i {
          assert keys[i] != keys[j] && LastWithKey(keys, j, i);
          assert result[keys[j]] == before[keys[j]];
        }
      }
    }
    assert keys[..|catalog|] == keys;
  }

  /** `lire_excel` after the table is read: since the catalog's keys are
      distinct, every catalog entry has its own key, 21 in all, whichever
      columns the table has. */
  method Extract(table: Table) returns (result: Row)
    ensures result.Keys == set k | k in CatalogKeys()
    ensures |result| == |Indicators|
    ensures forall i :: 0 <= i < |Indicators| ==> result[CatalogKeys()[i]] == Extracted(table, Indicators[i])
    ensures forall i :: 0 <= i < |Indicators| && Indicators[i].column !in table ==> result[CatalogKeys()[i]] == None
  {
    result := ExtractWith(Indicators, table);
    KeysDistinct();
    KeyCount();
  }

  lemma {:induction false} KeptAppend(a: seq<Option<real>>, b: seq<Option<real>>)
    ensures Kept(a + b) == Kept(a) + Kept(b)
  {
    if a == [] {
      assert a + b == b;
    } else {
      assert (a + b)[0] == a[0] && (a + b)[1..] == a[1..] + b;
      KeptAppend(a[1..], b);
    }
  }

  /** A cell that cannot be coerced to a number is dropped, wherever it stands:
      it changes none of the kept values. */
  lemma KeptSkipsUncoercible(cells: seq<Option<real>>, k: nat)
    requires k <= |cells|
    ensures Kept(cells[..k] + [None] + cells[k..]) == Kept(cells)
  {
    var front, back := cells[..k], cells[k..];
    assert Kept([None]) == [];
    KeptAppend(front + [None], back);
    KeptAppend(front, [None]);
    assert Kept(front + [None]) == Kept(front);
    KeptAppend(front, back);
    assert front + back == cells;
  }

  /** Hence an uncoercible cell never changes an extracted indicator. */
  lemma ExtractedSkipsUncoercible(table: Table, ind: Indicator, k: nat)
    requires ind.column in table && k <= |table[ind.column]|
    ensures var cells := table[ind.column];
            Extracted(table[ind.column := cells[..k] + [None] + cells[k..]], ind) == Extracted(table, ind)
  {
    KeptSkipsUncoercible(table[ind.column], k);
  }

  /** What an extracted value means in terms of the column's cells: nothing
      for an absent column; for a present one the sum of its numeric cells,
      or their mean or maximum, which exist exactly when some cell is
      numeric; the maximum is one of those cells and bounds all of them, the
      mean lies between two of them. */
  lemma ExtractedMeaning(table: Table, ind: Indicator)
    ensures ind.column !in table ==> Extracted(table, ind) == None
    ensures ind.column in table && ind.aggregation == Sum ==>
              Extracted(table, ind) == Some(Total(Kept(table[ind.column])))
    ensures ind.column in table && ind.aggregation != Sum ==>
              (Extracted(table, ind).Some? <==> exists x :: Some(x) in table[ind.column])
    ensures ind.column in table && ind.aggregation == Max && Extracted(table, ind).Some? ==>
              var m := Extracted(table, ind).value;
              Some(m) in table[ind.column] && forall x :: Some(x) in table[ind.column] ==> x <= m
    ensures ind.column in table && ind.aggregation == Mean && Extracted(table, ind).Some? ==>
              var m := Extracted(table, ind).value;
              exists lo, hi :: Some(lo) in table[ind.column] && Some(hi) in table[ind.column] && lo <= m <= hi
  {
  }
}
