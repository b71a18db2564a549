/** The comparison table (scenarios by metrics) and the percentage deltas
    against the reference scenario (analyse.py, the delta loop of `main`). */
module Comparison {
  import opened Options
  import opened Rounding

  /** A table held column by column, as a DataFrame holds it: the scenario
      names in file order (`index`), the metric keys in column order, and
      for each key its cells, one per scenario; `None` is a missing value. */
  datatype Frame = Frame(index: seq<string>, columns: seq<string>, data: map<string, seq<Option<real>>>)
  {
    ghost predicate Valid()
    {
      && (forall c :: c in columns <==> c in data)
      && (forall c :: c in data ==> |data[c]| == |index|)
    }
  }

  function Abs(x: real): real
  {
    if x < 0.0 then -x else x
  }

  /** A reference cell the source does not divide by: `None` or zero, the
      values for which `ref_val and ref_val != 0` is false. */
  predicate Unusable(reference: Option<real>)
  {
    reference.None? || reference.value == 0.0
  }

  /** `(v - ref) / abs(ref) * 100`, before rounding. */
  function Change(v: real, reference: real): real
    requires reference != 0.0
  {
    (v - reference) / Abs(reference) * 100.0
  }

  /** `((column - ref) / abs(ref) * 100).round(1)`: each value's rounded
      percentage change from `reference`, a missing value staying missing. */
  function Percentages(cells: seq<Option<real>>, reference: real): seq<Option<real>>
    requires reference != 0.0
  {
    seq(|cells|, i requires 0 <= i < |cells| =>
      match cells[i]
      case None => None
      case Some(v) => Some(Round1(Change(v, reference))))
  }

  /** The delta column of one metric: all `None` when the reference (first)
      cell is unusable, otherwise the percentage changes from it. */
  function DeltaColumn(cells: seq<Option<real>>): (r: seq<Option<real>>)
    requires cells != []
    ensures |r| == |cells|
    ensures forall i :: 0 <= i < |cells| ==> (r[i].None? <==> Unusable(cells[0]) || cells[i].None?)
  {
    var reference := cells[0];
    if Unusable(reference) then seq(|cells|, i => None)
    else Percentages(cells, reference.value)
  }

  /** The delta loop of `main`: a copy of the table whose every column is
      overwritten with its delta column; rows and columns stay as they were. */
  method Deltas(result: Frame) returns (delta: Frame)
    requires result.Valid() && result.index != []
    ensures delta.Valid()
    ensures delta.index == result.index && delta.columns == result.columns
    ensures delta.data.Keys == result.data.Keys
    ensures forall c :: c in result.data ==> delta.data[c] == DeltaColumn(result.data[c])
  {
    var data := result.data;
    for k := 0 to |result.columns|
      invariant data.Keys == result.data.Keys
      invariant forall c :: c in data ==> |data[c]| == |result.index|
      invariant forall c :: c in result.columns[..k] ==> data[c] == DeltaColumn(result.data[c])
    {
      var col := result.columns[k];
      var cells := result.data[col];
      var refVal := cells[0];
      if refVal.Some? && refVal.value != 0.0 {
        data := data[col := Percentages(cells, refVal.value)];
      } else {
        data := data[col := seq(|result.index|, i => None)];
      }
      assert result.columns[..k + 1] == result.columns[..k] + [col];
    }
    assert result.columns[..|result.columns|] == result.columns;
    delta := Frame(result.index, result.columns, data);
  }

  /** An unusable reference nulls the whole column, for every scenario,
      the reference itself included. */
  lemma DeltaNullWhenReferenceUnusable(cells: seq<Option<real>>)
    requires cells != [] && Unusable(cells[0])
    ensures |DeltaColumn(cells)| == |cells|
    ensures forall i :: 0 <= i < |cells| ==> DeltaColumn(cells)[i] == None
  {
  }

  /** With a usable reference, a value equal to the reference, the
      reference's own among them, has delta zero; a missing value has none;
      and every delta has one decimal. */
  lemma DeltaOfEqualValueIsZero(cells: seq<Option<real>>)
    requires cells != [] && !Unusable(cells[0])
    ensures |DeltaColumn(cells)| == |cells|
    ensures DeltaColumn(cells)[0] == Some(0.0)
    ensures forall i :: 0 <= i < |cells| && cells[i] == cells[0] ==> DeltaColumn(cells)[i] == Some(0.0)
    ensures forall i :: 0 <= i < |cells| ==> (DeltaColumn(cells)[i].None? <==> cells[i].None?)
    ensures forall i :: 0 <= i < |cells| && DeltaColumn(cells)[i].Some? ==> OneDecimal(DeltaColumn(cells)[i].value)
  {
  }

  /** The delta has the sign of the difference from the reference: a value
      above the reference never gets a negative delta, one below never a
      positive one. */
  lemma DeltaFollowsDifference(cells: seq<Option<real>>, i: nat)
    requires i < |cells| && !Unusable(cells[0]) && cells[i].Some?
    ensures |DeltaColumn(cells)| == |cells| && DeltaColumn(cells)[i].Some?
    ensures cells[i].value >= cells[0].value ==> DeltaColumn(cells)[i].value >= 0.0
    ensures cells[i].value <= cells[0].value ==> DeltaColumn(cells)[i].value <= 0.0
  {
    var v, r := cells[i].value, cells[0].value;
    var x := Change(v, r);
    assert Abs(r) > 0.0;
    if v >= r {
      assert (v - r) / Abs(r) >= 0.0;
      Round1Monotone(0.0, x);
    }
    if v <= r {
      assert (v - r) / Abs(r) <= 0.0;
      Round1Monotone(x, 0.0);
    }
  }

  /** The delta, read back, gives the value to within a two-thousandth of
      the reference: v is within |ref|/2000 of ref + delta * |ref| / 100. */
  lemma DeltaRecoversValue(cells: seq<Option<real>>, i: nat)
    requires i < |cells| && !Unusable(cells[0]) && cells[i].Some?
    ensures |DeltaColumn(cells)| == |cells| && DeltaColumn(cells)[i].Some?
    ensures var v, r, d := cells[i].value, cells[0].value, DeltaColumn(cells)[i].value;
            var back := r + d * Abs(r) / 100.0;
            back - Abs(r) / 2000.0 <= v <= back + Abs(r) / 2000.0
  {
    var v, r := cells[i].value, cells[0].value;
    var x := Change(v, r);
    ReadBack(v, r, Abs(r), x, Round1(x));
  }

  lemma ReadBack(v: real, r: real, a: real, x: real, d: real)
    requires a > 0.0 && x == (v - r) / a * 100.0 && x - 0.05 <= d <= x + 0.05
    ensures r + d * a / 100.0 - a / 2000.0 <= v <= r + d * a / 100.0 + a / 2000.0
  {
    var e := d - x;
    assert x * a / 100.0 == v - r;
    assert d * a / 100.0 == x * a / 100.0 + e * a / 100.0;
    assert -0.05 * a <= e * a <= 0.05 * a;
    assert -(a / 2000.0) <= e * a / 100.0 <= a / 2000.0;
    assert d * a / 100.0 == (v - r) + e * a / 100.0;
  }

  /** Scenarios A (reference) and B: nuclear production 100 and 80 MWh gives
      B a delta of -20.0 %; CO2 emissions 10 and 20 t give +100.0 %. */
  lemma ExampleDeltas()
    ensures DeltaColumn([Some(100.0), Some(80.0)]) == [Some(0.0), Some(-20.0)]
    ensures DeltaColumn([Some(10.0), Some(20.0)]) == [Some(0.0), Some(100.0)]
    ensures DeltaColumn([Some(0.0), Some(20.0)]) == [None, None]
  {
  }
}
