/**
 The residual evaluator of the light-curve regression utilities: the
 chi-squared of observed fluxes against a fitted model, restricted to the
 rows of the observation table that lie inside the model's time range and
 whose bandpass lies inside the model's wavelength support, together with
 the degrees of freedom that remain.

 The bandpass registry and the model's flux prediction belong to an external
 light-curve library; the model receives their answers per row, as sequences
 aligned with the table. Values are exact reals.
 */
module Residuals {

  /** One row of an observation table. */
  datatype Observation = Observation(time: real, band: string, flux: real, fluxErr: real)

  /** An observation table: rows in order. */
  type Table = seq<Observation>

  /** The valid domain of a fitted model: its time range and its wavelength support. */
  datatype ModelDomain = ModelDomain(minTime: real, maxTime: real, minWave: real, maxWave: real)

  /** What is read of a fit result: the names of the parameters that were varied. */
  datatype FitResult = FitResult(vparamNames: seq<string>)

  /** Raised when no row of the table lies inside the model's domain. */
  datatype DomainError = NoDataInModelRange

  datatype Result<T> = Ok(value: T) | Err(error: DomainError)

  /** The two results of a domain-restricted chi-squared. */
  datatype ModelChisq = ModelChisq(chisq: real, dof: int)

  predicate NonZero(s: seq<real>)
  {
    forall i :: 0 <= i < |s| ==> s[i] != 0.0
  }

  /**
   The sign rule of multiplication. It is a separate function because the
   solver loses these sign facts when it sees `x * x` written directly.
   */
  function Product(a: real, b: real): (r: real)
    ensures (a > 0.0 && b > 0.0) || (a < 0.0 && b < 0.0) ==> r > 0.0
    ensures a == 0.0 || b == 0.0 ==> r == 0.0
  {
    a * b
  }

  function Square(x: real): (r: real)
    ensures r >= 0.0
    ensures r == 0.0 <==> x == 0.0
  {
    Product(x, x)
  }

  /**
   Chi-squared: the sum of the squared residuals, each divided by its error.
   It is never negative, and it is zero exactly when observation and model
   agree everywhere.
   */
  function ChiSq(data: seq<real>, error: seq<real>, model: seq<real>): (c: real)
    requires |error| == |data| && |model| == |data|
    requires NonZero(error)
    ensures c >= 0.0
    ensures c == 0.0 <==> data == model
    decreases |data|
  {
    if |data| == 0 then 0.0
    else
      var n := |data| - 1;
      assert data == data[..n] + [data[n]] && model == model[..n] + [model[n]];
      ChiSq(data[..n], error[..n], model[..n]) + Square((data[n] - model[n]) / error[n])
  }

  /** Concatenating two error sequences without zeros gives one without zeros. */
  lemma NonZeroAppend(e1: seq<real>, e2: seq<real>)
    requires NonZero(e1) && NonZero(e2)
    ensures NonZero(e1 + e2)
  {
  }

  /** The chi-squared of two concatenated data sets is the sum of their chi-squareds. */
  lemma {:induction false} ChiSqAppend(d1: seq<real>, e1: seq<real>, m1: seq<real>,
                                       d2: seq<real>, e2: seq<real>, m2: seq<real>)
    requires |e1| == |d1| && |m1| == |d1| && NonZero(e1)
    requires |e2| == |d2| && |m2| == |d2| && NonZero(e2)
    ensures NonZero(e1 + e2)
    ensures ChiSq(d1 + d2, e1 + e2, m1 + m2) == ChiSq(d1, e1, m1) + ChiSq(d2, e2, m2)
    decreases |d2|
  {
    NonZeroAppend(e1, e2);
    if |d2| == 0 {
      assert d1 + d2 == d1 && e1 + e2 == e1 && m1 + m2 == m1;
    } else {
      var n := |d2| - 1;
      var d, e, m := d1 + d2, e1 + e2, m1 + m2;
      var last := Square((d2[n] - m2[n]) / e2[n]);
      assert d[..|d| - 1] == d1 + d2[..n];
      assert e[..|e| - 1] == e1 + e2[..n];
      assert m[..|m| - 1] == m1 + m2[..n];
      assert d[|d| - 1] == d2[n] && e[|e| - 1] == e2[n] && m[|m| - 1] == m2[n];
      ChiSqAppend(d1, e1, m1, d2[..n], e2[..n], m2[..n]);
      assert ChiSq(d, e, m) == ChiSq(d1 + d2[..n], e1 + e2[..n], m1 + m2[..n]) + last;
      assert ChiSq(d2, e2, m2) == ChiSq(d2[..n], e2[..n], m2[..n]) + last;
    }
  }

  /**
   The positions of the true entries of a mask, in increasing order: the rows
   a boolean-mask selection keeps.
   */
  function KeptIndices(mask: seq<bool>): (idx: seq<nat>)
    ensures |idx| <= |mask|
    decreases |mask|
  {
    if |mask| == 0 then []
    else
      var n := |mask| - 1;
      KeptIndices(mask[..n]) + (if mask[n] then [n] else [])
  }

  /**
   KeptIndices lists exactly the true positions of the mask, each once, in
   increasing order.
   */
  lemma {:induction false} KeptIndicesSpec(mask: seq<bool>)
    ensures forall j :: 0 <= j < |KeptIndices(mask)| ==>
      KeptIndices(mask)[j] < |mask| && mask[KeptIndices(mask)[j]]
    ensures forall j, k :: 0 <= j < k < |KeptIndices(mask)| ==> KeptIndices(mask)[j] < KeptIndices(mask)[k]
    ensures forall i :: 0 <= i < |mask| && mask[i] ==> i in KeptIndices(mask)
    decreases |mask|
  {
    if |mask| > 0 {
      var n := |mask| - 1;
      KeptIndicesSpec(mask[..n]);
      assert forall i :: 0 <= i < n ==> mask[..n][i] == mask[i];
    }
  }

  /**
   Boolean-mask selection: the elements of `s` at the true positions of
   `mask`, in their original order.
   */
  function Select<T>(s: seq<T>, mask: seq<bool>): (r: seq<T>)
    requires |mask| == |s|
    ensures |r| == |KeptIndices(mask)|
    decreases |s|
  {
    if |s| == 0 then []
    else
      var n := |s| - 1;
      Select(s[..n], mask[..n]) + (if mask[n] then [s[n]] else [])
  }

  /** One position of SelectSpec: element j of a selection is the element at the j-th kept position. */
  lemma {:induction false} SelectAt<T>(s: seq<T>, mask: seq<bool>, j: nat)
    requires |mask| == |s| && j < |KeptIndices(mask)|
    ensures KeptIndices(mask)[j] < |s|
    ensures Select(s, mask)[j] == s[KeptIndices(mask)[j]]
    decreases |s|
  {
    var n := |s| - 1;
    if j < |KeptIndices(mask[..n])| {
      SelectAt(s[..n], mask[..n], j);
    }
  }

  /**
   A selection is the order-preserving subsequence of `s` at the true
   positions of the mask.
   */
  lemma {:induction false} SelectSpec<T>(s: seq<T>, mask: seq<bool>)
    requires |mask| == |s|
    ensures |Select(s, mask)| == |KeptIndices(mask)|
    ensures forall j :: 0 <= j < |Select(s, mask)| ==>
      KeptIndices(mask)[j] < |s| && Select(s, mask)[j] == s[KeptIndices(mask)[j]]
  {
    forall j | 0 <= j < |Select(s, mask)|
      ensures KeptIndices(mask)[j] < |s| && Select(s, mask)[j] == s[KeptIndices(mask)[j]]
    {
      SelectAt(s, mask, j);
    }
  }

  /** Selecting from a concatenation selects from each part. */
  lemma {:induction false} SelectAppend<T>(s1: seq<T>, m1: seq<bool>, s2: seq<T>, m2: seq<bool>)
    requires |m1| == |s1| && |m2| == |s2|
    ensures Select(s1 + s2, m1 + m2) == Select(s1, m1) + Select(s2, m2)
    decreases |s2|
  {
    if |s2| == 0 {
      assert s1 + s2 == s1 && m1 + m2 == m1;
    } else {
      var n := |s2| - 1;
      var s, m := s1 + s2, m1 + m2;
      var last := if m2[n] then [s2[n]] else [];
      assert s[..|s| - 1] == s1 + s2[..n];
      assert m[..|m| - 1] == m1 + m2[..n];
      assert m[|m| - 1] == m2[n] && s[|s| - 1] == s2[n];
      assert Select(s, m) == Select(s1 + s2[..n], m1 + m2[..n]) + last;
      assert Select(s2, m2) == Select(s2[..n], m2[..n]) + last;
      SelectAppend(s1, m1, s2[..n], m2[..n]);
    }
  }

  /** A mask of all true keeps everything. */
  lemma {:induction false} SelectAll<T>(s: seq<T>, mask: seq<bool>)
    requires |mask| == |s|
    requires forall i :: 0 <= i < |mask| ==> mask[i]
    ensures Select(s, mask) == s
    decreases |s|
  {
    if |s| > 0 {
      var n := |s| - 1;
      SelectAll(s[..n], mask[..n]);
      assert s == s[..n] + [s[n]];
    }
  }

  /** A mask of all false keeps nothing. */
  lemma {:induction false} SelectNone<T>(s: seq<T>, mask: seq<bool>)
    requires |mask| == |s|
    requires forall i :: 0 <= i < |mask| ==> !mask[i]
    ensures Select(s, mask) == []
    decreases |s|
  {
    if |s| > 0 {
      SelectNone(s[..|s| - 1], mask[..|s| - 1]);
    }
  }

  /** Removes the positions [lo, hi) of a sequence. */
  function Remove<T>(s: seq<T>, lo: nat, hi: nat): (r: seq<T>)
    requires lo <= hi <= |s|
    ensures |r| == |s| - (hi - lo)
    ensures forall i :: 0 <= i < lo ==> r[i] == s[i]
    ensures forall i :: lo <= i < |r| ==> r[i] == s[i + (hi - lo)]
  {
    s[..lo] + s[hi..]
  }

  /** A sequence is its three pieces around positions lo and hi, put back together. */
  lemma SplitThree<T>(s: seq<T>, lo: nat, hi: nat)
    requires lo <= hi <= |s|
    ensures s == (s[..lo] + s[lo..hi]) + s[hi..]
  {
  }

  /** Removing a run of positions the mask drops does not change the selection. */
  lemma SelectRemove<T>(s: seq<T>, mask: seq<bool>, lo: nat, hi: nat)
    requires |mask| == |s| && lo <= hi <= |s|
    requires forall i :: lo <= i < hi ==> !mask[i]
    ensures Select(Remove(s, lo, hi), Remove(mask, lo, hi)) == Select(s, mask)
  {
    var a, b, c := s[..lo], s[lo..hi], s[hi..];
    var ma, mb, mc := mask[..lo], mask[lo..hi], mask[hi..];
    assert Select(Remove(s, lo, hi), Remove(mask, lo, hi)) == Select(a, ma) + Select(c, mc) by {
      assert Remove(s, lo, hi) == a + c;
      assert Remove(mask, lo, hi) == ma + mc;
      SelectAppend(a, ma, c, mc);
    }
    assert Select(a + b, ma + mb) == Select(a, ma) by {
      SelectNone(b, mb);
      SelectAppend(a, ma, b, mb);
    }
    assert Select(s, mask) == Select(a + b, ma + mb) + Select(c, mc) by {
      SplitThree(s, lo, hi);
      SplitThree(mask, lo, hi);
      SelectAppend(a + b, ma + mb, c, mc);
    }
  }

  /**
   Whether a row lies in the model's domain: its time inside the model's time
   range, and its bandpass's wavelength span contained in the model's
   wavelength support. All four bounds are inclusive.
   */
  predicate InDomain(time: real, bandMinWave: real, bandMaxWave: real, model: ModelDomain)
  {
    && model.minTime <= time
    && time <= model.maxTime
    && bandMinWave >= model.minWave
    && bandMaxWave <= model.maxWave
  }

  /** The per-row bandpass bounds that go with a table have one entry per row. */
  predicate AlignedWith(data: Table, bandMinWave: seq<real>, bandMaxWave: seq<real>)
  {
    |bandMinWave| == |data| && |bandMaxWave| == |data|
  }

  /** Whether row i of the table lies in the model's domain. */
  predicate RowInDomain(data: Table, bandMinWave: seq<real>, bandMaxWave: seq<real>, model: ModelDomain, i: int)
    requires AlignedWith(data, bandMinWave, bandMaxWave)
  {
    0 <= i < |data| && InDomain(data[i].time, bandMinWave[i], bandMaxWave[i], model)
  }

  /** The mask of rows inside the model's domain. */
  function DomainMask(data: Table, bandMinWave: seq<real>, bandMaxWave: seq<real>, model: ModelDomain): (mask: seq<bool>)
    requires AlignedWith(data, bandMinWave, bandMaxWave)
    ensures |mask| == |data|
    ensures forall i :: 0 <= i < |data| ==> (mask[i] <==> RowInDomain(data, bandMinWave, bandMaxWave, model, i))
  {
    seq(|data|, i requires 0 <= i < |data| => InDomain(data[i].time, bandMinWave[i], bandMaxWave[i], model))
  }

  /** The indices of the rows inside the model's domain. */
  function InDomainIndices(data: Table, bandMinWave: seq<real>, bandMaxWave: seq<real>, model: ModelDomain): seq<nat>
    requires AlignedWith(data, bandMinWave, bandMaxWave)
  {
    KeptIndices(DomainMask(data, bandMinWave, bandMaxWave, model))
  }

  /** The filtered copy of the table: the rows inside the model's domain. */
  function RestrictToModel(data: Table, bandMinWave: seq<real>, bandMaxWave: seq<real>, model: ModelDomain): Table
    requires AlignedWith(data, bandMinWave, bandMaxWave)
  {
    Select(data, DomainMask(data, bandMinWave, bandMaxWave, model))
  }

  /**
   The filtered copy holds exactly the rows inside the model's domain, each
   once, in their original order: row j of the copy is row idx[j] of the
   table, idx is increasing, and an index is in idx exactly when its row is
   inside the domain. The caller's table is a value and stays as it was.
   */
  lemma RestrictToModelSpec(data: Table, bandMinWave: seq<real>, bandMaxWave: seq<real>, model: ModelDomain)
    requires AlignedWith(data, bandMinWave, bandMaxWave)
    ensures var idx := InDomainIndices(data, bandMinWave, bandMaxWave, model);
      && (forall j, k :: 0 <= j < k < |idx| ==> idx[j] < idx[k])
      && (forall j :: 0 <= j < |idx| ==> RowInDomain(data, bandMinWave, bandMaxWave, model, idx[j]))
      && (forall i :: RowInDomain(data, bandMinWave, bandMaxWave, model, i) ==> i in idx)
    ensures var idx := InDomainIndices(data, bandMinWave, bandMaxWave, model);
      var kept := RestrictToModel(data, bandMinWave, bandMaxWave, model);
      && |kept| == |idx|
      && (forall j :: 0 <= j < |kept| ==> idx[j] < |data| && kept[j] == data[idx[j]])
  {
    var mask := DomainMask(data, bandMinWave, bandMaxWave, model);
    KeptIndicesSpec(mask);
    SelectSpec(data, mask);
  }

  function Fluxes(data: Table): (r: seq<real>)
    ensures |r| == |data| && forall i :: 0 <= i < |data| ==> r[i] == data[i].flux
  {
    seq(|data|, i requires 0 <= i < |data| => data[i].flux)
  }

  function FluxErrs(data: Table): (r: seq<real>)
    ensures |r| == |data| && forall i :: 0 <= i < |data| ==> r[i] == data[i].fluxErr
  {
    seq(|data|, i requires 0 <= i < |data| => data[i].fluxErr)
  }

  /** Every row inside the model's domain has a nonzero error, so its residual is defined. */
  predicate KeptErrorsNonZero(data: Table, bandMinWave: seq<real>, bandMaxWave: seq<real>, model: ModelDomain)
    requires AlignedWith(data, bandMinWave, bandMaxWave)
  {
    forall i :: 0 <= i < |data| && RowInDomain(data, bandMinWave, bandMaxWave, model, i) ==> data[i].fluxErr != 0.0
  }

  /** The errors of the rows kept by the filter are all nonzero. */
  lemma KeptErrorsSelected(data: Table, bandMinWave: seq<real>, bandMaxWave: seq<real>, model: ModelDomain)
    requires AlignedWith(data, bandMinWave, bandMaxWave)
    requires KeptErrorsNonZero(data, bandMinWave, bandMaxWave, model)
    ensures NonZero(FluxErrs(RestrictToModel(data, bandMinWave, bandMaxWave, model)))
  {
    RestrictToModelSpec(data, bandMinWave, bandMaxWave, model);
  }

  /**
   Chi-squared of a table against a model over the rows inside the model's
   domain, and the degrees of freedom: rows used minus parameters varied.
   `predicted[i]` is the model's flux for row i. Fails when no row is inside
   the domain; the degrees of freedom may be zero or negative.
   */
  function CalcModelChisq(data: Table, bandMinWave: seq<real>, bandMaxWave: seq<real>, predicted: seq<real>,
                          result: FitResult, model: ModelDomain): (r: Result<ModelChisq>)
    requires AlignedWith(data, bandMinWave, bandMaxWave) && |predicted| == |data|
    requires KeptErrorsNonZero(data, bandMinWave, bandMaxWave, model)
    ensures r.Err? <==> forall i :: !RowInDomain(data, bandMinWave, bandMaxWave, model, i)
    ensures r.Ok? ==> r.value.dof == |InDomainIndices(data, bandMinWave, bandMaxWave, model)| - |result.vparamNames|
    ensures r.Ok? ==> r.value.chisq >= 0.0
  {
    var mask := DomainMask(data, bandMinWave, bandMaxWave, model);
    var kept := RestrictToModel(data, bandMinWave, bandMaxWave, model);
    RestrictToModelSpec(data, bandMinWave, bandMaxWave, model);
    if |kept| == 0 then
      Err(NoDataInModelRange)
    else
      KeptErrorsSelected(data, bandMinWave, bandMaxWave, model);
      Ok(ModelChisq(ChiSq(Fluxes(kept), FluxErrs(kept), Select(predicted, mask)), |kept| - |result.vparamNames|))
  }

  /**
   The chi-squared is zero exactly when every row inside the domain is
   predicted exactly.
   */
  lemma CalcModelChisqPerfectFit(data: Table, bandMinWave: seq<real>, bandMaxWave: seq<real>, predicted: seq<real>,
                                 result: FitResult, model: ModelDomain)
    requires AlignedWith(data, bandMinWave, bandMaxWave) && |predicted| == |data|
    requires KeptErrorsNonZero(data, bandMinWave, bandMaxWave, model)
    requires CalcModelChisq(data, bandMinWave, bandMaxWave, predicted, result, model).Ok?
    ensures CalcModelChisq(data, bandMinWave, bandMaxWave, predicted, result, model).value.chisq == 0.0
        <==> forall i :: RowInDomain(data, bandMinWave, bandMaxWave, model, i) ==> data[i].flux == predicted[i]
  {
    var mask := DomainMask(data, bandMinWave, bandMaxWave, model);
    var idx := KeptIndices(mask);
    var kept := RestrictToModel(data, bandMinWave, bandMaxWave, model);
    RestrictToModelSpec(data, bandMinWave, bandMaxWave, model);
    SelectSpec(predicted, mask);
    var fl, pr := Fluxes(kept), Select(predicted, mask);
    assert |fl| == |pr| == |idx|;
    assert forall j :: 0 <= j < |idx| ==> fl[j] == data[idx[j]].flux && pr[j] == predicted[idx[j]];
    if fl == pr {
      forall i | RowInDomain(data, bandMinWave, bandMaxWave, model, i)
        ensures data[i].flux == predicted[i]
      {
        var j :| 0 <= j < |idx| && idx[j] == i;
        assert fl[j] == pr[j];
      }
    }
  }

  /**
   When every row is inside the domain nothing is dropped: the chi-squared is
   that of the whole table and the degrees of freedom are its row count minus
   the number of varied parameters.
   */
  lemma CalcModelChisqAllInDomain(data: Table, bandMinWave: seq<real>, bandMaxWave: seq<real>, predicted: seq<real>,
                                  result: FitResult, model: ModelDomain)
    requires AlignedWith(data, bandMinWave, bandMaxWave) && |predicted| == |data|
    requires |data| > 0
    requires forall i :: 0 <= i < |data| ==> RowInDomain(data, bandMinWave, bandMaxWave, model, i)
    requires NonZero(FluxErrs(data))
    ensures KeptErrorsNonZero(data, bandMinWave, bandMaxWave, model)
    ensures CalcModelChisq(data, bandMinWave, bandMaxWave, predicted, result, model)
         == Ok(ModelChisq(ChiSq(Fluxes(data), FluxErrs(data), predicted), |data| - |result.vparamNames|))
  {
    var mask := DomainMask(data, bandMinWave, bandMaxWave, model);
    SelectAll(data, mask);
    SelectAll(predicted, mask);
    assert RestrictToModel(data, bandMinWave, bandMaxWave, model) == data;
  }

  /**
   Rows outside the model's domain play no part: removing a run of them, at
   any position, leaves the chi-squared, the degrees of freedom and the
   failure case all unchanged.
   */
  lemma CalcModelChisqIgnoresOutOfDomain(data: Table, bandMinWave: seq<real>, bandMaxWave: seq<real>, predicted: seq<real>,
                                         result: FitResult, model: ModelDomain, lo: nat, hi: nat)
    requires AlignedWith(data, bandMinWave, bandMaxWave) && |predicted| == |data|
    requires KeptErrorsNonZero(data, bandMinWave, bandMaxWave, model)
    requires lo <= hi <= |data|
    requires forall i :: lo <= i < hi ==> !RowInDomain(data, bandMinWave, bandMaxWave, model, i)
    ensures AlignedWith(Remove(data, lo, hi), Remove(bandMinWave, lo, hi), Remove(bandMaxWave, lo, hi))
    ensures KeptErrorsNonZero(Remove(data, lo, hi), Remove(bandMinWave, lo, hi), Remove(bandMaxWave, lo, hi), model)
    ensures CalcModelChisq(Remove(data, lo, hi), Remove(bandMinWave, lo, hi), Remove(bandMaxWave, lo, hi),
                           Remove(predicted, lo, hi), result, model)
         == CalcModelChisq(data, bandMinWave, bandMaxWave, predicted, result, model)
  {
    var d, mn, mx := Remove(data, lo, hi), Remove(bandMinWave, lo, hi), Remove(bandMaxWave, lo, hi);
    var mask := DomainMask(data, bandMinWave, bandMaxWave, model);
    var dMask := DomainMask(d, mn, mx, model);
    assert dMask == Remove(mask, lo, hi);
    assert RestrictToModel(d, mn, mx, model) == RestrictToModel(data, bandMinWave, bandMaxWave, model) by {
      SelectRemove(data, mask, lo, hi);
    }
    assert Select(Remove(predicted, lo, hi), dMask) == Select(predicted, mask) by {
      SelectRemove(predicted, mask, lo, hi);
    }
    assert InDomainIndices(d, mn, mx, model) == KeptIndices(Remove(mask, lo, hi));
    forall i | 0 <= i < |d| && RowInDomain(d, mn, mx, model, i)
      ensures d[i].fluxErr != 0.0
    {
      var k := if i < lo then i else i + (hi - lo);
      assert d[i] == data[k] && mn[i] == bandMinWave[k] && mx[i] == bandMaxWave[k];
      assert RowInDomain(data, bandMinWave, bandMaxWave, model, k);
    }
    var r1 := CalcModelChisq(d, mn, mx, Remove(predicted, lo, hi), result, model);
    var r2 := CalcModelChisq(data, bandMinWave, bandMaxWave, predicted, result, model);
    var kept := RestrictToModel(data, bandMinWave, bandMaxWave, model);
    assert r1.Err? <==> |kept| == 0;
    assert r2.Err? <==> |kept| == 0;
    if |kept| > 0 {
      assert r1.value.dof == r2.value.dof;
      assert r1.value.chisq == r2.value.chisq;
    }
  }
}
