/**
 * `normalize_coordinates`: each coordinate list is mapped affinely onto
 * [-1, 1], its minimum going to -1 and its maximum to 1. The two lists are
 * treated independently. A list whose values are all equal divides zero by
 * zero and comes out as NaN everywhere; an empty list makes the minimum
 * undefined and the call fails.
 */
module Normalization {
  import opened Wrappers
  import opened Errors

  /** The least value of a non-empty list (`np.min`). */
  function Min(v: seq<real>): (m: real)
    requires |v| > 0
    ensures forall i :: 0 <= i < |v| ==> m <= v[i]
    ensures exists i :: 0 <= i < |v| && v[i] == m
  {
    if |v| == 1 then v[0]
    else
      var rest := Min(v[..|v| - 1]);
      assert forall i :: 0 <= i < |v| - 1 ==> v[..|v| - 1][i] == v[i];
      if v[|v| - 1] < rest then v[|v| - 1] else rest
  }

  /** The greatest value of a non-empty list (`np.max`). */
  function Max(v: seq<real>): (m: real)
    requires |v| > 0
    ensures forall i :: 0 <= i < |v| ==> v[i] <= m
    ensures exists i :: 0 <= i < |v| && v[i] == m
  {
    if |v| == 1 then v[0]
    else
      var rest := Max(v[..|v| - 1]);
      assert forall i :: 0 <= i < |v| - 1 ==> v[..|v| - 1][i] == v[i];
      if v[|v| - 1] > rest then v[|v| - 1] else rest
  }

  /** One normalised list: the remapped values, or NaN in each of `count` places when the list is constant. */
  datatype Axis = Scaled(values: seq<real>) | AllNaN(count: nat)

  /** `2 * (x - lo) / (hi - lo) - 1`. */
  function Remap(x: real, lo: real, hi: real): (y: real)
    requires lo < hi
    ensures (y + 1.0) * (hi - lo) == 2.0 * (x - lo)
  {
    var y := 2.0 * (x - lo) / (hi - lo) - 1.0;
    assert (y + 1.0) * (hi - lo) == 2.0 * (x - lo) by {
      assert y + 1.0 == 2.0 * (x - lo) / (hi - lo);
    }
    y
  }

  /** The inverse map from [-1, 1] back onto [lo, hi]. */
  function Unmap(y: real, lo: real, hi: real): real {
    lo + (y + 1.0) * (hi - lo) / 2.0
  }

  /** One coordinate list normalised on its own minimum and maximum. */
  function NormalizeAxis(v: seq<real>): (a: Axis)
    requires |v| > 0
    ensures a.AllNaN? <==> Min(v) == Max(v)
    ensures a.AllNaN? ==> a.count == |v|
    ensures a.Scaled? ==> |a.values| == |v|
  {
    var lo, hi := Min(v), Max(v);
    if lo == hi then AllNaN(|v|)
    else Scaled(seq(|v|, i requires 0 <= i < |v| => Remap(v[i], lo, hi)))
  }

  /**
   * `normalize_coordinates`: fails, as the minimum of an empty array does,
   * when either list is empty; otherwise normalises each list by itself.
   */
  function Normalize(xs: seq<real>, ys: seq<real>): (r: Result<(Axis, Axis), Error>)
    ensures r.Err? <==> |xs| == 0 || |ys| == 0
    ensures r.Err? ==> r.error == ZeroSizeArray
  {
    if |xs| == 0 || |ys| == 0 then Err(ZeroSizeArray)
    else Ok((NormalizeAxis(xs), NormalizeAxis(ys)))
  }

  // ------------------------------------------------------------ one value

  lemma RemapBounds(x: real, lo: real, hi: real)
    requires lo < hi && lo <= x <= hi
    ensures -1.0 <= Remap(x, lo, hi) <= 1.0
  {
    var d := hi - lo;
    var t := (x - lo) / d;
    assert 2.0 * (x - lo) / d == 2.0 * t;
    assert (t - 1.0) * d == x - hi;
    SignOfProduct(t - 1.0, d);
  }

  lemma SignOfProduct(a: real, d: real)
    requires d > 0.0 && a * d <= 0.0
    ensures a <= 0.0
  {
  }

  lemma RemapEnds(x: real, lo: real, hi: real)
    requires lo < hi
    ensures Remap(x, lo, hi) == -1.0 <==> x == lo
    ensures Remap(x, lo, hi) == 1.0 <==> x == hi
  {
    var d, y := hi - lo, Remap(x, lo, hi);
    assert (y + 1.0) * d == 2.0 * (x - lo);
    if x == lo {
      Cancel(y + 1.0, 0.0, d);
    }
    if x == hi {
      assert x - lo == d;
      Cancel(y + 1.0, 2.0, d);
    }
  }

  lemma Cancel(a: real, b: real, d: real)
    requires d != 0.0 && a * d == b * d
    ensures a == b
  {
    assert (a - b) * d == 0.0;
  }

  lemma RemapMonotone(x: real, y: real, lo: real, hi: real)
    requires lo < hi
    ensures x <= y <==> Remap(x, lo, hi) <= Remap(y, lo, hi)
  {
    var d := hi - lo;
    assert Remap(y, lo, hi) - Remap(x, lo, hi) == 2.0 * ((y - x) / d);
  }

  lemma UnmapRemap(x: real, lo: real, hi: real)
    requires lo < hi
    ensures Unmap(Remap(x, lo, hi), lo, hi) == x
  {
    var d := hi - lo;
    assert 2.0 * (x - lo) / d * d == 2.0 * (x - lo);
  }

  lemma RemapUnitInterval(y: real)
    ensures Remap(y, -1.0, 1.0) == y
  {
  }

  // ------------------------------------------------------------ one list

  /** Min and Max are determined by their two properties. */
  lemma MinIs(v: seq<real>, m: real)
    requires |v| > 0
    requires forall i :: 0 <= i < |v| ==> m <= v[i]
    requires exists i :: 0 <= i < |v| && v[i] == m
    ensures Min(v) == m
  {
  }

  lemma MaxIs(v: seq<real>, m: real)
    requires |v| > 0
    requires forall i :: 0 <= i < |v| ==> v[i] <= m
    requires exists i :: 0 <= i < |v| && v[i] == m
    ensures Max(v) == m
  {
  }

  /** A list normalises to NaN exactly when all its values are equal. */
  lemma AllNaNIffConstant(v: seq<real>)
    requires |v| > 0
    ensures NormalizeAxis(v).AllNaN? <==> forall i, j :: 0 <= i < |v| && 0 <= j < |v| ==> v[i] == v[j]
  {
    var lo, hi := Min(v), Max(v);
    if lo != hi {
      var i :| 0 <= i < |v| && v[i] == lo;
      var j :| 0 <= j < |v| && v[j] == hi;
      assert v[i] != v[j];
    }
  }

  /** Every normalised value lies in [-1, 1]. */
  lemma NormalizedBounds(v: seq<real>)
    requires |v| > 0 && NormalizeAxis(v).Scaled?
    ensures forall i :: 0 <= i < |v| ==> -1.0 <= NormalizeAxis(v).values[i] <= 1.0
  {
    forall i | 0 <= i < |v|
      ensures -1.0 <= NormalizeAxis(v).values[i] <= 1.0
    {
      RemapBounds(v[i], Min(v), Max(v));
    }
  }

  /** Exactly the minimal values go to -1 and exactly the maximal values to 1. */
  lemma NormalizedEnds(v: seq<real>)
    requires |v| > 0 && NormalizeAxis(v).Scaled?
    ensures forall i :: 0 <= i < |v| ==> (NormalizeAxis(v).values[i] == -1.0 <==> v[i] == Min(v))
    ensures forall i :: 0 <= i < |v| ==> (NormalizeAxis(v).values[i] == 1.0 <==> v[i] == Max(v))
  {
    forall i | 0 <= i < |v|
      ensures NormalizeAxis(v).values[i] == -1.0 <==> v[i] == Min(v)
      ensures NormalizeAxis(v).values[i] == 1.0 <==> v[i] == Max(v)
    {
      RemapEnds(v[i], Min(v), Max(v));
    }
  }

  /** Normalising keeps the order of any two values, in both directions. */
  lemma NormalizedMonotone(v: seq<real>)
    requires |v| > 0 && NormalizeAxis(v).Scaled?
    ensures forall i, j :: 0 <= i < |v| && 0 <= j < |v| ==>
      (v[i] <= v[j] <==> NormalizeAxis(v).values[i] <= NormalizeAxis(v).values[j])
  {
    forall i, j | 0 <= i < |v| && 0 <= j < |v|
      ensures v[i] <= v[j] <==> NormalizeAxis(v).values[i] <= NormalizeAxis(v).values[j]
    {
      RemapMonotone(v[i], v[j], Min(v), Max(v));
    }
  }

  /** Knowing the original minimum and maximum, the original list is recovered. */
  lemma NormalizedRoundTrip(v: seq<real>)
    requires |v| > 0 && NormalizeAxis(v).Scaled?
    ensures var w := NormalizeAxis(v).values;
      seq(|w|, i requires 0 <= i < |w| => Unmap(w[i], Min(v), Max(v))) == v
  {
    var w := NormalizeAxis(v).values;
    forall i | 0 <= i < |v|
      ensures Unmap(w[i], Min(v), Max(v)) == v[i]
    {
      UnmapRemap(v[i], Min(v), Max(v));
    }
  }

  /** Normalising a normalised list changes nothing. */
  lemma NormalizeIdempotent(v: seq<real>)
    requires |v| > 0 && NormalizeAxis(v).Scaled?
    ensures NormalizeAxis(NormalizeAxis(v).values) == NormalizeAxis(v)
  {
    var w := NormalizeAxis(v).values;
    NormalizedBounds(v);
    NormalizedEnds(v);
    var i :| 0 <= i < |v| && v[i] == Min(v);
    var j :| 0 <= j < |v| && v[j] == Max(v);
    MinIs(w, -1.0);
    MaxIs(w, 1.0);
    forall k | 0 <= k < |w|
      ensures Remap(w[k], -1.0, 1.0) == w[k]
    {
      RemapUnitInterval(w[k]);
    }
  }

  /** Each list is normalised on its own: the other list has no influence on its result. */
  lemma NormalizeIndependent(xs: seq<real>, ys: seq<real>, xs': seq<real>, ys': seq<real>)
    requires |xs| > 0 && |ys| > 0 && |xs'| > 0 && |ys'| > 0
    ensures Normalize(xs, ys).value.0 == Normalize(xs, ys').value.0
    ensures Normalize(xs, ys).value.1 == Normalize(xs', ys).value.1
  {
  }

  /**
   * What a normalised axis is for the list `v`: NaN in every place exactly
   * when the list is constant; otherwise one value per input, each within
   * [-1, 1], exactly the minima at -1 and the maxima at 1, order kept.
   */
  predicate NormalizedFrom(v: seq<real>, a: Axis)
    requires |v| > 0
  {
    (a.AllNaN? <==> forall i, j :: 0 <= i < |v| && 0 <= j < |v| ==> v[i] == v[j]) &&
    (a.AllNaN? ==> a.count == |v|) &&
    (a.Scaled? ==>
      |a.values| == |v| &&
      (forall i :: 0 <= i < |v| ==> -1.0 <= a.values[i] <= 1.0) &&
      (forall i :: 0 <= i < |v| ==> (a.values[i] == -1.0 <==> v[i] == Min(v))) &&
      (forall i :: 0 <= i < |v| ==> (a.values[i] == 1.0 <==> v[i] == Max(v))) &&
      (forall i, j :: 0 <= i < |v| && 0 <= j < |v| ==> (v[i] <= v[j] <==> a.values[i] <= a.values[j])))
  }

  lemma AxisFacts(v: seq<real>)
    requires |v| > 0
    ensures NormalizedFrom(v, NormalizeAxis(v))
  {
    AllNaNIffConstant(v);
    if NormalizeAxis(v).Scaled? {
      NormalizedBounds(v);
      NormalizedEnds(v);
      NormalizedMonotone(v);
    }
  }

  /** A successful `normalize_coordinates` gives each list's normalised axis, with the properties above. */
  lemma NormalizeResult(xs: seq<real>, ys: seq<real>)
    requires Normalize(xs, ys).Ok?
    ensures NormalizedFrom(xs, Normalize(xs, ys).value.0)
    ensures NormalizedFrom(ys, Normalize(xs, ys).value.1)
  {
    AxisFacts(xs);
    AxisFacts(ys);
  }

  /**
   * The result for `[0, 10, 10]` and `[0, 0, 10]`: the corners of a square
   * land on the corners of [-1, 1] x [-1, 1].
   */
  lemma NormalizeSquare()
    ensures Normalize([0.0, 10.0, 10.0], [0.0, 0.0, 10.0]) ==
      Ok((Scaled([-1.0, 1.0, 1.0]), Scaled([-1.0, -1.0, 1.0])))
  {
    var xs, ys := [0.0, 10.0, 10.0], [0.0, 0.0, 10.0];
    assert xs[0] == 0.0 && xs[1] == 10.0 && ys[0] == 0.0 && ys[2] == 10.0;
    MinIs(xs, 0.0);
    MaxIs(xs, 10.0);
    MinIs(ys, 0.0);
    MaxIs(ys, 10.0);
    assert NormalizeAxis(xs).values == [-1.0, 1.0, 1.0] by {
      assert Remap(0.0, 0.0, 10.0) == -1.0 && Remap(10.0, 0.0, 10.0) == 1.0;
    }
    assert NormalizeAxis(ys).values == [-1.0, -1.0, 1.0] by {
      assert Remap(0.0, 0.0, 10.0) == -1.0 && Remap(10.0, 0.0, 10.0) == 1.0;
    }
  }
}
