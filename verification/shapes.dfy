/**
 * Per-element point producers of the extractor: sampling of path segments
 * and ellipses on `np.linspace` grids, the closed rectangle outline, and the
 * parsing of a polygon's `points` text.
 */
module Shapes {
  import opened Wrappers
  import opened Errors
  import opened Strings

  /** One coordinate pair; the source keeps it as a complex number or a tuple. */
  datatype Point = Point(x: real, y: real)

  /** `np.pi`, `np.cos` and `np.sin`, whose values the model does not compute. */
  datatype Trig = Trig(pi: real, cos: real -> real, sin: real -> real)

  // -------------------------------------------------------------- linspace

  /**
   * `np.linspace(start, stop, num)` over the reals: `num` evenly spaced
   * values from `start` to `stop`, both included; a single value is `start`.
   */
  function Linspace(start: real, stop: real, num: nat): (r: seq<real>)
    ensures |r| == num
    ensures num >= 1 ==> r[0] == start
    ensures num >= 2 ==> r[num - 1] == stop
  {
    seq(num, i requires 0 <= i < num =>
      if num == 1 then start else start + (i as real) * ((stop - start) / ((num - 1) as real)))
  }

  /** Consecutive grid values are one step `(stop - start) / (num - 1)` apart. */
  lemma LinspaceStep(start: real, stop: real, num: nat, i: nat)
    requires i + 1 < num
    ensures Linspace(start, stop, num)[i + 1] - Linspace(start, stop, num)[i] == (stop - start) / ((num - 1) as real)
  {
    var step := (stop - start) / ((num - 1) as real);
    assert ((i + 1) as real) * step == (i as real) * step + step;
  }

  /** The grid is non-decreasing and stays within `[start, stop]`. */
  lemma LinspaceBetween(start: real, stop: real, num: nat)
    requires start <= stop
    ensures forall i :: 0 <= i < num ==> start <= Linspace(start, stop, num)[i] <= stop
    ensures forall i, j :: 0 <= i <= j < num ==> Linspace(start, stop, num)[i] <= Linspace(start, stop, num)[j]
  {
    forall i | 0 <= i < num ensures start <= Linspace(start, stop, num)[i] <= stop {
      LinspaceAtMost(start, stop, num, 0, i);
      LinspaceAtMost(start, stop, num, i, num - 1);
    }
    forall i, j | 0 <= i <= j < num ensures Linspace(start, stop, num)[i] <= Linspace(start, stop, num)[j] {
      LinspaceAtMost(start, stop, num, i, j);
    }
  }

  lemma LinspaceAtMost(start: real, stop: real, num: nat, i: nat, j: nat)
    requires start <= stop && i <= j < num
    ensures Linspace(start, stop, num)[i] <= Linspace(start, stop, num)[j]
  {
    if i < j {
      var step := (stop - start) / ((num - 1) as real);
      var lower, upper := (i as real) * step, (j as real) * step;
      assert lower <= upper by {
        StepNonNegative(stop - start, (num - 1) as real);
        ScaleMonotone(i as real, j as real, step);
      }
      assert Linspace(start, stop, num)[i] == start + lower;
      assert Linspace(start, stop, num)[j] == start + upper;
    }
  }

  lemma StepNonNegative(d: real, m: real)
    requires m > 0.0 && d >= 0.0
    ensures d / m >= 0.0
  {
  }

  lemma ScaleMonotone(a: real, b: real, s: real)
    requires a <= b && s >= 0.0
    ensures a * s <= b * s
  {
    assert b * s - a * s == (b - a) * s;
  }

  // --------------------------------------------------------------- <path>

  /**
   * `segment.point(np.linspace(0, 1, n))`: the segment evaluated at `n`
   * evenly spaced parameters; `pointAt` is the segment's own evaluation.
   */
  function SegmentPoints<S>(segment: S, n: nat, pointAt: (S, real) -> Point): (r: seq<Point>)
    ensures |r| == n
    ensures n >= 1 ==> r[0] == pointAt(segment, 0.0)
    ensures n >= 2 ==> r[n - 1] == pointAt(segment, 1.0)
  {
    var ts := Linspace(0.0, 1.0, n);
    var r := seq(n, k requires 0 <= k < n => pointAt(segment, ts[k]));
    assert n >= 1 ==> r[0] == pointAt(segment, ts[0]);
    assert n >= 2 ==> r[n - 1] == pointAt(segment, ts[n - 1]);
    r
  }

  // --------------------------------------------------------------- <rect>

  /**
   * The rectangle outline: start at `(x, y)`, walk the width, then the
   * height, then back, and close on the starting corner.
   */
  function RectOutline(x: real, y: real, width: real, height: real): (r: seq<Point>)
    ensures |r| == 5
    ensures r[0] == r[4] == Point(x, y)
    ensures r[1] == Point(r[0].x + width, r[0].y)
    ensures r[2] == Point(r[1].x, r[1].y + height)
    ensures r[3] == Point(r[2].x - width, r[2].y)
    ensures r[4] == Point(r[3].x, r[3].y - height)
  {
    [Point(x, y), Point(x + width, y), Point(x + width, y + height), Point(x, y + height), Point(x, y)]
  }

  /** For a non-negative size every outline point lies on the box, and every corner is visited. */
  lemma RectOutlineBox(x: real, y: real, width: real, height: real)
    requires width >= 0.0 && height >= 0.0
    ensures forall p :: p in RectOutline(x, y, width, height) ==> x <= p.x <= x + width && y <= p.y <= y + height
    ensures forall cx, cy :: cx in {x, x + width} && cy in {y, y + height} ==> Point(cx, cy) in RectOutline(x, y, width, height)
  {
    var r := RectOutline(x, y, width, height);
    assert r[3] == Point(x, y + height);
  }

  // ------------------------------------------------------ <circle>/<ellipse>

  /**
   * `(cx + rx*cos(a), cy + ry*sin(a))` for every `a` in
   * `np.linspace(0, 2*pi, n)`; the grid includes both `0` and `2*pi`.
   */
  function EllipsePoints(cx: real, cy: real, rx: real, ry: real, n: nat, trig: Trig): (r: seq<Point>)
    ensures |r| == n
    ensures n >= 1 ==> r[0] == EllipseAt(cx, cy, rx, ry, trig, 0.0)
    ensures n >= 2 ==> r[n - 1] == EllipseAt(cx, cy, rx, ry, trig, 2.0 * trig.pi)
  {
    var angles := Linspace(0.0, 2.0 * trig.pi, n);
    var r := seq(n, k requires 0 <= k < n => EllipseAt(cx, cy, rx, ry, trig, angles[k]));
    assert n >= 1 ==> r[0] == EllipseAt(cx, cy, rx, ry, trig, angles[0]);
    assert n >= 2 ==> r[n - 1] == EllipseAt(cx, cy, rx, ry, trig, angles[n - 1]);
    r
  }

  /** The point of the ellipse at angle `a`: offset from the centre by `rx * cos(a)` and `ry * sin(a)`. */
  function EllipseAt(cx: real, cy: real, rx: real, ry: real, trig: Trig, a: real): (p: Point)
    ensures p.x - cx == rx * trig.cos(a) && p.y - cy == ry * trig.sin(a)
  {
    Point(cx + rx * trig.cos(a), cy + ry * trig.sin(a))
  }

  /**
   * Where `cos^2 + sin^2 == 1` at angle `a`, the point lies on the ellipse,
   * and for equal radii at distance `|rx|` from the centre.
   */
  lemma EllipseAtOnCurve(cx: real, cy: real, rx: real, ry: real, trig: Trig, a: real)
    requires trig.cos(a) * trig.cos(a) + trig.sin(a) * trig.sin(a) == 1.0
    ensures OnEllipse(EllipseAt(cx, cy, rx, ry, trig, a), cx, cy, rx, ry)
    ensures rx == ry ==> AtDistance(EllipseAt(cx, cy, rx, ry, trig, a), cx, cy, rx)
  {
    OnUnitCircle(cx, cy, rx, ry, trig.cos(a), trig.sin(a));
    OnCircle(rx, trig.cos(a), trig.sin(a));
  }

  /** `p` lies at distance `|d|` from `(cx, cy)`. */
  predicate AtDistance(p: Point, cx: real, cy: real, d: real) {
    (p.x - cx) * (p.x - cx) + (p.y - cy) * (p.y - cy) == d * d
  }

  lemma OnCircle(r: real, c: real, s: real)
    requires c * c + s * s == 1.0
    ensures (r * c) * (r * c) + (r * s) * (r * s) == r * r
  {
    assert (r * c) * (r * c) + (r * s) * (r * s) == r * r * (c * c + s * s);
  }

  /** The `k`-th sample is the ellipse's point at the `k`-th angle of the grid. */
  lemma EllipseSample(cx: real, cy: real, rx: real, ry: real, n: nat, trig: Trig, k: nat)
    requires k < n
    ensures EllipsePoints(cx, cy, rx, ry, n, trig)[k] == EllipseAt(cx, cy, rx, ry, trig, Linspace(0.0, 2.0 * trig.pi, n)[k])
  {
    var angles := Linspace(0.0, 2.0 * trig.pi, n);
    var r := seq(n, k requires 0 <= k < n => EllipseAt(cx, cy, rx, ry, trig, angles[k]));
    assert EllipsePoints(cx, cy, rx, ry, n, trig) == r;
    assert r[k] == EllipseAt(cx, cy, rx, ry, trig, angles[k]);
  }

  /**
   * Where the samples are: a single sample sits at angle 0, and otherwise
   * the `k`-th sample sits at angle `k * 2*pi / (n - 1)`.
   */
  lemma EllipsePointAt(cx: real, cy: real, rx: real, ry: real, n: nat, trig: Trig, k: nat)
    requires k < n
    ensures n == 1 ==> EllipsePoints(cx, cy, rx, ry, n, trig)[k] == EllipseAt(cx, cy, rx, ry, trig, 0.0)
    ensures n >= 2 ==>
      EllipsePoints(cx, cy, rx, ry, n, trig)[k] == EllipseAt(cx, cy, rx, ry, trig, (k as real) * (2.0 * trig.pi) / ((n - 1) as real))
  {
    EllipseSample(cx, cy, rx, ry, n, trig, k);
    if n >= 2 {
      var m := (n - 1) as real;
      var step := (2.0 * trig.pi - 0.0) / m;
      assert Linspace(0.0, 2.0 * trig.pi, n)[k] == 0.0 + (k as real) * step;
      assert (k as real) * step == (k as real) * (2.0 * trig.pi) / m by {
        assert step * m == 2.0 * trig.pi;
        assert ((k as real) * step) * m == (k as real) * (2.0 * trig.pi);
        DivideBack((k as real) * step, m, (k as real) * (2.0 * trig.pi));
      }
    }
  }

  lemma DivideBack(a: real, m: real, b: real)
    requires m != 0.0 && a * m == b
    ensures a == b / m
  {
  }

  /** With periodic `cos` and `sin` the first and the last sample coincide: the ellipse is closed by a duplicate point. */
  lemma EllipseClosed(cx: real, cy: real, rx: real, ry: real, n: nat, trig: Trig)
    requires n >= 2
    requires trig.cos(2.0 * trig.pi) == trig.cos(0.0) && trig.sin(2.0 * trig.pi) == trig.sin(0.0)
    ensures EllipsePoints(cx, cy, rx, ry, n, trig)[0] == EllipsePoints(cx, cy, rx, ry, n, trig)[n - 1]
  {
    var first, last := EllipseAt(cx, cy, rx, ry, trig, 0.0), EllipseAt(cx, cy, rx, ry, trig, 2.0 * trig.pi);
    var c0, c1 := trig.cos(0.0), trig.cos(2.0 * trig.pi);
    var s0, s1 := trig.sin(0.0), trig.sin(2.0 * trig.pi);
    assert first.x - cx == rx * c0 && last.x - cx == rx * c1 && c0 == c1;
    assert first.y - cy == ry * s0 && last.y - cy == ry * s1 && s0 == s1;
  }

  /**
   * `p` satisfies the implicit equation of the ellipse with centre `(cx, cy)`
   * and radii `rx`, `ry`. With a zero radius the equation is degenerate: for
   * `rx == 0` it only pins `p.x == cx` (when `ry != 0`), and with both radii
   * zero every point satisfies it.
   */
  predicate OnEllipse(p: Point, cx: real, cy: real, rx: real, ry: real) {
    ry * ry * (p.x - cx) * (p.x - cx) + rx * rx * (p.y - cy) * (p.y - cy) == rx * rx * ry * ry
  }

  /**
   * With `cos^2 + sin^2 == 1` every sample lies on the ellipse with centre
   * `(cx, cy)` and radii `rx`, `ry`; with equal radii, at distance `|rx|` from the centre.
   */
  lemma EllipsePointsOnCurve(cx: real, cy: real, rx: real, ry: real, n: nat, trig: Trig)
    requires forall a :: trig.cos(a) * trig.cos(a) + trig.sin(a) * trig.sin(a) == 1.0
    ensures forall k :: 0 <= k < n ==> OnEllipse(EllipsePoints(cx, cy, rx, ry, n, trig)[k], cx, cy, rx, ry)
    ensures rx == ry ==> forall k :: 0 <= k < n ==> AtDistance(EllipsePoints(cx, cy, rx, ry, n, trig)[k], cx, cy, rx)
  {
    forall k | 0 <= k < n
      ensures OnEllipse(EllipsePoints(cx, cy, rx, ry, n, trig)[k], cx, cy, rx, ry)
      ensures rx == ry ==> AtDistance(EllipsePoints(cx, cy, rx, ry, n, trig)[k], cx, cy, rx)
    {
      EllipsePointOnCurve(cx, cy, rx, ry, n, trig, k);
    }
  }

  lemma EllipsePointOnCurve(cx: real, cy: real, rx: real, ry: real, n: nat, trig: Trig, k: nat)
    requires k < n
    requires var a := Linspace(0.0, 2.0 * trig.pi, n)[k]; trig.cos(a) * trig.cos(a) + trig.sin(a) * trig.sin(a) == 1.0
    ensures OnEllipse(EllipsePoints(cx, cy, rx, ry, n, trig)[k], cx, cy, rx, ry)
    ensures rx == ry ==> AtDistance(EllipsePoints(cx, cy, rx, ry, n, trig)[k], cx, cy, rx)
  {
    var a := Linspace(0.0, 2.0 * trig.pi, n)[k];
    EllipseSample(cx, cy, rx, ry, n, trig, k);
    EllipseAtOnCurve(cx, cy, rx, ry, trig, a);
  }

  lemma OnUnitCircle(cx: real, cy: real, rx: real, ry: real, c: real, s: real)
    requires c * c + s * s == 1.0
    ensures OnEllipse(Point(cx + rx * c, cy + ry * s), cx, cy, rx, ry)
  {
    var p := Point(cx + rx * c, cy + ry * s);
    assert p.x - cx == rx * c && p.y - cy == ry * s;
    calc {
      ry * ry * (p.x - cx) * (p.x - cx) + rx * rx * (p.y - cy) * (p.y - cy);
      ry * ry * (rx * c) * (rx * c) + rx * rx * (ry * s) * (ry * s);
      rx * rx * ry * ry * (c * c) + rx * rx * ry * ry * (s * s);
      rx * rx * ry * ry * (c * c + s * s);
    }
  }

  // ---------------------------------------------------- <polygon>/<polyline>

  /** The comprehension's filter: the words that contain a comma, in order. */
  function CommaTokens(words: seq<string>): (r: seq<string>)
    ensures forall t :: t in r ==> ',' in t && t in words
    ensures forall w :: w in words && ',' in w ==> w in r
    ensures |r| <= |words|
  {
    if words == [] then []
    else (if ',' in words[0] then [words[0]] else []) + CommaTokens(words[1..])
  }

  /**
   * The filter keeps each word on its own and in place: a single word is
   * kept exactly when it contains a comma, and filtering two runs of words
   * one after the other filters each, in order.
   */
  lemma {:induction false} CommaTokensFilter(a: seq<string>, b: seq<string>, w: string)
    ensures CommaTokens([w]) == if ',' in w then [w] else []
    ensures CommaTokens(a + b) == CommaTokens(a) + CommaTokens(b)
  {
    assert [w][1..] == [];
    if a == [] {
      assert a + b == b;
    } else {
      assert (a + b)[0] == a[0] && (a + b)[1..] == a[1..] + b;
      CommaTokensFilter(a[1..], b, w);
    }
  }

  /** The tokens of `points.strip().split()` that contain a comma. */
  function PointTokens(points: string): (r: seq<string>)
    ensures forall t :: t in r ==> ',' in t && t != [] && NoSpace(t)
  {
    CommaTokens(Words(Strip(points)))
  }

  /** `tuple(map(float, fields))`: every field converted in order; the first that fails raises. */
  function Floats(fields: seq<string>, toFloat: string -> Option<real>): (r: Result<seq<real>, Error>)
    ensures r.Ok? ==> |r.value| == |fields|
    ensures r.Err? ==> r.error.NotAFloat? && r.error.text in fields
  {
    if fields == [] then Ok([])
    else match toFloat(fields[0])
      case None => Err(NotAFloat(fields[0]))
      case Some(v) =>
        match Floats(fields[1..], toFloat)
        case Err(e) => Err(e)
        case Ok(vs) => Ok([v] + vs)
  }

  /** The list comprehension: the float tuple of every token's comma-separated fields. */
  function Tuples(tokens: seq<string>, toFloat: string -> Option<real>): (r: Result<seq<seq<real>>, Error>)
    ensures r.Ok? ==> |r.value| == |tokens|
    ensures r.Err? ==> r.error.NotAFloat?
  {
    if tokens == [] then Ok([])
    else match Floats(Split(tokens[0], ','), toFloat)
      case Err(e) => Err(e)
      case Ok(t) =>
        match Tuples(tokens[1..], toFloat)
        case Err(e) => Err(e)
        case Ok(ts) => Ok([t] + ts)
  }

  /** The `for px, py in point_list` loop: each tuple unpacked into one point; the first that is not a pair raises. */
  function Pairs(tuples: seq<seq<real>>): (r: Result<seq<Point>, Error>)
    ensures r.Ok? ==> |r.value| == |tuples|
    ensures r.Err? ==> r.error.UnpackMismatch? && r.error.got != 2
  {
    if tuples == [] then Ok([])
    else match Pairs(tuples[..|tuples| - 1])
      case Err(e) => Err(e)
      case Ok(ps) =>
        var t := tuples[|tuples| - 1];
        if |t| == 2 then Ok(ps + [Point(t[0], t[1])]) else Err(UnpackMismatch(|t|))
  }

  /**
   * Converting fields succeeds exactly when every field converts, and then
   * gives their values in order; otherwise it names a field that does not
   * convert, the first one.
   */
  lemma {:induction false} FloatsSpec(fields: seq<string>, toFloat: string -> Option<real>)
    ensures Floats(fields, toFloat).Ok? <==> forall i :: 0 <= i < |fields| ==> toFloat(fields[i]).Some?
    ensures Floats(fields, toFloat).Ok? ==>
      |Floats(fields, toFloat).value| == |fields| &&
      forall i :: 0 <= i < |fields| ==> Floats(fields, toFloat).value[i] == toFloat(fields[i]).value
    ensures Floats(fields, toFloat).Err? ==>
      exists i :: 0 <= i < |fields| && Floats(fields, toFloat).error == NotAFloat(fields[i]) &&
        toFloat(fields[i]).None? && forall j :: 0 <= j < i ==> toFloat(fields[j]).Some?
  {
    if fields != [] {
      FloatsSpec(fields[1..], toFloat);
      if toFloat(fields[0]).Some? && Floats(fields[1..], toFloat).Err? {
        var i :| 0 <= i < |fields[1..]| && Floats(fields[1..], toFloat).error == NotAFloat(fields[1..][i]) &&
          toFloat(fields[1..][i]).None? && forall j :: 0 <= j < i ==> toFloat(fields[1..][j]).Some?;
        assert fields[i + 1] == fields[1..][i];
        assert forall j :: 1 <= j < i + 1 ==> fields[j] == fields[1..][j - 1];
      }
    }
  }

  /** The comprehension succeeds exactly when every token's fields convert, one tuple per token, in order. */
  lemma {:induction false} TuplesSpec(tokens: seq<string>, toFloat: string -> Option<real>)
    ensures Tuples(tokens, toFloat).Ok? <==> forall i :: 0 <= i < |tokens| ==> Floats(Split(tokens[i], ','), toFloat).Ok?
    ensures Tuples(tokens, toFloat).Ok? ==>
      |Tuples(tokens, toFloat).value| == |tokens| &&
      forall i :: 0 <= i < |tokens| ==> Floats(Split(tokens[i], ','), toFloat) == Ok(Tuples(tokens, toFloat).value[i])
    ensures Tuples(tokens, toFloat).Err? ==> Tuples(tokens, toFloat).error.NotAFloat?
  {
    if tokens != [] {
      TuplesSpec(tokens[1..], toFloat);
      FloatsSpec(Split(tokens[0], ','), toFloat);
      if Tuples(tokens, toFloat).Ok? {
        assert forall i :: 1 <= i < |tokens| ==> tokens[i] == tokens[1..][i - 1];
      } else if Floats(Split(tokens[0], ','), toFloat).Ok? {
        assert forall i :: 1 <= i < |tokens| ==> tokens[i] == tokens[1..][i - 1];
      }
    }
  }

  /**
   * Unpacking succeeds exactly when every tuple is a pair, and then gives
   * one point per tuple, in order; otherwise it fails on the first tuple
   * that is not a pair, reporting that tuple's size.
   */
  lemma {:induction false} PairsSpec(tuples: seq<seq<real>>)
    ensures Pairs(tuples).Ok? <==> forall i :: 0 <= i < |tuples| ==> |tuples[i]| == 2
    ensures Pairs(tuples).Ok? ==>
      |Pairs(tuples).value| == |tuples| &&
      forall i :: 0 <= i < |tuples| ==> Pairs(tuples).value[i] == Point(tuples[i][0], tuples[i][1])
    ensures Pairs(tuples).Err? ==>
      exists i :: 0 <= i < |tuples| && Pairs(tuples).error == UnpackMismatch(|tuples[i]|) &&
        |tuples[i]| != 2 && forall j :: 0 <= j < i ==> |tuples[j]| == 2
  {
    if tuples != [] {
      var init := tuples[..|tuples| - 1];
      PairsSpec(init);
      assert forall i :: 0 <= i < |init| ==> init[i] == tuples[i];
    }
  }

  /** What one `<polygon>` or `<polyline>` with this `points` text contributes. */
  function PolyPoints(points: string, toFloat: string -> Option<real>): (r: Result<seq<Point>, Error>)
    ensures r.Ok? ==> |r.value| == |PointTokens(points)|
    ensures r.Err? ==> r.error.NotAFloat? || r.error.UnpackMismatch?
  {
    TokenPoints(PointTokens(points), toFloat)
  }

  /** The points of a list of comma tokens: every token converted, then every tuple unpacked. */
  function TokenPoints(tokens: seq<string>, toFloat: string -> Option<real>): (r: Result<seq<Point>, Error>)
    ensures r.Ok? ==> |r.value| == |tokens|
    ensures r.Err? ==> r.error.NotAFloat? || (r.error.UnpackMismatch? && r.error.got != 2)
  {
    match Tuples(tokens, toFloat)
    case Err(e) => Err(e)
    case Ok(ts) => Pairs(ts)
  }

  /** Once a prefix of the tuples fails to unpack, the whole loop fails with that error. */
  lemma {:induction false} PairsFailedPrefix(tuples: seq<seq<real>>, k: nat)
    requires k <= |tuples| && Pairs(tuples[..k]).Err?
    ensures Pairs(tuples) == Pairs(tuples[..k])
    decreases |tuples| - k
  {
    if k < |tuples| {
      assert tuples[..k + 1][..k] == tuples[..k];
      PairsFailedPrefix(tuples, k + 1);
    } else {
      assert tuples[..k] == tuples;
    }
  }

  /** A token whose fields all convert and which has exactly two of them. */
  predicate WellFormedPair(token: string, toFloat: string -> Option<real>) {
    var fields := Split(token, ',');
    |fields| == 2 && toFloat(fields[0]).Some? && toFloat(fields[1]).Some?
  }

  /**
   * A polygon's points text yields a result exactly when every comma token
   * is two convertible numbers; it then yields one point per comma token,
   * in text order, tokens without a comma contributing nothing.
   */
  lemma PolyPointsSpec(points: string, toFloat: string -> Option<real>)
    ensures var tokens := PointTokens(points);
      PolyPoints(points, toFloat).Ok? <==> forall i :: 0 <= i < |tokens| ==> WellFormedPair(tokens[i], toFloat)
    ensures var tokens := PointTokens(points);
      PolyPoints(points, toFloat).Ok? ==>
        |PolyPoints(points, toFloat).value| == |tokens| &&
        forall i :: 0 <= i < |tokens| ==>
          var fields := Split(tokens[i], ',');
          PolyPoints(points, toFloat).value[i] == Point(toFloat(fields[0]).value, toFloat(fields[1]).value)
  {
    TokenPointsSpec(PointTokens(points), toFloat);
  }

  lemma TokenPointsSpec(tokens: seq<string>, toFloat: string -> Option<real>)
    ensures TokenPoints(tokens, toFloat).Ok? <==> forall i :: 0 <= i < |tokens| ==> WellFormedPair(tokens[i], toFloat)
    ensures TokenPoints(tokens, toFloat).Ok? ==>
      |TokenPoints(tokens, toFloat).value| == |tokens| &&
      forall i :: 0 <= i < |tokens| ==>
        var fields := Split(tokens[i], ',');
        TokenPoints(tokens, toFloat).value[i] == Point(toFloat(fields[0]).value, toFloat(fields[1]).value)
  {
    var tuples := Tuples(tokens, toFloat);
    TuplesSpec(tokens, toFloat);
    forall i | 0 <= i < |tokens| {
      FloatsSpec(Split(tokens[i], ','), toFloat);
    }
    if tuples.Ok? {
      PairsSpec(tuples.value);
      forall i | 0 <= i < |tokens|
        ensures |tuples.value[i]| == |Split(tokens[i], ',')|
      {
        assert Floats(Split(tokens[i], ','), toFloat) == Ok(tuples.value[i]);
      }
    }
  }

  /**
   * Every kept token contains a comma, so it splits into at least two
   * fields: unpacking can only fail with too many values, never too few.
   */
  lemma PolyPointsNeverTooFew(points: string, toFloat: string -> Option<real>)
    requires PolyPoints(points, toFloat).Err? && PolyPoints(points, toFloat).error.UnpackMismatch?
    ensures PolyPoints(points, toFloat).error.got > 2
  {
    var tokens := PointTokens(points);
    TuplesSpec(tokens, toFloat);
    var tuples := Tuples(tokens, toFloat).value;
    PairsSpec(tuples);
    var i :| 0 <= i < |tuples| && Pairs(tuples).error == UnpackMismatch(|tuples[i]|) && |tuples[i]| != 2;
    assert tokens[i] in tokens;
    SplitAtLeastTwo(tokens[i], ',');
    FloatsSpec(Split(tokens[i], ','), toFloat);
  }
}
