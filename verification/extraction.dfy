/**
 * The document walker: four passes over the parsed document, one per
 * element kind (paths, rectangles, circles and ellipses, polygons and
 * polylines), appending every produced point to two parallel coordinate
 * lists.
 */
module Extraction {
  import opened Wrappers
  import opened Errors
  import opened Strings
  import opened Shapes

  /**
   * An element of the parsed document, with the attributes the walker reads.
   * A missing attribute is `None`. `Ellipse` stands for both `<circle>` and
   * `<ellipse>`, `Poly` for both `<polygon>` and `<polyline>`; `Other` is any
   * element the walker does not look at. A path arrives as its parsed
   * segments, of the path library's segment type `S`.
   */
  datatype Element<S> =
    | Path(segments: seq<S>)
    | Rect(x: Option<real>, y: Option<real>, width: Option<real>, height: Option<real>)
    | Ellipse(cx: Option<real>, cy: Option<real>, r: Option<real>, rx: Option<real>, ry: Option<real>)
    | Poly(points: Option<string>)
    | Other

  /** The library code the walker calls: segment evaluation, trigonometry and `float()` on text. */
  datatype Foreign<-S> = Foreign(pointAt: (S, real) -> Point, trig: Trig, toFloat: string -> Option<real>)

  /** The two parallel lists `x_coords` and `y_coords`. */
  datatype Coordinates = Coordinates(xs: seq<real>, ys: seq<real>)

  /** The three passes whose output cannot fail. */
  datatype Kind = Paths | Rects | Ellipses

  /** `xs` and `ys` are `pts` split into its two coordinate lists: equal lengths, position by position. */
  predicate Unzipped(xs: seq<real>, ys: seq<real>, pts: seq<Point>) {
    |xs| == |pts| && |ys| == |pts| && forall i :: 0 <= i < |pts| ==> xs[i] == pts[i].x && ys[i] == pts[i].y
  }

  /** The points of consecutive segments, each sampled at `n` parameters. */
  function SegmentsPoints<S>(segments: seq<S>, n: nat, pointAt: (S, real) -> Point): (r: seq<Point>)
    ensures |r| == n * |segments|
  {
    if segments == [] then []
    else
      var init := segments[..|segments| - 1];
      SegmentsPoints(init, n, pointAt) + SegmentPoints(segments[|segments| - 1], n, pointAt)
  }

  /** A radius attribute, falling back to `r` and then to 0. */
  function Radius(own: Option<real>, r: Option<real>): (rad: real)
    ensures own.Some? ==> rad == own.value
    ensures own.None? && r.Some? ==> rad == r.value
    ensures own.None? && r.None? ==> rad == 0.0
  {
    own.GetOr(r.GetOr(0.0))
  }

  /** What element `e` contributes to the pass for `kind`; other kinds contribute nothing. */
  function Contribution<S>(e: Element<S>, kind: Kind, n: nat, lib: Foreign<S>): (r: seq<Point>)
    ensures e.Path? && kind == Paths ==> |r| == n * |e.segments|
    ensures e.Rect? && kind == Rects ==> |r| == 5 && r[0] == r[4] == Point(e.x.GetOr(0.0), e.y.GetOr(0.0))
    ensures e.Ellipse? && kind == Ellipses ==> |r| == n
    ensures (e.Path? && kind != Paths) || (e.Rect? && kind != Rects) || (e.Ellipse? && kind != Ellipses) || e.Poly? || e.Other? ==> r == []
  {
    match e
    case Path(segments) =>
      if kind == Paths then SegmentsPoints(segments, n, lib.pointAt) else []
    case Rect(x, y, width, height) =>
      if kind == Rects then RectOutline(x.GetOr(0.0), y.GetOr(0.0), width.GetOr(0.0), height.GetOr(0.0)) else []
    case Ellipse(cx, cy, r, rx, ry) =>
      if kind == Ellipses then EllipsePoints(cx.GetOr(0.0), cy.GetOr(0.0), Radius(rx, r), Radius(ry, r), n, lib.trig) else []
    case _ => []
  }

  /** The points of one pass over `doc`, element after element in document order. */
  function Group<S>(doc: seq<Element<S>>, kind: Kind, n: nat, lib: Foreign<S>): (r: seq<Point>)
    ensures kind == Rects ==> |r| % 5 == 0
  {
    if doc == [] then []
    else Group(doc[..|doc| - 1], kind, n, lib) + Contribution(doc[|doc| - 1], kind, n, lib)
  }

  /** What a `<polygon>`/`<polyline>` contributes; other elements contribute nothing. */
  function PolyContribution<S>(e: Element<S>, toFloat: string -> Option<real>): (r: Result<seq<Point>, Error>)
    ensures !e.Poly? || e.points.None? ==> r == Ok([])
    ensures r.Err? ==> r.error.NotAFloat? || r.error.UnpackMismatch?
  {
    assert Strip("") == "" && Words("") == [];
    if e.Poly? then PolyPoints(e.points.GetOr(""), toFloat) else Ok([])
  }

  /** `PolyContribution` as a function value, for `Collect`. */
  function PolyOf<S>(toFloat: string -> Option<real>): Element<S> -> Result<seq<Point>, Error> {
    e => PolyContribution(e, toFloat)
  }

  /** Per-element results gathered in document order: the first element that fails aborts with its error. */
  function Collect<S>(doc: seq<Element<S>>, f: Element<S> -> Result<seq<Point>, Error>): Result<seq<Point>, Error> {
    if doc == [] then Ok([])
    else
      match Collect(doc[..|doc| - 1], f)
      case Err(e) => Err(e)
      case Ok(ps) =>
        match f(doc[|doc| - 1])
        case Err(e) => Err(e)
        case Ok(qs) => Ok(ps + qs)
  }

  /**
   * A failure of the gathering is the failure of one of the elements, and
   * when no element gives anything the gathering gives nothing.
   */
  lemma {:induction false} CollectOutcome<S>(doc: seq<Element<S>>, f: Element<S> -> Result<seq<Point>, Error>)
    ensures Collect(doc, f).Err? ==> exists i :: 0 <= i < |doc| && f(doc[i]) == Err(Collect(doc, f).error)
    ensures (forall i :: 0 <= i < |doc| ==> f(doc[i]) == Ok([])) ==> Collect(doc, f) == Ok([])
  {
    if doc != [] {
      var init := doc[..|doc| - 1];
      CollectOutcome(init, f);
      assert forall i :: 0 <= i < |init| ==> init[i] == doc[i];
      if forall i :: 0 <= i < |doc| ==> f(doc[i]) == Ok([]) {
        assert forall i :: 0 <= i < |init| ==> f(init[i]) == Ok([]);
        assert f(doc[|doc| - 1]) == Ok([]);
        var none: seq<Point> := [];
        assert none + none == none;
      }
    }
  }

  /** The polygon pass: the first element whose points text fails aborts the pass. */
  function PolyGroup<S>(doc: seq<Element<S>>, toFloat: string -> Option<real>): (r: Result<seq<Point>, Error>)
    ensures r.Err? ==> r.error.NotAFloat? || r.error.UnpackMismatch?
    ensures (forall i :: 0 <= i < |doc| ==> !doc[i].Poly? || doc[i].points.None?) ==> r == Ok([])
  {
    var f := PolyOf<S>(toFloat);
    assert forall i :: 0 <= i < |doc| ==> f(doc[i]) == PolyContribution(doc[i], toFloat);
    CollectOutcome(doc, f);
    Collect(doc, f)
  }

  /** `extract_coordinates_from_svg` as a value: all path points, then rectangles, then ellipses, then polygons. */
  function Extracted<S>(doc: seq<Element<S>>, n: nat, lib: Foreign<S>): (r: Result<seq<Point>, Error>)
    ensures r.Err? <==> PolyGroup(doc, lib.toFloat).Err?
    ensures r.Ok? ==> |r.value| >= |Group(doc, Paths, n, lib)| && r.value[..|Group(doc, Paths, n, lib)|] == Group(doc, Paths, n, lib)
  {
    match PolyGroup(doc, lib.toFloat)
    case Err(e) => Err(e)
    case Ok(qs) => Ok(Group(doc, Paths, n, lib) + Group(doc, Rects, n, lib) + Group(doc, Ellipses, n, lib) + qs)
  }

  // ------------------------------------------------------------ the walker

  /** Once a prefix of the document has failed, the whole document fails with that error. */
  lemma {:induction false} CollectFailedPrefix<S>(doc: seq<Element<S>>, k: nat, f: Element<S> -> Result<seq<Point>, Error>)
    requires k <= |doc| && Collect(doc[..k], f).Err?
    ensures Collect(doc, f) == Collect(doc[..k], f)
    decreases |doc| - k
  {
    if k < |doc| {
      assert doc[..k + 1][..k] == doc[..k];
      CollectFailedPrefix(doc, k + 1, f);
    } else {
      assert doc[..k] == doc;
    }
  }

  /** Appending one point to `pts` appends its coordinates to `xs` and `ys`. */
  lemma UnzippedSnoc(xs: seq<real>, ys: seq<real>, pts: seq<Point>, p: Point)
    requires Unzipped(xs, ys, pts)
    ensures Unzipped(xs + [p.x], ys + [p.y], pts + [p])
  {
  }

  lemma AppendAssoc<T>(a: seq<T>, b: seq<T>, c: seq<T>)
    ensures a + b + c == a + (b + c)
  {
  }

  lemma TakeStep<T>(s: seq<T>, k: nat)
    requires k < |s|
    ensures s[..k + 1] == s[..k] + [s[k]]
  {
  }

  lemma TakeAll<T>(s: seq<T>)
    ensures s[..|s|] == s
  {
  }

  /** `for px, py in ...: x_coords.append(px); y_coords.append(py)`: both lists grow in step. */
  method AppendPoints(xs0: seq<real>, ys0: seq<real>, ghost pts0: seq<Point>, points: seq<Point>) returns (xs: seq<real>, ys: seq<real>)
    requires Unzipped(xs0, ys0, pts0)
    ensures Unzipped(xs, ys, pts0 + points)
  {
    xs, ys := xs0, ys0;
    for k := 0 to |points|
      invariant Unzipped(xs, ys, pts0 + points[..k])
    {
      TakeStep(points, k);
      AppendAssoc(pts0, points[..k], [points[k]]);
      UnzippedSnoc(xs, ys, pts0 + points[..k], points[k]);
      xs, ys := xs + [points[k].x], ys + [points[k].y];
    }
    TakeAll(points);
  }

  /** One more element extends a pass by that element's contribution. */
  lemma GroupStep<S>(doc: seq<Element<S>>, i: nat, kind: Kind, n: nat, lib: Foreign<S>)
    requires i < |doc|
    ensures Group(doc[..i + 1], kind, n, lib) == Group(doc[..i], kind, n, lib) + Contribution(doc[i], kind, n, lib)
  {
    assert doc[..i + 1][..i] == doc[..i];
  }

  lemma SegmentsStep<S>(segments: seq<S>, j: nat, n: nat, pointAt: (S, real) -> Point)
    requires j < |segments|
    ensures SegmentsPoints(segments[..j + 1], n, pointAt) == SegmentsPoints(segments[..j], n, pointAt) + SegmentPoints(segments[j], n, pointAt)
  {
    assert segments[..j + 1][..j] == segments[..j];
  }

  /** The segments of one path, each sampled at `n` evenly spaced parameters and appended. */
  method AppendSegments<S>(xs0: seq<real>, ys0: seq<real>, ghost pts0: seq<Point>, segments: seq<S>, n: nat, pointAt: (S, real) -> Point)
    returns (xs: seq<real>, ys: seq<real>)
    requires Unzipped(xs0, ys0, pts0)
    ensures Unzipped(xs, ys, pts0 + SegmentsPoints(segments, n, pointAt))
  {
    xs, ys := xs0, ys0;
    for j := 0 to |segments|
      invariant Unzipped(xs, ys, pts0 + SegmentsPoints(segments[..j], n, pointAt))
    {
      SegmentsStep(segments, j, n, pointAt);
      var points := SegmentPoints(segments[j], n, pointAt);
      AppendAssoc(pts0, SegmentsPoints(segments[..j], n, pointAt), points);
      xs, ys := AppendPoints(xs, ys, pts0 + SegmentsPoints(segments[..j], n, pointAt), points);
    }
    TakeAll(segments);
  }

  /** The `<path>` pass: every segment of every path sampled at `n` evenly spaced parameters. */
  method PathPass<S>(doc: seq<Element<S>>, n: nat, lib: Foreign<S>, xs0: seq<real>, ys0: seq<real>, ghost pts0: seq<Point>)
    returns (xs: seq<real>, ys: seq<real>)
    requires Unzipped(xs0, ys0, pts0)
    ensures Unzipped(xs, ys, pts0 + Group(doc, Paths, n, lib))
  {
    xs, ys := xs0, ys0;
    for i := 0 to |doc|
      invariant Unzipped(xs, ys, pts0 + Group(doc[..i], Paths, n, lib))
    {
      ghost var before := pts0 + Group(doc[..i], Paths, n, lib);
      GroupStep(doc, i, Paths, n, lib);
      AppendAssoc(pts0, Group(doc[..i], Paths, n, lib), Contribution(doc[i], Paths, n, lib));
      if doc[i].Path? {
        xs, ys := AppendSegments(xs, ys, before, doc[i].segments, n, lib.pointAt);
      } else {
        assert before + [] == before;
      }
    }
    TakeAll(doc);
  }

  /** The `<rect>` pass: the closed five-point outline of every rectangle, missing attributes read as 0. */
  method RectPass<S>(doc: seq<Element<S>>, n: nat, lib: Foreign<S>, xs0: seq<real>, ys0: seq<real>, ghost pts0: seq<Point>)
    returns (xs: seq<real>, ys: seq<real>)
    requires Unzipped(xs0, ys0, pts0)
    ensures Unzipped(xs, ys, pts0 + Group(doc, Rects, n, lib))
  {
    xs, ys := xs0, ys0;
    for i := 0 to |doc|
      invariant Unzipped(xs, ys, pts0 + Group(doc[..i], Rects, n, lib))
    {
      ghost var before := pts0 + Group(doc[..i], Rects, n, lib);
      GroupStep(doc, i, Rects, n, lib);
      AppendAssoc(pts0, Group(doc[..i], Rects, n, lib), Contribution(doc[i], Rects, n, lib));
      if doc[i].Rect? {
        var x, y := doc[i].x.GetOr(0.0), doc[i].y.GetOr(0.0);
        var width, height := doc[i].width.GetOr(0.0), doc[i].height.GetOr(0.0);
        var outline := RectOutline(x, y, width, height);
        xs, ys := AppendPoints(xs, ys, before, outline);
      } else {
        assert before + [] == before;
      }
    }
    TakeAll(doc);
  }

  /** One circle or ellipse: a point for each of `n` angles from 0 to 2*pi, appended. */
  method AppendEllipse(xs0: seq<real>, ys0: seq<real>, ghost pts0: seq<Point>, cx: real, cy: real, rx: real, ry: real, n: nat, trig: Trig)
    returns (xs: seq<real>, ys: seq<real>)
    requires Unzipped(xs0, ys0, pts0)
    ensures Unzipped(xs, ys, pts0 + EllipsePoints(cx, cy, rx, ry, n, trig))
  {
    xs, ys := xs0, ys0;
    ghost var expected := EllipsePoints(cx, cy, rx, ry, n, trig);
    var angles := Linspace(0.0, 2.0 * trig.pi, n);
    for k := 0 to |angles|
      invariant Unzipped(xs, ys, pts0 + expected[..k])
    {
      var p := EllipseAt(cx, cy, rx, ry, trig, angles[k]);
      assert pts0 + expected[..k + 1] == pts0 + expected[..k] + [p] by {
        EllipseSample(cx, cy, rx, ry, n, trig, k);
        assert p == expected[k];
        TakeStep(expected, k);
        AppendAssoc(pts0, expected[..k], [p]);
      }
      UnzippedSnoc(xs, ys, pts0 + expected[..k], p);
      xs, ys := xs + [p.x], ys + [p.y];
    }
    TakeAll(expected);
  }

  /** The `<circle>`/`<ellipse>` pass: radii fall back to `r`, then to 0. */
  method EllipsePass<S>(doc: seq<Element<S>>, n: nat, lib: Foreign<S>, xs0: seq<real>, ys0: seq<real>, ghost pts0: seq<Point>)
    returns (xs: seq<real>, ys: seq<real>)
    requires Unzipped(xs0, ys0, pts0)
    ensures Unzipped(xs, ys, pts0 + Group(doc, Ellipses, n, lib))
  {
    xs, ys := xs0, ys0;
    for i := 0 to |doc|
      invariant Unzipped(xs, ys, pts0 + Group(doc[..i], Ellipses, n, lib))
    {
      ghost var before := pts0 + Group(doc[..i], Ellipses, n, lib);
      GroupStep(doc, i, Ellipses, n, lib);
      AppendAssoc(pts0, Group(doc[..i], Ellipses, n, lib), Contribution(doc[i], Ellipses, n, lib));
      if doc[i].Ellipse? {
        var cx, cy := doc[i].cx.GetOr(0.0), doc[i].cy.GetOr(0.0);
        var rx, ry := Radius(doc[i].rx, doc[i].r), Radius(doc[i].ry, doc[i].r);
        xs, ys := AppendEllipse(xs, ys, before, cx, cy, rx, ry, n, lib.trig);
      } else {
        assert before + [] == before;
      }
    }
    TakeAll(doc);
  }

  /** The unpacking loop of one polygon: each tuple becomes a point; the first that is not a pair aborts. */
  method AppendPairs(xs0: seq<real>, ys0: seq<real>, ghost pts0: seq<Point>, pointList: seq<seq<real>>)
    returns (r: Result<Coordinates, Error>)
    requires Unzipped(xs0, ys0, pts0)
    ensures r.Ok? <==> Pairs(pointList).Ok?
    ensures r.Ok? ==> Unzipped(r.value.xs, r.value.ys, pts0 + Pairs(pointList).value)
    ensures r.Err? ==> r.error == Pairs(pointList).error
  {
    var xs, ys := xs0, ys0;
    ghost var done: seq<Point> := [];
    for k := 0 to |pointList|
      invariant Pairs(pointList[..k]) == Ok(done)
      invariant Unzipped(xs, ys, pts0 + done)
    {
      assert pointList[..k + 1][..k] == pointList[..k];
      var t := pointList[k];
      if |t| != 2 {
        PairsFailedPrefix(pointList, k + 1);
        return Err(UnpackMismatch(|t|));
      }
      var p := Point(t[0], t[1]);
      AppendAssoc(pts0, done, [p]);
      UnzippedSnoc(xs, ys, pts0 + done, p);
      xs, ys := xs + [p.x], ys + [p.y];
      done := done + [p];
    }
    TakeAll(pointList);
    r := Ok(Coordinates(xs, ys));
  }

  /** One more element extends the gathered result, or makes it fail. */
  lemma CollectStep<S>(doc: seq<Element<S>>, i: nat, f: Element<S> -> Result<seq<Point>, Error>)
    requires i < |doc| && Collect(doc[..i], f).Ok?
    ensures Collect(doc[..i + 1], f) ==
      match f(doc[i])
      case Err(e) => Err(e)
      case Ok(qs) => Ok(Collect(doc[..i], f).value + qs)
  {
    assert doc[..i + 1][..i] == doc[..i];
  }

  /**
   * One polygon or polyline: its `points` text stripped and split, the
   * comma tokens converted to tuples, the tuples unpacked and appended.
   */
  method AppendPoly(xs0: seq<real>, ys0: seq<real>, ghost pts0: seq<Point>, points: string, toFloat: string -> Option<real>)
    returns (r: Result<Coordinates, Error>)
    requires Unzipped(xs0, ys0, pts0)
    ensures r.Ok? <==> PolyPoints(points, toFloat).Ok?
    ensures r.Ok? ==> Unzipped(r.value.xs, r.value.ys, pts0 + PolyPoints(points, toFloat).value)
    ensures r.Err? ==> r.error == PolyPoints(points, toFloat).error
  {
    var text := Strip(points);
    var tuples := Tuples(CommaTokens(Words(text)), toFloat);
    if tuples.Err? {
      return Err(tuples.error);
    }
    r := AppendPairs(xs0, ys0, pts0, tuples.value);
  }

  /** One element of the polygon pass: a polygon or polyline is appended, anything else is skipped. */
  method AppendContribution<S>(xs0: seq<real>, ys0: seq<real>, ghost pts0: seq<Point>, e: Element<S>, toFloat: string -> Option<real>)
    returns (r: Result<Coordinates, Error>)
    requires Unzipped(xs0, ys0, pts0)
    ensures r.Ok? <==> PolyContribution(e, toFloat).Ok?
    ensures r.Ok? ==> Unzipped(r.value.xs, r.value.ys, pts0 + PolyContribution(e, toFloat).value)
    ensures r.Err? ==> r.error == PolyContribution(e, toFloat).error
  {
    if e.Poly? {
      r := AppendPoly(xs0, ys0, pts0, e.points.GetOr(""), toFloat);
    } else {
      assert pts0 + [] == pts0;
      r := Ok(Coordinates(xs0, ys0));
    }
  }

  /** The `<polygon>`/`<polyline>` pass: the first polygon whose points text fails aborts it. */
  method PolyPass<S>(doc: seq<Element<S>>, toFloat: string -> Option<real>, xs0: seq<real>, ys0: seq<real>, ghost pts0: seq<Point>)
    returns (r: Result<Coordinates, Error>)
    requires Unzipped(xs0, ys0, pts0)
    ensures r.Ok? <==> PolyGroup(doc, toFloat).Ok?
    ensures r.Ok? ==> Unzipped(r.value.xs, r.value.ys, pts0 + PolyGroup(doc, toFloat).value)
    ensures r.Err? ==> r.error == PolyGroup(doc, toFloat).error
  {
    var xs, ys := xs0, ys0;
    ghost var done: seq<Point> := [];
    ghost var f := PolyOf(toFloat);
    for i := 0 to |doc|
      invariant Collect(doc[..i], f) == Ok(done)
      invariant Unzipped(xs, ys, pts0 + done)
    {
      CollectStep(doc, i, f);
      assert f(doc[i]) == PolyContribution(doc[i], toFloat);
      var appended := AppendContribution(xs, ys, pts0 + done, doc[i], toFloat);
      if appended.Err? {
        CollectFailedPrefix(doc, i + 1, f);
        return Err(appended.error);
      }
      xs, ys := appended.value.xs, appended.value.ys;
      ghost var qs := PolyContribution(doc[i], toFloat).value;
      AppendAssoc(pts0, done, qs);
      done := done + qs;
    }
    TakeAll(doc);
    r := Ok(Coordinates(xs, ys));
  }

  /**
   * `extract_coordinates_from_svg`: the four passes in their fixed order,
   * from empty lists. It fails exactly when `Extracted` does, with
   * the same error; otherwise the two lists have equal length and are the
   * points of `Extracted` split in two.
   */
  method ExtractCoordinates<S>(doc: seq<Element<S>>, flattenTolerance: nat, lib: Foreign<S>) returns (r: Result<Coordinates, Error>)
    ensures r.Ok? <==> Extracted(doc, flattenTolerance, lib).Ok?
    ensures r.Ok? ==> Unzipped(r.value.xs, r.value.ys, Extracted(doc, flattenTolerance, lib).value)
    ensures r.Ok? ==> |r.value.xs| == |r.value.ys|
    ensures r.Err? ==> r.error == Extracted(doc, flattenTolerance, lib).error
  {
    var n := flattenTolerance;
    ghost var paths, rects, ellipses := Group(doc, Paths, n, lib), Group(doc, Rects, n, lib), Group(doc, Ellipses, n, lib);
    var xs, ys := PathPass(doc, n, lib, [], [], []);
    assert [] + paths == paths;
    xs, ys := RectPass(doc, n, lib, xs, ys, paths);
    xs, ys := EllipsePass(doc, n, lib, xs, ys, paths + rects);
    r := PolyPass(doc, lib.toFloat, xs, ys, paths + rects + ellipses);
  }
}
