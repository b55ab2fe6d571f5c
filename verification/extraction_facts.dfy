/**
 * What the walker's value-level definition `Extracted` implies about its output: how many
 * points each element contributes, that the passes group points by element
 * kind rather than by document position, that elements the walker does not
 * look at change nothing, and when the polygon pass fails.
 */
module ExtractionFacts {
  import opened Wrappers
  import opened Errors
  import opened Strings
  import opened Shapes
  import opened Extraction

  /** How many points element `e` adds to the pass for `kind`. */
  function ContributionSize<S>(e: Element<S>, kind: Kind, n: nat): nat {
    match e
    case Path(segments) => if kind == Paths then n * |segments| else 0
    case Rect(_, _, _, _) => if kind == Rects then 5 else 0
    case Ellipse(_, _, _, _, _) => if kind == Ellipses then n else 0
    case _ => 0
  }

  /** The number of points one pass adds over the whole document. */
  function TotalSize<S>(doc: seq<Element<S>>, kind: Kind, n: nat): nat {
    if doc == [] then 0
    else TotalSize(doc[..|doc| - 1], kind, n) + ContributionSize(doc[|doc| - 1], kind, n)
  }

  /** How many points the polygons of the document add: one per comma token of each `points` text. */
  function PolyTotal<S>(doc: seq<Element<S>>): nat {
    if doc == [] then 0
    else
      var e := doc[|doc| - 1];
      PolyTotal(doc[..|doc| - 1]) + if e.Poly? then |PointTokens(e.points.GetOr(""))| else 0
  }

  /**
   * Each path segment gives `n` points, each rectangle 5 and each circle
   * or ellipse `n`.
   */
  lemma {:induction false} GroupLength<S>(doc: seq<Element<S>>, kind: Kind, n: nat, lib: Foreign<S>)
    ensures |Group(doc, kind, n, lib)| == TotalSize(doc, kind, n)
  {
    if doc != [] {
      GroupLength(doc[..|doc| - 1], kind, n, lib);
    }
  }

  /** A successful polygon pass gives one point per comma token of every polygon and polyline. */
  lemma {:induction false} PolyGroupLength<S>(doc: seq<Element<S>>, toFloat: string -> Option<real>)
    requires PolyGroup(doc, toFloat).Ok?
    ensures |PolyGroup(doc, toFloat).value| == PolyTotal(doc)
  {
    if doc != [] {
      var e := doc[|doc| - 1];
      PolyGroupLength(doc[..|doc| - 1], toFloat);
      if e.Poly? {
        PolyPointsSpec(e.points.GetOr(""), toFloat);
      }
    }
  }

  /** The output has one point per sample, corner and comma token. */
  lemma ExtractionLength<S>(doc: seq<Element<S>>, n: nat, lib: Foreign<S>)
    requires Extracted(doc, n, lib).Ok?
    ensures |Extracted(doc, n, lib).value| ==
      TotalSize(doc, Paths, n) + TotalSize(doc, Rects, n) + TotalSize(doc, Ellipses, n) + PolyTotal(doc)
  {
    GroupLength(doc, Paths, n, lib);
    GroupLength(doc, Rects, n, lib);
    GroupLength(doc, Ellipses, n, lib);
    PolyGroupLength(doc, lib.toFloat);
  }

  /** Every point an element contributes to a pass is in the pass. */
  lemma GroupKeepsContributions<S>(doc: seq<Element<S>>, kind: Kind, n: nat, lib: Foreign<S>)
    ensures forall i, p :: 0 <= i < |doc| && p in Contribution(doc[i], kind, n, lib) ==> p in Group(doc, kind, n, lib)
  {
    forall i, p | 0 <= i < |doc| && p in Contribution(doc[i], kind, n, lib)
      ensures p in Group(doc, kind, n, lib)
    {
      var before, after := doc[..i], doc[i + 1..];
      assert doc == before + [doc[i]] + after;
      GroupAppend(before + [doc[i]], after, kind, n, lib);
      GroupAppend(before, [doc[i]], kind, n, lib);
      GroupSingle(doc[i], kind, n, lib);
    }
  }

  /** Every point of a pass was contributed by some element of the document. */
  lemma {:induction false} GroupOnlyContributions<S>(doc: seq<Element<S>>, kind: Kind, n: nat, lib: Foreign<S>)
    ensures forall p :: p in Group(doc, kind, n, lib) ==> exists i :: 0 <= i < |doc| && p in Contribution(doc[i], kind, n, lib)
  {
    if doc != [] {
      var init := doc[..|doc| - 1];
      GroupOnlyContributions(init, kind, n, lib);
      var ps, qs := Group(init, kind, n, lib), Contribution(doc[|doc| - 1], kind, n, lib);
      assert Group(doc, kind, n, lib) == ps + qs;
      forall p | p in ps + qs
        ensures exists i :: 0 <= i < |doc| && p in Contribution(doc[i], kind, n, lib)
      {
        if p in ps {
          var i :| 0 <= i < |init| && p in Contribution(init[i], kind, n, lib);
          assert init[i] == doc[i];
        } else {
          assert p in Contribution(doc[|doc| - 1], kind, n, lib);
        }
      }
    }
  }

  /** A pass over two documents in a row is the pass over the first, then over the second. */
  lemma {:induction false} GroupAppend<S>(d1: seq<Element<S>>, d2: seq<Element<S>>, kind: Kind, n: nat, lib: Foreign<S>)
    ensures Group(d1 + d2, kind, n, lib) == Group(d1, kind, n, lib) + Group(d2, kind, n, lib)
    decreases |d2|
  {
    if d2 == [] {
      assert d1 + d2 == d1;
    } else {
      var init := d2[..|d2| - 1];
      assert (d1 + d2)[..|d1 + d2| - 1] == d1 + init;
      assert (d1 + d2)[|d1 + d2| - 1] == d2[|d2| - 1];
      GroupAppend(d1, init, kind, n, lib);
      AppendAssoc(Group(d1, kind, n, lib), Group(init, kind, n, lib), Contribution(d2[|d2| - 1], kind, n, lib));
    }
  }

  /** Gathering over two documents in a row: the first failure wins, otherwise the points concatenate. */
  lemma {:induction false} CollectAppend<S>(d1: seq<Element<S>>, d2: seq<Element<S>>, f: Element<S> -> Result<seq<Point>, Error>)
    ensures Collect(d1 + d2, f) ==
      match Collect(d1, f)
      case Err(e) => Err(e)
      case Ok(ps) =>
        match Collect(d2, f)
        case Err(e) => Err(e)
        case Ok(qs) => Ok(ps + qs)
    decreases |d2|
  {
    if d2 == [] {
      assert d1 + d2 == d1;
      assert Collect(d1, f).Ok? ==> Collect(d1, f).value + [] == Collect(d1, f).value;
    } else {
      var init := d2[..|d2| - 1];
      var last := d2[|d2| - 1];
      assert (d1 + d2)[..|d1 + d2| - 1] == d1 + init;
      assert (d1 + d2)[|d1 + d2| - 1] == last;
      CollectAppend(d1, init, f);
      if Collect(d1, f).Ok? && Collect(init, f).Ok? && f(last).Ok? {
        AppendAssoc(Collect(d1, f).value, Collect(init, f).value, f(last).value);
      }
    }
  }

  lemma CollectSingle<S>(e: Element<S>, f: Element<S> -> Result<seq<Point>, Error>)
    ensures Collect([e], f) == f(e)
  {
    assert [e][..0] == [];
    if f(e).Ok? {
      assert [] + f(e).value == f(e).value;
    }
  }

  /**
   * Gathering succeeds exactly when every element's result does; when it
   * fails, it reports the error of the first element that fails.
   */
  lemma {:induction false} CollectSpec<S>(doc: seq<Element<S>>, f: Element<S> -> Result<seq<Point>, Error>)
    ensures Collect(doc, f).Ok? <==> forall i :: 0 <= i < |doc| ==> f(doc[i]).Ok?
    ensures Collect(doc, f).Err? ==>
      exists i :: 0 <= i < |doc| && f(doc[i]) == Err(Collect(doc, f).error) &&
        forall j :: 0 <= j < i ==> f(doc[j]).Ok?
  {
    if doc != [] {
      var init := doc[..|doc| - 1];
      CollectSpec(init, f);
      assert forall i :: 0 <= i < |init| ==> init[i] == doc[i];
    }
  }

  /**
   * The polygon pass succeeds exactly when every polygon's and polyline's
   * points text does; when it fails, it reports the error of the first
   * element that fails.
   */
  lemma PolyGroupSpec<S>(doc: seq<Element<S>>, toFloat: string -> Option<real>)
    ensures PolyGroup(doc, toFloat).Ok? <==> forall i :: 0 <= i < |doc| ==> PolyContribution(doc[i], toFloat).Ok?
    ensures PolyGroup(doc, toFloat).Err? ==>
      exists i :: 0 <= i < |doc| && PolyContribution(doc[i], toFloat) == Err(PolyGroup(doc, toFloat).error) &&
        forall j :: 0 <= j < i ==> PolyContribution(doc[j], toFloat).Ok?
  {
    CollectSpec(doc, PolyOf(toFloat));
  }

  lemma GroupSingle<S>(e: Element<S>, kind: Kind, n: nat, lib: Foreign<S>)
    ensures Group([e], kind, n, lib) == Contribution(e, kind, n, lib)
  {
    assert [e][..0] == [];
  }

  /** An element the walker does not look at adds nothing to any pass, wherever it stands. */
  lemma {:induction false} OtherIgnoredByGroup<S>(d1: seq<Element<S>>, d2: seq<Element<S>>, kind: Kind, n: nat, lib: Foreign<S>)
    ensures Group(d1 + [Other] + d2, kind, n, lib) == Group(d1 + d2, kind, n, lib)
  {
    GroupAppend(d1 + [Other], d2, kind, n, lib);
    GroupAppend(d1, [Other], kind, n, lib);
    GroupAppend(d1, d2, kind, n, lib);
    GroupSingle(Other, kind, n, lib);
    assert Group(d1, kind, n, lib) + [] == Group(d1, kind, n, lib);
  }

  /** An element the walker does not look at neither adds to nor fails the polygon pass. */
  lemma {:induction false} OtherIgnoredByPolyGroup<S>(d1: seq<Element<S>>, d2: seq<Element<S>>, toFloat: string -> Option<real>)
    ensures PolyGroup(d1 + [Other] + d2, toFloat) == PolyGroup(d1 + d2, toFloat)
  {
    var f := PolyOf<S>(toFloat);
    CollectAppend(d1 + [Other], d2, f);
    CollectAppend(d1, [Other], f);
    CollectAppend(d1, d2, f);
    CollectSingle(Other, f);
    assert f(Other) == Ok([]);
    if Collect(d1, f).Ok? {
      assert Collect(d1, f).value + [] == Collect(d1, f).value;
    }
  }

  /** Elements the walker does not look at leave the output unchanged, wherever they stand. */
  lemma {:induction false} OtherIgnored<S>(d1: seq<Element<S>>, d2: seq<Element<S>>, n: nat, lib: Foreign<S>)
    ensures Extracted(d1 + [Other] + d2, n, lib) == Extracted(d1 + d2, n, lib)
  {
    OtherIgnoredByGroup(d1, d2, Paths, n, lib);
    OtherIgnoredByGroup(d1, d2, Rects, n, lib);
    OtherIgnoredByGroup(d1, d2, Ellipses, n, lib);
    OtherIgnoredByPolyGroup(d1, d2, lib.toFloat);
  }

  /**
   * Points are grouped by element kind, not by document position: a path
   * that follows a rectangle still comes first in the output.
   */
  lemma {:induction false} PathsBeforeRects<S>(rect: Element<S>, path: Element<S>, n: nat, lib: Foreign<S>)
    requires rect.Rect? && path.Path?
    ensures Extracted([rect, path], n, lib) == Ok(Contribution(path, Paths, n, lib) + Contribution(rect, Rects, n, lib))
  {
    assert [rect, path] == [rect] + [path];
    forall kind: Kind
      ensures Group([rect, path], kind, n, lib) == Contribution(rect, kind, n, lib) + Contribution(path, kind, n, lib)
    {
      GroupAppend([rect], [path], kind, n, lib);
      GroupSingle(rect, kind, n, lib);
      GroupSingle(path, kind, n, lib);
    }
    var f := PolyOf<S>(lib.toFloat);
    CollectAppend([rect], [path], f);
    CollectSingle(rect, f);
    CollectSingle(path, f);
    assert f(rect) == Ok([]) && f(path) == Ok([]);
    ghost var ps, rs := Contribution(path, Paths, n, lib), Contribution(rect, Rects, n, lib);
    assert [] + ps == ps && rs + [] == rs && ps + rs + [] + [] == ps + rs;
  }

  /**
   * A `<circle>` (radius `r` only) contributes `n` points, each at distance
   * `|r|` from its centre when cosine and sine lie on the unit circle.
   */
  lemma CirclePoints<S>(cx: real, cy: real, r: real, n: nat, lib: Foreign<S>)
    requires forall a :: lib.trig.cos(a) * lib.trig.cos(a) + lib.trig.sin(a) * lib.trig.sin(a) == 1.0
    ensures var ps := Contribution(Ellipse(Some(cx), Some(cy), Some(r), None, None), Ellipses, n, lib);
      |ps| == n && forall k :: 0 <= k < n ==> AtDistance(ps[k], cx, cy, r) && OnEllipse(ps[k], cx, cy, r, r)
  {
    EllipsePointsOnCurve(cx, cy, r, r, n, lib.trig);
  }

  /** A `<rect>` without attributes reads each of them as 0: all five outline points are the origin. */
  lemma MissingRectAttributes<S>(n: nat, lib: Foreign<S>)
    ensures var ps := Contribution(Rect(None, None, None, None), Rects, n, lib);
      |ps| == 5 && forall k :: 0 <= k < 5 ==> ps[k] == Point(0.0, 0.0)
  {
    var ps := Contribution(Rect(None, None, None, None), Rects, n, lib);
    assert ps == RectOutline(0.0, 0.0, 0.0, 0.0);
  }
}
