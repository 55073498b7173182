/** The lightbox's pan and zoom: one image in one viewport, every event a step on scale and pan. */
module Lightbox {
  import opened Text

  const MIN_SCALE := 0.1
  const MAX_SCALE := 8.0

  type Length = x: real | 0.0 <= x witness 0.0

  datatype Size = Size(w: Length, h: Length)

  datatype Point = Point(x: real, y: real)

  const ORIGIN := Point(0.0, 0.0)

  function Min(a: real, b: real): real { if a < b then a else b }

  function Max(a: real, b: real): real { if a < b then b else a }

  function Clamp(v: real, lo: real, hi: real): real { Min(hi, Max(lo, v)) }

  predicate IsPositive(s: Size) { s.w > 0.0 && s.h > 0.0 }

  function FitScale(natural: Size, box: Size): real {
    if !IsPositive(natural) || !IsPositive(box) then 1.0
    else Min(1.0, Min(box.w / natural.w, box.h / natural.h))
  }

  function Overflow(natural: real, box: real, scale: real): real { Max(0.0, (natural * scale - box) / 2.0) }

  function ClampPan(natural: Size, box: Size, p: Point, scale: real): Point {
    var ox, oy := Overflow(natural.w, box.w, scale), Overflow(natural.h, box.h, scale);
    Point(Clamp(p.x, -ox, ox), Clamp(p.y, -oy, oy))
  }

  datatype Drag = Drag(pointer: int, at: Point, from: Point)

  datatype View = View(natural: Size, box: Size, scale: real, pan: Point, loaded: bool, drag: Option<Drag>)

  const OPENED := View(Size(0.0, 0.0), Size(0.0, 0.0), 1.0, ORIGIN, false, None)

  function Fit(v: View): real { FitScale(v.natural, v.box) }

  function NextScale(v: View, raw: real): real { Clamp(raw, Min(MIN_SCALE, Fit(v)), MAX_SCALE) }

  // Where the pan would go to keep the image point under the cursor, before clamping.
  function PanAbout(pan: Point, u: Point, ratio: real): Point {
    Point(u.x - ratio * (u.x - pan.x), u.y - ratio * (u.y - pan.y))
  }

  // u is the cursor's offset from the viewport centre; None for a zoom from the keyboard.
  function Zoomed(v: View, raw: real, u: Option<Point>): View
    requires v.scale > 0.0
  {
    var next := NextScale(v, raw);
    if next == v.scale then v
    else
      var target := if u.Some? then PanAbout(v.pan, u.value, next / v.scale) else v.pan;
      v.(scale := next, pan := ClampPan(v.natural, v.box, target, next))
  }

  function Refitted(v: View): View { v.(scale := Fit(v), pan := ORIGIN) }

  // The fitting effect: only once loaded, and never against a box without width.
  function Effect(v: View): View { if v.loaded && v.box.w != 0.0 then Refitted(v) else v }

  predicate CanPan(v: View) {
    v.natural.w * v.scale > v.box.w + 1.0 || v.natural.h * v.scale > v.box.h + 1.0
  }

  datatype Event =
    | Zoom(raw: real, cursor: Option<Point>)
    | ResetToFit
    | DoubleClick(u: Point)
    | PointerDown(pointer: int, at: Point)
    | PointerMove(pointer: int, at: Point)
    | PointerUp(pointer: int)
    | PointerCancel
    | Resize(box: Size)
    | NewCapture
    | Load(natural: Size)

  function Step(v: View, e: Event): View
    requires v.scale > 0.0
  {
    match e
    case Zoom(raw, cursor) => Zoomed(v, raw, cursor)
    case ResetToFit => Refitted(v)
    case DoubleClick(u) => if -0.001 < v.scale - Fit(v) < 0.001 then Zoomed(v, 1.0, Some(u)) else Refitted(v)
    case PointerDown(pointer, at) => if CanPan(v) then v.(drag := Some(Drag(pointer, at, v.pan))) else v
    case PointerMove(pointer, at) =>
      if v.drag.Some? && v.drag.value.pointer == pointer then
        var d := v.drag.value;
        v.(pan := ClampPan(v.natural, v.box, Point(d.from.x + (at.x - d.at.x), d.from.y + (at.y - d.at.y)), v.scale))
      else v
    case PointerUp(pointer) => if v.drag.Some? && v.drag.value.pointer == pointer then v.(drag := None) else v
    case PointerCancel => v.(drag := None)
    case Resize(box) => if box == v.box then v else Effect(v.(box := box))
    case NewCapture => v.(loaded := false, natural := Size(0.0, 0.0), pan := ORIGIN)
    case Load(natural) => Effect(v.(natural := natural, loaded := true))
  }

  class Viewer {
    var view: View

    constructor ()
      ensures view == View(Size(0.0, 0.0), Size(0.0, 0.0), 1.0, Point(0.0, 0.0), false, None)
    {
      view := OPENED;
    }

    method ZoomAbout(raw: real, u: Option<Point>)
      requires view.scale > 0.0
      modifies this
      ensures view == Zoomed(old(view), raw, u)
    {
      var next := Clamp(raw, Min(MIN_SCALE, Fit(view)), MAX_SCALE);
      var prev := view.scale;
      if next == prev {
        return;
      }
      if u.Some? {
        var ratio := next / prev;
        view := view.(pan := ClampPan(view.natural, view.box, PanAbout(view.pan, u.value, ratio), next));
      } else {
        view := view.(pan := ClampPan(view.natural, view.box, view.pan, next));
      }
      view := view.(scale := next);
    }

    method Reset()
      modifies this
      ensures view == Refitted(old(view))
    {
      view := view.(scale := FitScale(view.natural, view.box), pan := ORIGIN);
    }

    method Handle(e: Event)
      requires view.scale > 0.0
      modifies this
      ensures view == Step(old(view), e)
    {
      match e {
        case Zoom(raw, u) => ZoomAbout(raw, u);
        case ResetToFit => Reset();
        case DoubleClick(u) =>
          if -0.001 < view.scale - Fit(view) < 0.001 { ZoomAbout(1.0, Some(u)); } else { Reset(); }
        case PointerDown(pointer, at) =>
          if CanPan(view) { view := view.(drag := Some(Drag(pointer, at, view.pan))); }
        case PointerMove(pointer, at) =>
          if view.drag.Some? && view.drag.value.pointer == pointer {
            var d := view.drag.value;
            var target := Point(d.from.x + (at.x - d.at.x), d.from.y + (at.y - d.at.y));
            view := view.(pan := ClampPan(view.natural, view.box, target, view.scale));
          }
        case PointerUp(pointer) =>
          if view.drag.Some? && view.drag.value.pointer == pointer { view := view.(drag := None); }
        case PointerCancel => view := view.(drag := None);
        case Resize(box) =>
          if box != view.box {
            view := view.(box := box);
            if view.loaded && view.box.w != 0.0 { Reset(); }
          }
        case NewCapture => view := view.(loaded := false, natural := Size(0.0, 0.0), pan := ORIGIN);
        case Load(natural) =>
          view := view.(natural := natural, loaded := true);
          if view.box.w != 0.0 { Reset(); }
      }
    }
  }

  // ----- what every run keeps -----------------------------------------------------------------

  predicate AxisWithin(natural: real, box: real, scale: real, pan: real) {
    -Overflow(natural, box, scale) <= pan <= Overflow(natural, box, scale)
  }

  predicate PanWithin(natural: Size, box: Size, scale: real, pan: Point) {
    AxisWithin(natural.w, box.w, scale, pan.x) && AxisWithin(natural.h, box.h, scale, pan.y)
  }

  predicate ScaleWithin(v: View) { Min(MIN_SCALE, Fit(v)) <= v.scale <= MAX_SCALE }

  // Within bounds: on a loaded capture, the zoom range and the image's edges.
  predicate IsWithin(v: View) { v.loaded ==> ScaleWithin(v) && PanWithin(v.natural, v.box, v.scale, v.pan) }

  predicate Inv(v: View) {
    && 0.0 < v.scale <= MAX_SCALE
    && (v.box.w > 0.0 ==> IsWithin(v))
    && (!v.loaded ==> v.natural == Size(0.0, 0.0) && v.pan == ORIGIN)
  }

  lemma FitIsPositive(natural: Size, box: Size)
    ensures 0.0 < FitScale(natural, box) <= 1.0
  {
    if IsPositive(natural) && IsPositive(box) {
      assert box.w / natural.w > 0.0 && box.h / natural.h > 0.0;
    }
  }

  lemma ClampPanWithin(natural: Size, box: Size, p: Point, scale: real)
    ensures PanWithin(natural, box, scale, ClampPan(natural, box, p, scale))
  {
    hide Overflow;
    OverflowIsNonNegative(natural.w, box.w, scale);
    OverflowIsNonNegative(natural.h, box.h, scale);
  }

  lemma OverflowIsNonNegative(natural: real, box: real, scale: real)
    ensures Overflow(natural, box, scale) >= 0.0
  {}

  lemma OriginWithin(natural: Size, box: Size, scale: real)
    ensures PanWithin(natural, box, scale, ORIGIN)
  {
    hide Overflow;
    OverflowIsNonNegative(natural.w, box.w, scale);
    OverflowIsNonNegative(natural.h, box.h, scale);
  }

  lemma NothingToPan(box: Size, p: Point, scale: real)
    ensures ClampPan(Size(0.0, 0.0), box, p, scale) == ORIGIN
  {}

  // Zooming leaves a view within bounds if it was, in any box.
  lemma ZoomStaysWithin(v: View, raw: real, u: Option<Point>)
    requires v.scale > 0.0 && IsWithin(v)
    ensures IsWithin(Zoomed(v, raw, u))
  {
    hide ClampPan, PanWithin, PanAbout, FitScale;
    FitIsPositive(v.natural, v.box);
    var next := NextScale(v, raw);
    if next != v.scale {
      var target := if u.Some? then PanAbout(v.pan, u.value, next / v.scale) else v.pan;
      ClampPanWithin(v.natural, v.box, target, next);
    }
  }

  lemma RefitIsWithin(v: View)
    ensures IsWithin(Refitted(v)) && 0.0 < Refitted(v).scale <= 1.0
  {
    hide PanWithin, FitScale;
    FitIsPositive(v.natural, v.box);
    OriginWithin(v.natural, v.box, Fit(v));
  }

  lemma ZoomKeepsInv(v: View, raw: real, u: Option<Point>)
    requires Inv(v)
    ensures Inv(Zoomed(v, raw, u))
  {
    hide ClampPan, PanWithin, PanAbout, FitScale, IsWithin;
    FitIsPositive(v.natural, v.box);
    if v.box.w > 0.0 { ZoomStaysWithin(v, raw, u); }
    var next := NextScale(v, raw);
    if !v.loaded && next != v.scale {
      NothingToPan(v.box, if u.Some? then PanAbout(v.pan, u.value, next / v.scale) else v.pan, next);
    }
  }

  lemma MoveKeepsPan(v: View, pointer: int, at: Point)
    requires v.scale > 0.0
    ensures var v' := Step(v, PointerMove(pointer, at));
            && v' == v.(pan := v'.pan)
            && (PanWithin(v.natural, v.box, v.scale, v.pan) ==> PanWithin(v.natural, v.box, v.scale, v'.pan))
            && (v.natural == Size(0.0, 0.0) && v.pan == ORIGIN ==> v'.pan == ORIGIN)
  {
    hide ClampPan, PanWithin;
    if v.drag.Some? {
      var d := v.drag.value;
      var target := Point(d.from.x + (at.x - d.at.x), d.from.y + (at.y - d.at.y));
      ClampPanWithin(v.natural, v.box, target, v.scale);
      NothingToPan(v.box, target, v.scale);
    }
  }

  lemma StepKeepsInv(v: View, e: Event)
    requires Inv(v)
    ensures Inv(Step(v, e))
  {
    hide ClampPan, PanWithin, FitScale, Zoomed;
    match e {
      case Zoom(raw, u) => ZoomKeepsInv(v, raw, u);
      case ResetToFit => RefitIsWithin(v);
      case DoubleClick(u) => ZoomKeepsInv(v, 1.0, Some(u)); RefitIsWithin(v);
      case PointerMove(pointer, at) => MoveKeepsPan(v, pointer, at);
      case Resize(box) => RefitIsWithin(v.(box := box));
      case Load(natural) => RefitIsWithin(v.(natural := natural, loaded := true));
      case _ =>
    }
  }

  function Run(v: View, es: seq<Event>): View
    requires Inv(v)
    ensures Inv(Run(v, es))
  {
    if es == [] then v
    else
      var before := Run(v, es[..|es| - 1]);
      StepKeepsInv(before, es[|es| - 1]);
      Step(before, es[|es| - 1])
  }

  // What a caller can check: a box that keeps its width is refitted. One that loses it, or an image that loads in one
  // without, needs the scale it finds to be allowed there, and the pan to stay inside the edges that moved.
  predicate IsSafe(v: View, e: Event) {
    match e
    case Resize(box) =>
      box == v.box || !v.loaded || box.w > 0.0
      || (v.scale >= MIN_SCALE && AxisWithin(v.natural.h, box.h, v.scale, v.pan.y))
    case Load(natural) =>
      v.box.w > 0.0
      || (v.scale >= MIN_SCALE && (v.loaded ==> PanWithin(natural, v.box, v.scale, v.pan)))
    case _ => true
  }

  lemma CollapsedFit(natural: Size, box: Size)
    requires box.w == 0.0
    ensures FitScale(natural, box) == 1.0
  {}

  // Taking the width away only widens the horizontal overflow.
  lemma WidthGone(natural: Length, box: Length, scale: real, pan: real)
    requires scale > 0.0 && AxisWithin(natural, box, scale, pan)
    ensures AxisWithin(natural, 0.0, scale, pan)
  {
    assert natural * scale >= 0.0;
  }

  lemma ResizeIsWithinIffSafe(v: View, box: Size)
    requires Inv(v) && IsWithin(v)
    ensures IsWithin(Step(v, Resize(box))) <==> IsSafe(v, Resize(box))
  {
    if box != v.box && v.loaded {
      if box.w > 0.0 {
        RefitIsWithin(v.(box := box));
      } else {
        CollapsedFit(v.natural, box);
        WidthGone(v.natural.w, v.box.w, v.scale, v.pan.x);
      }
    }
  }

  lemma LoadIsWithinIffSafe(v: View, natural: Size)
    requires Inv(v)
    ensures IsWithin(Step(v, Load(natural))) <==> IsSafe(v, Load(natural))
  {
    hide PanWithin;
    if v.box.w > 0.0 {
      RefitIsWithin(v.(natural := natural, loaded := true));
    } else {
      CollapsedFit(natural, v.box);
      OriginWithin(natural, v.box, v.scale);
    }
  }

  /** An event takes a view out of bounds exactly when it is a resize or a load that is not safe. */
  lemma StepIsWithinIffSafe(v: View, e: Event)
    requires Inv(v) && IsWithin(v)
    ensures IsWithin(Step(v, e)) <==> IsSafe(v, e)
  {
    hide ClampPan, PanWithin, FitScale, Zoomed;
    match e {
      case Zoom(raw, u) => ZoomStaysWithin(v, raw, u);
      case ResetToFit => RefitIsWithin(v);
      case DoubleClick(u) => ZoomStaysWithin(v, 1.0, Some(u)); RefitIsWithin(v);
      case PointerMove(pointer, at) => MoveKeepsPan(v, pointer, at);
      case Resize(box) => ResizeIsWithinIffSafe(v, box);
      case Load(natural) => LoadIsWithinIffSafe(v, natural);
      case _ =>
    }
  }

  ghost predicate IsAlwaysWithin(es: seq<Event>) { forall k :: 0 <= k <= |es| ==> IsWithin(Run(OPENED, es[..k])) }

  ghost predicate IsAlwaysSafe(es: seq<Event>) { forall k :: 0 <= k < |es| ==> IsSafe(Run(OPENED, es[..k]), es[k]) }

  lemma AlwaysWithinStep(front: seq<Event>, e: Event)
    ensures IsAlwaysWithin(front + [e]) <==> IsAlwaysWithin(front) && IsWithin(Run(OPENED, front + [e]))
  {
    hide IsWithin, Run;
    var es := front + [e];
    assert es[..|es|] == es;
    forall k | 0 <= k <= |front| ensures front[..k] == es[..k] {}
  }

  lemma AlwaysSafeStep(front: seq<Event>, e: Event)
    ensures IsAlwaysSafe(front + [e]) <==> IsAlwaysSafe(front) && IsSafe(Run(OPENED, front), e)
  {
    hide IsSafe, Run;
    var es := front + [e];
    assert es[..|front|] == front;
    forall k | 0 <= k <= |front| ensures front[..k] == es[..k] {}
  }

  lemma RunStep(v: View, front: seq<Event>, e: Event)
    requires Inv(v)
    ensures Run(v, front + [e]) == Step(Run(v, front), e)
  {
    assert (front + [e])[..|front|] == front;
  }

  /** A box with width is always within bounds. A whole run is within bounds throughout exactly when it meets
      no unsafe resize or load. */
  lemma {:induction false} RunsStayWithin(es: seq<Event>)
    ensures Run(OPENED, es).box.w > 0.0 ==> IsWithin(Run(OPENED, es))
    ensures IsAlwaysWithin(es) <==> IsAlwaysSafe(es)
  {
    hide IsWithin, IsSafe, Step, IsAlwaysWithin, IsAlwaysSafe, Run;
    WidthMeansWithin(es);
    if es == [] {
      NothingYet();
    } else {
      var front, e := es[..|es| - 1], es[|es| - 1];
      RunsStayWithin(front);
      assert es == front + [e];
      RunStep(OPENED, front, e);
      AlwaysWithinStep(front, e);
      AlwaysSafeStep(front, e);
      LastIsWithin(front);
      if IsWithin(Run(OPENED, front)) { StepIsWithinIffSafe(Run(OPENED, front), e); }
    }
  }

  lemma NothingYet()
    ensures IsAlwaysWithin([]) && IsAlwaysSafe([])
  {
    var es: seq<Event> := [];
    forall k | 0 <= k <= |es| ensures IsWithin(Run(OPENED, es[..k])) { assert es[..k] == []; }
  }

  lemma WidthMeansWithin(es: seq<Event>)
    ensures Run(OPENED, es).box.w > 0.0 ==> IsWithin(Run(OPENED, es))
  {}

  lemma LastIsWithin(es: seq<Event>)
    ensures IsAlwaysWithin(es) ==> IsWithin(Run(OPENED, es))
  {
    assert es[..|es|] == es;
  }

  lemma RunNothing(v: View)
    requires Inv(v)
    ensures Run(v, []) == v
  {}

  lemma RunThree(v: View, a: Event, b: Event, c: Event)
    requires Inv(v)
    ensures Inv(Step(v, a)) && Inv(Step(Step(v, a), b))
    ensures Run(v, [a, b, c]) == Step(Step(Step(v, a), b), c)
  {
    hide Step, Run, IsWithin;
    StepKeepsInv(v, a);
    StepKeepsInv(Step(v, a), b);
    assert Run(v, []) == v by { RunNothing(v); }
    RunStep(v, [], a);
    RunStep(v, [a], b);
    RunStep(v, [a, b], c);
    assert [] + [a] == [a] && [a] + [b] == [a, b] && [a, b] + [c] == [a, b, c];
  }

  /** Both bounds can be lost: a collapsed box keeps a scale below its range, ... */
  lemma CollapsedBoxEscapes()
    ensures var v := Run(OPENED, [Resize(Size(100.0, 100.0)), Load(Size(10000.0, 100.0)), Resize(Size(0.0, 100.0))]);
            v.loaded && v.scale == 0.01 && !ScaleWithin(v)
  {
    RunThree(OPENED, Resize(Size(100.0, 100.0)), Load(Size(10000.0, 100.0)), Resize(Size(0.0, 100.0)));
    assert FitScale(Size(10000.0, 100.0), Size(100.0, 100.0)) == 0.01;
  }

  /** ... and one that also grows taller keeps a pan outside its new edges. */
  lemma CollapsedBoxLosesEdges()
    ensures var v := Run(OPENED, [Resize(Size(100.0, 100.0)), Load(Size(1000.0, 1000.0)),
                                  Zoom(1.0, Some(Point(0.0, -500.0)))]);
            && v == View(Size(1000.0, 1000.0), Size(100.0, 100.0), 1.0, Point(0.0, 450.0), true, None)
            && IsWithin(v)
            && ScaleWithin(Step(v, Resize(Size(0.0, 900.0)))) && !IsWithin(Step(v, Resize(Size(0.0, 900.0))))
  {
    RunThree(OPENED, Resize(Size(100.0, 100.0)), Load(Size(1000.0, 1000.0)), Zoom(1.0, Some(Point(0.0, -500.0))));
    assert FitScale(Size(1000.0, 1000.0), Size(100.0, 100.0)) == 0.1;
    var fitted := View(Size(1000.0, 1000.0), Size(100.0, 100.0), 0.1, ORIGIN, true, None);
    assert Step(Step(OPENED, Resize(Size(100.0, 100.0))), Load(Size(1000.0, 1000.0))) == fitted;
    assert NextScale(fitted, 1.0) == 1.0;
    assert 1.0 / 0.1 == 10.0;
    assert PanAbout(ORIGIN, Point(0.0, -500.0), 10.0) == Point(0.0, 4500.0);
  }

  // ----- what the bounds mean ------------------------------------------------------------------

  // One axis, measured from the viewport's centre: the image's edges are at pan -/+ half its size.
  predicate Covers(natural: real, box: real, scale: real, pan: real) {
    pan - natural * scale / 2.0 <= -box / 2.0 && box / 2.0 <= pan + natural * scale / 2.0
  }

  /** Within bounds means: an image larger than the box covers it edge to edge, a smaller one sits at its centre. */
  lemma WithinMeansCoveredOrCentred(natural: real, box: real, scale: real, pan: real)
    ensures AxisWithin(natural, box, scale, pan) <==>
            if natural * scale >= box then Covers(natural, box, scale, pan) else pan == 0.0
  {}

  /** Clamping moves nothing that is within bounds, and moves the rest no further than it must. */
  lemma ClampIsNearest(natural: Size, box: Size, scale: real, p: Point, q: Point)
    requires PanWithin(natural, box, scale, q)
    ensures var c := ClampPan(natural, box, p, scale);
            && Distance(p.x, c.x) <= Distance(p.x, q.x) && Distance(p.y, c.y) <= Distance(p.y, q.y)
            && (c == p <==> PanWithin(natural, box, scale, p))
  {
    hide Overflow;
    OverflowIsNonNegative(natural.w, box.w, scale);
    OverflowIsNonNegative(natural.h, box.h, scale);
  }

  function Distance(a: real, b: real): real { if a < b then b - a else a - b }

  lemma ScaledFits(n: real, b: real, s: real)
    requires n > 0.0
    ensures n * s <= b <==> s <= b / n
  {
    assert n * (b / n) == b;
    if s <= b / n {
      Monotone(n, s, b / n);
    } else {
      StrictlyMonotone(n, b / n, s);
    }
  }

  lemma Monotone(n: real, s: real, t: real)
    requires n > 0.0 && s <= t
    ensures n * s <= n * t
  {}

  lemma StrictlyMonotone(n: real, s: real, t: real)
    requires n > 0.0 && s < t
    ensures n * s < n * t
  {}

  /** The fit is the largest scale up to 1 that shows the whole image, and 1 when the image or the box has no area. */
  lemma FitIsLargest(natural: Size, box: Size, s: real)
    ensures var empty := natural.w == 0.0 || natural.h == 0.0 || box.w == 0.0 || box.h == 0.0;
            if empty then FitScale(natural, box) == 1.0
            else s <= FitScale(natural, box) <==> s <= 1.0 && natural.w * s <= box.w && natural.h * s <= box.h
  {
    if natural.w > 0.0 && natural.h > 0.0 {
      ScaledFits(natural.w, box.w, s);
      ScaledFits(natural.h, box.h, s);
    }
  }

  /** At the fit scale the pan is zero, whenever there is an image and a box to fit. */
  lemma PanIsZeroAtFit(v: View)
    requires Inv(v) && v.loaded && IsPositive(v.natural) && IsPositive(v.box) && v.scale == Fit(v)
    ensures v.pan == ORIGIN
  {
    FitIsLargest(v.natural, v.box, v.scale);
  }

  // ----- dragging ------------------------------------------------------------------------------

  function Moved(v: View, pointer: int, path: seq<Point>): View
    requires v.scale > 0.0
    ensures Moved(v, pointer, path).scale > 0.0
  {
    if path == [] then v else Step(Moved(v, pointer, path[..|path| - 1]), PointerMove(pointer, path[|path| - 1]))
  }

  lemma {:induction false} MovesOnlyPan(v: View, pointer: int, path: seq<Point>)
    requires v.scale > 0.0
    ensures Moved(v, pointer, path) == v.(pan := Moved(v, pointer, path).pan)
  {
    if path != [] { MovesOnlyPan(v, pointer, path[..|path| - 1]); }
  }

  /** A drag depends on where it started and where it is now, not on the path:
      running past the edge and coming back loses nothing. */
  lemma DragIgnoresPath(v: View, pointer: int, from: Point, path: seq<Point>, to: Point)
    requires v.scale > 0.0 && CanPan(v)
    ensures var down := Step(v, PointerDown(pointer, from));
            Moved(down, pointer, path + [to]).pan ==
            ClampPan(v.natural, v.box, Point(v.pan.x + (to.x - from.x), v.pan.y + (to.y - from.y)), v.scale)
  {
    var down := Step(v, PointerDown(pointer, from));
    assert (path + [to])[..|path|] == path;
    MovesOnlyPan(down, pointer, path);
  }

  // ----- the point under the cursor ----------------------------------------------------------------

  // The image point, in image pixels from its centre, that shows at offset u.
  function ImagePoint(u: Point, pan: Point, scale: real): Point
    requires scale > 0.0
  {
    Point((u.x - pan.x) / scale, (u.y - pan.y) / scale)
  }

  lemma RatioCancels(d: real, prev: real, next: real)
    requires prev > 0.0 && next > 0.0
    ensures next / prev * d / next == d / prev
  {
    var r := next / prev;
    assert r * prev == next;
    var q := d / prev;
    assert q * prev == d;
    assert r * d == q * next by {
      assert r * (q * prev) == q * (r * prev);
    }
    assert q * next / next == q;
  }

  lemma AboutKeepsImagePoint(pan: Point, u: Point, prev: real, next: real)
    requires prev > 0.0 && next > 0.0
    ensures ImagePoint(u, PanAbout(pan, u, next / prev), next) == ImagePoint(u, pan, prev)
  {
    RatioCancels(u.x - pan.x, prev, next);
    RatioCancels(u.y - pan.y, prev, next);
  }

  lemma ImagePointDecidesPan(u: Point, p: Point, q: Point, scale: real)
    requires scale > 0.0
    ensures ImagePoint(u, p, scale) == ImagePoint(u, q, scale) <==> p == q
  {
    QuotientsEqual(u.x - p.x, u.x - q.x, scale);
    QuotientsEqual(u.y - p.y, u.y - q.y, scale);
  }

  lemma QuotientsEqual(a: real, b: real, s: real)
    requires s > 0.0
    ensures a / s == b / s <==> a == b
  {
    assert a / s * s == a && b / s * s == b;
  }

  /** A zoom leaves the image point under the cursor fixed exactly when the pan it asks for needs no clamping. */
  lemma ZoomFixesCursorPoint(v: View, raw: real, u: Point)
    requires v.scale > 0.0 && NextScale(v, raw) != v.scale
    ensures var v' := Zoomed(v, raw, Some(u));
            var target := PanAbout(v.pan, u, v'.scale / v.scale);
            v'.scale > 0.0 &&
            (ImagePoint(u, v'.pan, v'.scale) == ImagePoint(u, v.pan, v.scale) <==>
             PanWithin(v.natural, v.box, v'.scale, target))
  {
    FitIsPositive(v.natural, v.box);
    var v' := Zoomed(v, raw, Some(u));
    var target := PanAbout(v.pan, u, v'.scale / v.scale);
    AboutKeepsImagePoint(v.pan, u, v.scale, v'.scale);
    ImagePointDecidesPan(u, v'.pan, target, v'.scale);
    hide PanAbout, FitScale, Overflow, ImagePoint;
    OriginWithin(v.natural, v.box, v'.scale);
    ClampIsNearest(v.natural, v.box, v'.scale, target, ORIGIN);
  }

  /** Zooming and zooming back about the same cursor restores the view, if the first zoom was not clamped. */
  lemma ZoomBackRestores(v: View, raw: real, u: Point)
    requires v.scale > 0.0 && ScaleWithin(v) && PanWithin(v.natural, v.box, v.scale, v.pan)
    requires PanWithin(v.natural, v.box, NextScale(v, raw), PanAbout(v.pan, u, NextScale(v, raw) / v.scale))
    ensures var v' := Zoomed(v, raw, Some(u));
            v'.scale > 0.0 && Zoomed(v', v.scale, Some(u)) == v
  {
    FitIsPositive(v.natural, v.box);
    var prev, next := v.scale, NextScale(v, raw);
    if next != prev {
      var target := PanAbout(v.pan, u, next / prev);
      AboutRoundTrip(v.pan, u, prev, next);
      hide PanAbout, FitScale, Overflow;
      ClampIsNearest(v.natural, v.box, next, target, target);
      ClampIsNearest(v.natural, v.box, prev, v.pan, v.pan);
    }
  }

  lemma AboutRoundTrip(pan: Point, u: Point, prev: real, next: real)
    requires prev > 0.0 && next > 0.0
    ensures PanAbout(PanAbout(pan, u, next / prev), u, prev / next) == pan
  {
    RatioUndone(u.x - pan.x, prev, next);
    RatioUndone(u.y - pan.y, prev, next);
  }

  lemma RatioUndone(d: real, prev: real, next: real)
    requires prev > 0.0 && next > 0.0
    ensures prev / next * (next / prev * d) == d
  {
    RatioCancels(d, prev, next);
    RatioCancels(next / prev * d, next, prev);
    QuotientsEqual(prev / next * (next / prev * d), d, prev);
  }

  // ----- what the single events do -----------------------------------------------------------------

  /** A zoom reaches the scale asked for if it is between the fit, or 0.1 if that is less, and 8,
      and else the nearest scale that is. */
  lemma ZoomIsNearest(v: View, raw: real, u: Option<Point>, t: real)
    requires v.scale > 0.0
    requires (0.1 <= t || Fit(v) <= t) && t <= 8.0
    ensures var scale := Step(v, Zoom(raw, u)).scale;
            (0.1 <= scale || Fit(v) <= scale) && scale <= 8.0 && Distance(raw, scale) <= Distance(raw, t)
  {
    hide ClampPan, PanAbout, FitScale;
    FitIsPositive(v.natural, v.box);
  }

  /** A zoom from the keyboard leaves the pan where it is, or as near as the new edges allow. */
  lemma KeyboardZoomKeepsPan(v: View, raw: real, q: Point)
    requires v.scale > 0.0 && NextScale(v, raw) != v.scale
    requires PanWithin(v.natural, v.box, NextScale(v, raw), q)
    ensures var v' := Step(v, Zoom(raw, None));
            && Distance(v.pan.x, v'.pan.x) <= Distance(v.pan.x, q.x)
            && Distance(v.pan.y, v'.pan.y) <= Distance(v.pan.y, q.y)
            && PanWithin(v.natural, v.box, v'.scale, v'.pan)
            && (v'.pan == v.pan <==> PanWithin(v.natural, v.box, v'.scale, v.pan))
  {
    hide ClampPan, PanWithin, FitScale;
    ClampIsNearest(v.natural, v.box, NextScale(v, raw), v.pan, q);
    ClampPanWithin(v.natural, v.box, v.pan, NextScale(v, raw));
  }

  /** A double click shows the image in full size when it is within a thousandth of its fit, and else fits it. */
  lemma DoubleClickToggles(v: View, u: Point)
    requires v.scale > 0.0
    ensures var v' := Step(v, DoubleClick(u));
            if Distance(v.scale, Fit(v)) < 0.001 then v'.scale == 1.0 else v' == v.(scale := Fit(v), pan := ORIGIN)
  {
    hide ClampPan, PanAbout, FitScale;
    FitIsPositive(v.natural, v.box);
  }

  /** On a fitted image that is shown smaller, two double clicks are undone by each other, wherever they fall. */
  lemma DoubleClickTwice(v: View, u: Point, u': Point)
    requires Inv(v) && v.loaded && IsPositive(v.natural) && IsPositive(v.box)
    requires v.scale == Fit(v) && Fit(v) <= 0.999
    ensures var once := Step(v, DoubleClick(u));
            once.scale == 1.0 && Step(once, DoubleClick(u')) == v
  {
    PanIsZeroAtFit(v);
    hide ClampPan, PanAbout, FitScale, IsWithin;
    DoubleClickToggles(v, u);
    DoubleClickToggles(Step(v, DoubleClick(u)), u');
  }

  /** A press takes hold exactly when the image overflows the box by more than a pixel on some axis. */
  lemma PressTakesHold(v: View, pointer: int, at: Point)
    requires v.scale > 0.0 && v.drag == None
    ensures Step(v, PointerDown(pointer, at)).drag.Some? <==>
            Overflow(v.natural.w, v.box.w, v.scale) > 0.5 || Overflow(v.natural.h, v.box.h, v.scale) > 0.5
  {}

  /** The pointer that holds the image lets go when it is released, and only that one does; then no move pans. */
  lemma ReleaseLetsGo(v: View, pointer: int, other: int, at: Point)
    requires v.scale > 0.0 && v.drag.Some? && v.drag.value.pointer == pointer
    ensures var up := Step(v, PointerUp(pointer));
            up == v.(drag := None) && Step(up, PointerMove(other, at)) == up
    ensures other != pointer ==> Step(v, PointerUp(other)) == v && Step(v, PointerMove(other, at)) == v
    ensures var off := Step(v, PointerCancel);
            off == v.(drag := None) && Step(off, PointerMove(other, at)) == off
  {}

  /** A capture that loads, and a box with width that changes around a loaded one, show the whole image at its fit. */
  lemma LoadAndResizeFit(v: View, natural: Size, box: Size)
    requires v.scale > 0.0 && box.w > 0.0
    ensures v.box.w > 0.0 ==>
              Step(v, Load(natural)) ==
              v.(natural := natural, loaded := true, scale := FitScale(natural, v.box), pan := ORIGIN)
    ensures v.loaded && box != v.box ==>
              Step(v, Resize(box)) == v.(box := box, scale := FitScale(v.natural, box), pan := ORIGIN)
    ensures Step(v, NewCapture).pan == ORIGIN && !Step(v, NewCapture).loaded
  {}
}
