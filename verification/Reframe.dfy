/** The reframe geometry of an image slot (design/image-slot.js, `clampS`, `_geom`,
  `_clampView` and the pan, resize and wheel handlers), over real numbers. */
module Reframe {

  const S_MAX := 5.0

  function Min(a: real, b: real): real {
    if a < b then a else b
  }

  function Max(a: real, b: real): real {
    if a > b then a else b
  }

  function ClampS(s: real): real {
    Max(1.0, Min(S_MAX, s))
  }

  /** Natural image size and frame size. */
  datatype Frame = Frame(iw: real, ih: real, fw: real, fh: real, contain: bool) {
    predicate Valid() {
      iw > 0.0 && ih > 0.0 && fw > 0.0 && fh > 0.0
    }

    /** The scale at view scale 1: fill the frame, or fit inside it. */
    function Base(): real
      requires Valid()
    {
      if contain then Min(fw / iw, fh / ih) else Max(fw / iw, fh / ih)
    }
  }

  /** Scale, and offsets of the image's centre in percent of the frame. */
  datatype View = View(s: real, x: real, y: real)

  function Times(a: real, b: real): real {
    a * b
  }

  /** Image size in pixels of a frame. */
  function Width(f: Frame, s: real): real
    requires f.Valid()
  {
    Times(Times(f.iw, f.Base()), s)
  }

  function Height(f: Frame, s: real): real
    requires f.Valid()
  {
    Times(Times(f.ih, f.Base()), s)
  }

  /** How far the centre may move along an axis of image length `len` in a frame of `size`. */
  function Range(len: real, size: real): (r: real)
    requires size > 0.0
    ensures r >= 0.0
  {
    Max(0.0, (len / size - 1.0) * 50.0)
  }

  function Clamp(f: Frame, v: View): View
    requires f.Valid()
  {
    var mx := Range(Width(f, v.s), f.fw);
    var my := Range(Height(f, v.s), f.fh);
    View(v.s, Max(-mx, Min(mx, v.x)), Max(-my, Min(my, v.y)))
  }

  /** Along one axis the image reaches over both edges of the frame. */
  predicate CoversAxis(len: real, size: real, offset: real)
    requires size > 0.0
  {
    var half := len / size * 50.0;
    50.0 + offset - half <= 0.0 && 50.0 + offset + half >= 100.0
  }

  predicate Covers(f: Frame, v: View)
    requires f.Valid()
  {
    CoversAxis(Width(f, v.s), f.fw, v.x) && CoversAxis(Height(f, v.s), f.fh, v.y)
  }

  // ---------------------------------------------------------------- the handlers

  /** A resize in progress: `sx`, `sy` name the corner, (ox, oy) the opposite one, (ux, uy) the
      unit vector from it, all in pixels of the frame as it is drawn. */
  datatype Drag =
    | NoDrag
    | Pan(px: real, py: real, x: real, y: real, fw: real, fh: real)
    | Resize(s0: real, ox: real, oy: real, ux: real, uy: real, diag0: real, fw: real, fh: real)

  /** Which way a corner points. */
  datatype Corner = Corner(east: bool, south: bool) {
    function SX(): real { if east then 1.0 else -1.0 }
    function SY(): real { if south then 1.0 else -1.0 }
  }

  function ToPixels(offset: real, size: real): real {
    (50.0 + offset) / 100.0 * size
  }

  function FromPixels(p: real, size: real): real
    requires size > 0.0
  {
    p / size * 100.0 - 50.0
  }

  function CentreX(f: Frame, v: View): real {
    ToPixels(v.x, f.fw)
  }

  function CentreY(f: Frame, v: View): real {
    ToPixels(v.y, f.fh)
  }

  /** The diagonal of a positive box; its square root is given, not computed. */
  predicate IsHypot(d: real, w: real, h: real) {
    d > 0.0 && d * d == w * w + h * h
  }

  /** A length with the sign of the direction it points in. */
  function Side(sign: real, len: real): real {
    sign * len
  }

  function Unit(side: real, d: real): real
    requires d > 0.0
  {
    side / d
  }

  function Dot(a: real, b: real, u: real, v: real): real {
    a * u + b * v
  }

  function StartResize(f: Frame, v: View, c: Corner, diag0: real): Drag
    requires f.Valid() && diag0 > 0.0
  {
    var w0, h0 := Width(f, v.s), Height(f, v.s);
    Resize(v.s, CentreX(f, v) - Side(c.SX(), w0) / 2.0, CentreY(f, v) - Side(c.SY(), h0) / 2.0,
           Unit(Side(c.SX(), w0), diag0), Unit(Side(c.SY(), h0), diag0), diag0, f.fw, f.fh)
  }

  function Projection(d: Drag, px: real, py: real): real
    requires d.Resize?
  {
    Dot(px - d.ox, py - d.oy, d.ux, d.uy)
  }

  function Scaled(s0: real, length: real, unit: real): real
    requires unit > 0.0
  {
    s0 * length / unit
  }

  /** Half the new diagonal, along one axis of its unit vector. */
  function Reach(u: real, diag0: real, s: real, s0: real): real
    requires s0 > 0.0
  {
    u * Scaled(diag0, s, s0) / 2.0
  }

  /** The scale a drag to (px, py) gives, measured along the diagonal. */
  function ResizeScale(d: Drag, px: real, py: real): real
    requires d.Resize? && d.diag0 > 0.0
  {
    ClampS(Scaled(d.s0, Projection(d, px, py), d.diag0))
  }

  /** A pointer move, before clamping. */
  function Moved(d: Drag, v: View, px: real, py: real): View
    requires d.Pan? ==> d.fw > 0.0 && d.fh > 0.0
    requires d.Resize? ==> d.fw > 0.0 && d.fh > 0.0 && d.diag0 > 0.0 && d.s0 > 0.0
  {
    match d
    case NoDrag => v
    case Pan(px0, py0, x, y, fw, fh) => View(v.s, x + (px - px0) / fw * 100.0, y + (py - py0) / fh * 100.0)
    case Resize(s0, ox, oy, ux, uy, diag0, fw, fh) =>
      var s := ResizeScale(d, px, py);
      View(s, FromPixels(ox + Reach(ux, diag0, s, s0), fw), FromPixels(oy + Reach(uy, diag0, s, s0), fh))
  }

  function ZoomScale(s: real, factor: real): real {
    ClampS(Times(s, factor))
  }

  function Ratio(next: real, prev: real): real
    requires prev > 0.0
  {
    next / prev
  }

  /** The offset that scaling by `k` about `cursor` gives. */
  function Toward(cursor: real, offset: real, k: real): real {
    cursor * (1.0 - k) + offset * k
  }

  /** A wheel notch at (cx, cy) percent from the frame's centre, before clamping. */
  function Zoomed(v: View, factor: real, cx: real, cy: real): View
    requires v.s > 0.0
  {
    var next := ZoomScale(v.s, factor);
    var k := Ratio(next, v.s);
    View(next, Toward(cx, v.x, k), Toward(cy, v.y, k))
  }

  /** `drawn` is the frame as drawn on screen when the pointer went down; it may be the layout
      frame under a transform. */
  datatype Gesture =
    | DownPan(drawn: Frame, px: real, py: real)
    | DownCorner(drawn: Frame, corner: Corner, diag0: real)
    | Move(px: real, py: real)
    | Up
    | Wheel(factor: real, cx: real, cy: real)
  {
    /** `v` is the view the gesture meets. */
    predicate Possible(v: View) {
      match this
      case DownPan(drawn, _, _) => drawn.Valid()
      case DownCorner(drawn, _, diag0) =>
        drawn.Valid() && v.s > 0.0 && IsHypot(diag0, Width(drawn, v.s), Height(drawn, v.s))
      case Wheel(factor, _, _) => factor > 0.0
      case _ => true
    }
  }

  lemma ClampTwice(f: Frame, v: View)
    requires f.Valid()
    ensures Clamp(f, Clamp(f, v)) == Clamp(f, v) && Clamp(f, v).s == v.s
  {
    hide Width, Height, Range;
  }

  // ---------------------------------------------------------------- whole gestures

  datatype Screen = Screen(view: View, drag: Drag)

  predicate Sound(f: Frame, t: Screen) {
    && f.Valid() && 1.0 <= t.view.s <= S_MAX && t.view == Clamp(f, t.view)
    && (t.drag.Pan? ==> t.drag.fw > 0.0 && t.drag.fh > 0.0)
    && (t.drag.Resize? ==> t.drag.fw > 0.0 && t.drag.fh > 0.0 && t.drag.diag0 > 0.0 && t.drag.s0 > 0.0)
  }

  function After(f: Frame, t: Screen, g: Gesture): Screen
    requires Sound(f, t) && g.Possible(t.view)
  {
    match g
    case DownPan(drawn, px, py) => t.(drag := Pan(px, py, t.view.x, t.view.y, drawn.fw, drawn.fh))
    case DownCorner(drawn, corner, diag0) => t.(drag := StartResize(drawn, t.view, corner, diag0))
    case Move(px, py) => if t.drag.NoDrag? then t else t.(view := Clamp(f, Moved(t.drag, t.view, px, py)))
    case Up => t.(drag := NoDrag)
    case Wheel(factor, cx, cy) =>
      if ZoomScale(t.view.s, factor) == t.view.s then t else t.(view := Clamp(f, Zoomed(t.view, factor, cx, cy)))
  }

  /** The element's own fields and handlers. */
  class Slot {
    const frame: Frame
    var view: View
    var drag: Drag

    function State(): Screen
      reads this
    {
      Screen(view, drag)
    }

    /** The stored view is scaled into range and clamped before it is shown. */
    constructor (frame: Frame, stored: View)
      requires frame.Valid()
      ensures this.frame == frame && Sound(frame, State())
      ensures State() == Screen(Clamp(frame, stored.(s := ClampS(stored.s))), NoDrag)
    {
      hide Clamp;
      this.frame := frame;
      view := Clamp(frame, stored.(s := ClampS(stored.s)));
      drag := NoDrag;
      ClampTwice(frame, stored.(s := ClampS(stored.s)));
    }

    method ClampView()
      requires frame.Valid()
      modifies this`view
      ensures view == Clamp(frame, old(view))
    {
      hide Width, Height, Range;
      var mx := Range(Width(frame, view.s), frame.fw);
      var my := Range(Height(frame, view.s), frame.fh);
      view := view.(x := Max(-mx, Min(mx, view.x)));
      view := view.(y := Max(-my, Min(my, view.y)));
    }

    method PointerDownPan(drawn: Frame, px: real, py: real)
      requires Sound(frame, State()) && drawn.Valid()
      modifies this`drag
      ensures State() == After(frame, old(State()), DownPan(drawn, px, py))
    {
      drag := Pan(px, py, view.x, view.y, drawn.fw, drawn.fh);
    }

    method PointerDownCorner(drawn: Frame, corner: Corner, diag0: real)
      requires Sound(frame, State()) && DownCorner(drawn, corner, diag0).Possible(view)
      modifies this`drag
      ensures State() == After(frame, old(State()), DownCorner(drawn, corner, diag0))
    {
      hide Width, Height, CentreX, CentreY, Clamp, Side, Unit;
      var w0, h0 := Width(drawn, view.s), Height(drawn, view.s);
      var ox := CentreX(drawn, view) - Side(corner.SX(), w0) / 2.0;
      var oy := CentreY(drawn, view) - Side(corner.SY(), h0) / 2.0;
      var ux, uy := Unit(Side(corner.SX(), w0), diag0), Unit(Side(corner.SY(), h0), diag0);
      drag := Resize(view.s, ox, oy, ux, uy, diag0, drawn.fw, drawn.fh);
    }

    /** In cover mode the frame stays covered, and a pan that needs no clamping moves the image's
        centre by as many pixels as the pointer. */
    method PointerMove(px: real, py: real)
      requires Sound(frame, State())
      modifies this`view
      ensures State() == After(frame, old(State()), Move(px, py)) && Sound(frame, State())
      ensures !frame.contain ==> Covers(frame, view)
      ensures drag.Pan? && Covers(frame, Moved(drag, old(view), px, py)) ==>
        && ToPixels(view.x, drag.fw) - ToPixels(drag.x, drag.fw) == px - drag.px
        && ToPixels(view.y, drag.fh) - ToPixels(drag.y, drag.fh) == py - drag.py
    {
      hide Clamp, Covers, ToPixels, FromPixels, ClampS, Dot, Scaled, Reach;
      ghost var was := State();
      AfterSound(frame, was, Move(px, py));
      match drag {
        case NoDrag =>
        case Pan(px0, py0, x, y, fw, fh) =>
          view := view.(x := x + (px - px0) / fw * 100.0);
          view := view.(y := y + (py - py0) / fh * 100.0);
          PanFollowsPointer(drag, was.view, px, py);
          assert view == Moved(drag, was.view, px, py);
          if Covers(frame, view) { CoveringStays(frame, view); }
          ClampView();
        case Resize(s0, ox, oy, ux, uy, diag0, fw, fh) =>
          var proj := Dot(px - ox, py - oy, ux, uy);
          var s := ClampS(Scaled(s0, proj, diag0));
          view := View(s, FromPixels(ox + Reach(ux, diag0, s, s0), fw), FromPixels(oy + Reach(uy, diag0, s, s0), fh));
          assert view == Moved(drag, was.view, px, py);
          ClampView();
      }
      assert State() == After(frame, was, Move(px, py));
      if !frame.contain { ClampedCovers(frame, view); }
    }

    method PointerUp()
      requires Sound(frame, State())
      modifies this`drag
      ensures State() == After(frame, old(State()), Up)
    {
      drag := NoDrag;
    }

    method WheelZoom(factor: real, cx: real, cy: real)
      requires Sound(frame, State()) && factor > 0.0
      modifies this`view
      ensures State() == After(frame, old(State()), Wheel(factor, cx, cy))
    {
      hide Clamp, Toward, ZoomScale, Ratio;
      var prev := view.s;
      var next := ZoomScale(prev, factor);
      if next == prev {
        return;
      }
      var k := Ratio(next, prev);
      view := View(next, Toward(cx, view.x, k), Toward(cy, view.y, k));
      ClampView();
    }
  }

  lemma AfterSound(f: Frame, t: Screen, g: Gesture)
    requires Sound(f, t) && g.Possible(t.view)
    ensures Sound(f, After(f, t, g))
  {
    match g {
      case Move(px, py) =>
        if !t.drag.NoDrag? { ClampTwice(f, Moved(t.drag, t.view, px, py)); }
        hide Clamp, Projection;
      case Wheel(factor, cx, cy) =>
        ClampTwice(f, Zoomed(t.view, factor, cx, cy));
      case _ =>
    }
  }

  /** The screens a sequence of gestures can lead to. */
  ghost predicate Reaches(f: Frame, t: Screen, gestures: seq<Gesture>, end: Screen)
    decreases |gestures|
  {
    if gestures == [] then t == end
    else Sound(f, t) && gestures[0].Possible(t.view) && Reaches(f, After(f, t, gestures[0]), gestures[1..], end)
  }

  /** Filling the frame means the image is at least as long as the frame along each axis. */
  lemma BaseFills(f: Frame, s: real)
    requires f.Valid() && !f.contain && s >= 1.0
    ensures Width(f, s) / f.fw >= 1.0 && Height(f, s) / f.fh >= 1.0
  {
    var b := f.Base();
    AtLeast(f.iw, b, f.fw, s);
    AtLeast(f.ih, b, f.fh, s);
  }

  lemma AtLeast(i: real, b: real, size: real, s: real)
    requires i > 0.0 && size > 0.0 && b >= size / i && s >= 1.0
    ensures Times(Times(i, b), s) / size >= 1.0
  {
    FillsAt(i, b, size);
    var length := Times(i, b);
    hide Times;
    Grows(length, s);
    AtLeastOne(Times(length, s), size);
  }

  lemma FillsAt(i: real, b: real, size: real)
    requires i > 0.0 && b >= size / i
    ensures Times(i, b) >= size
  {
    var q := size / i;
    assert q * i == size;
    assert i * (b - q) >= 0.0;
  }

  lemma Grows(length: real, s: real)
    requires length > 0.0 && s >= 1.0
    ensures Times(length, s) >= length
  {
    assert length * (s - 1.0) >= 0.0;
  }

  lemma AtLeastOne(length: real, size: real)
    requires size > 0.0 && length >= size
    ensures length / size >= 1.0
  {
  }

  /** One axis: a clamped offset lets the image reach over both edges exactly when the image is at
      least as long as the frame. */
  lemma RangeCovers(ratio: real, x: real)
    ensures var mx := Max(0.0, (ratio - 1.0) * 50.0); var c := Max(-mx, Min(mx, x));
      50.0 + c - ratio * 50.0 <= 0.0 && 50.0 + c + ratio * 50.0 >= 100.0 <==> ratio >= 1.0
  {
  }

  /** In either mode, a clamped view covers the frame exactly when the image is at least as long as
      the frame along both axes. */
  lemma ClampCoversExactly(f: Frame, v: View)
    requires f.Valid()
    ensures Covers(f, Clamp(f, v)) <==> Width(f, v.s) / f.fw >= 1.0 && Height(f, v.s) / f.fh >= 1.0
  {
    hide Width, Height;
    RangeCovers(Width(f, v.s) / f.fw, v.x);
    RangeCovers(Height(f, v.s) / f.fh, v.y);
  }

  /** So a clamped view of a filling image covers the frame. */
  lemma ClampedCovers(f: Frame, v: View)
    requires f.Valid() && !f.contain && v.s >= 1.0
    ensures Covers(f, Clamp(f, v))
  {
    hide Width, Height, Clamp, Covers;
    BaseFills(f, v.s);
    ClampCoversExactly(f, v);
  }

  /** Clamping moves nothing that need not move: a view that covers the frame stays as it is. */
  lemma CoveringStays(f: Frame, v: View)
    requires f.Valid() && Covers(f, v)
    ensures Clamp(f, v) == v
  {
    hide Width, Height;
    var w, h := Width(f, v.s), Height(f, v.s);
    RangeAllows(w / f.fw, v.x);
    RangeAllows(h / f.fh, v.y);
  }

  lemma RangeAllows(ratio: real, x: real)
    requires 50.0 + x - ratio * 50.0 <= 0.0 && 50.0 + x + ratio * 50.0 >= 100.0
    ensures var mx := Max(0.0, (ratio - 1.0) * 50.0); Max(-mx, Min(mx, x)) == x
  {
  }

  /** However the image is panned, zoomed and resized, in cover mode it covers the whole frame and
      its scale stays between 1 and 5. */
  lemma {:induction false} AlwaysCovers(f: Frame, t: Screen, gestures: seq<Gesture>, end: Screen)
    requires Sound(f, t) && !f.contain && Reaches(f, t, gestures, end)
    ensures Covers(f, end.view) && 1.0 <= end.view.s <= S_MAX
    decreases |gestures|
  {
    hide After, Covers, Clamp;
    if gestures == [] {
      ClampedCovers(f, t.view);
    } else {
      AfterSound(f, t, gestures[0]);
      AlwaysCovers(f, After(f, t, gestures[0]), gestures[1..], end);
    }
  }

  // ---------------------------------------------------------------- what stays put

  /** The point of the image, in view-scale units from its centre, under a point of the frame. */
  function Under(v: View, c: real, offset: real): real
    requires v.s > 0.0
  {
    (c - offset) / v.s
  }

  lemma ZoomAxis(c: real, x: real, prev: real, next: real)
    requires prev > 0.0 && next > 0.0
    ensures (c - Toward(c, x, next / prev)) / next == (c - x) / prev
  {
    var k := next / prev;
    assert k * prev == next;
    assert c - Toward(c, x, k) == k * (c - x);
    var q := (c - x) / prev;
    assert q * prev == c - x;
    assert k * (c - x) == q * next by {
      assert k * (q * prev) == q * (k * prev);
    }
    assert q * next / next == q;
  }

  /** Before clamping, wheel zoom keeps the image point under the cursor where it is. */
  lemma WheelFixesCursor(v: View, factor: real, cx: real, cy: real)
    requires v.s > 0.0
    ensures var z := Zoomed(v, factor, cx, cy);
      Under(z, cx, z.x) == Under(v, cx, v.x) && Under(z, cy, z.y) == Under(v, cy, v.y)
  {
    var next := ZoomScale(v.s, factor);
    ZoomAxis(cx, v.x, v.s, next);
    ZoomAxis(cy, v.y, v.s, next);
  }

  /** The corner of the image opposite to `c`, in pixels of the frame. */
  function OppositeX(f: Frame, v: View, c: Corner): real
    requires f.Valid()
  {
    CentreX(f, v) - Side(c.SX(), Width(f, v.s)) / 2.0
  }

  function OppositeY(f: Frame, v: View, c: Corner): real
    requires f.Valid()
  {
    CentreY(f, v) - Side(c.SY(), Height(f, v.s)) / 2.0
  }

  /** One axis of a resize: the new centre lies half the new length from the fixed edge. */
  lemma AxisFixed(edge: real, side: real, diag0: real, s0: real, s: real, size: real)
    requires diag0 > 0.0 && s0 > 0.0 && size > 0.0
    ensures ToPixels(FromPixels(edge + Reach(Unit(side, diag0), diag0, s, s0), size), size)
      - Scaled(side, s, s0) / 2.0 == edge
  {
    hide ToPixels, FromPixels, Scaled, Unit;
    Recentre(edge + Reach(Unit(side, diag0), diag0, s, s0), size);
    UnitTimes(side, diag0, s, s0);
  }

  lemma Recentre(p: real, size: real)
    requires size > 0.0
    ensures ToPixels(FromPixels(p, size), size) == p
  {
    var q := p / size;
    assert q * size == p;
    assert (50.0 + (q * 100.0 - 50.0)) / 100.0 == q;
  }

  lemma UnitTimes(side: real, diag0: real, s: real, s0: real)
    requires diag0 > 0.0 && s0 > 0.0
    ensures Unit(side, diag0) * Scaled(diag0, s, s0) == Scaled(side, s, s0)
  {
    var u, t := side / diag0, s / s0;
    assert u * diag0 == side;
    assert t * s0 == s;
    assert diag0 * s / s0 == diag0 * t;
    assert side * s / s0 == side * t;
    assert u * (diag0 * t) == (u * diag0) * t;
  }

  lemma Scales(a: real, s0: real, s: real, sign: real)
    requires s0 > 0.0
    ensures Scaled(Side(sign, Times(a, s0)), s, s0) == Side(sign, Times(a, s))
  {
    var m := sign * a;
    assert sign * (a * s0) == m * s0;
    assert m * s0 * s == m * s * s0;
    Cancel(m * s, s0);
    assert sign * (a * s) == m * s;
  }

  /** Before clamping, a pan moves the image's centre by as many pixels as the pointer, from where
      both were when it went down. */
  lemma PanFollowsPointer(d: Drag, v: View, px: real, py: real)
    requires d.Pan? && d.fw > 0.0 && d.fh > 0.0
    ensures var r := Moved(d, v, px, py);
      && r.s == v.s
      && ToPixels(r.x, d.fw) - ToPixels(d.x, d.fw) == px - d.px
      && ToPixels(r.y, d.fh) - ToPixels(d.y, d.fh) == py - d.py
  {
    PanAxis(d.x, px - d.px, d.fw);
    PanAxis(d.y, py - d.py, d.fh);
  }

  lemma PanAxis(x: real, step: real, size: real)
    requires size > 0.0
    ensures ToPixels(x + step / size * 100.0, size) == ToPixels(x, size) + step
  {
    Cancel(step, size);
    assert step / size * size == step;
  }

  /** Before clamping, a corner drag keeps the opposite corner where it is. */
  lemma ResizeFixesOppositeCorner(f: Frame, v: View, c: Corner, diag0: real, px: real, py: real)
    requires f.Valid() && v.s > 0.0 && diag0 > 0.0
    ensures var r := Moved(StartResize(f, v, c, diag0), v, px, py);
      OppositeX(f, r, c) == OppositeX(f, v, c) && OppositeY(f, r, c) == OppositeY(f, v, c)
  {
    hide Width, Height, Projection, ResizeScale, ClampS, ToPixels, FromPixels, Reach, Scaled, Side, Unit;
    var d := StartResize(f, v, c, diag0);
    var r := Moved(d, v, px, py);
    var w0, h0 := Width(f, v.s), Height(f, v.s);
    AxisFixed(d.ox, Side(c.SX(), w0), diag0, v.s, r.s, f.fw);
    AxisFixed(d.oy, Side(c.SY(), h0), diag0, v.s, r.s, f.fh);
    SizeScales(f, v.s, r.s, c);
  }

  lemma SizeScales(f: Frame, s0: real, s: real, c: Corner)
    requires f.Valid() && s0 > 0.0
    ensures Scaled(Side(c.SX(), Width(f, s0)), s, s0) == Side(c.SX(), Width(f, s))
    ensures Scaled(Side(c.SY(), Height(f, s0)), s, s0) == Side(c.SY(), Height(f, s))
  {
    hide Frame.Base, Scaled, Side, Times;
    Scales(Times(f.iw, f.Base()), s0, s, c.SX());
    Scales(Times(f.ih, f.Base()), s0, s, c.SY());
  }

  lemma Cancel(a: real, d: real)
    requires d > 0.0
    ensures a * d / d == a
  {
  }

  /** The vector (a, b) projected on its own unit vector is its length. */
  lemma ProjectAlong(a: real, b: real, d: real)
    requires IsHypot(d, a, b)
    ensures Dot(a, b, Unit(a, d), Unit(b, d)) == d
  {
    TimesOver(a, a, d);
    TimesOver(b, b, d);
    assert a * a / d + b * b / d == (a * a + b * b) / d;
    Cancel(d, d);
  }

  lemma HypotOfSides(sx: real, sy: real, w: real, h: real, d: real)
    requires IsHypot(d, w, h) && (sx == 1.0 || sx == -1.0) && (sy == 1.0 || sy == -1.0)
    ensures IsHypot(d, Side(sx, w), Side(sy, h))
  {
    SignedSquare(sx, w);
    SignedSquare(sy, h);
  }

  lemma SignedSquare(sign: real, w: real)
    requires sign == 1.0 || sign == -1.0
    ensures (sign * w) * (sign * w) == w * w
  {
    if sign == 1.0 { assert sign * w == w; } else { assert sign * w == -w; }
  }

  lemma TimesOver(a: real, b: real, d: real)
    requires d > 0.0
    ensures a * (b / d) == a * b / d
  {
    var q := b / d;
    assert q * d == b;
    assert a * q * d == a * b;
    Cancel(a * q, d);
  }

  /** Grabbing a corner does not make the image jump: with the pointer on the corner the scale is
      what it was. */
  lemma ResizeStartsSmoothly(f: Frame, v: View, c: Corner, diag0: real)
    requires f.Valid() && 1.0 <= v.s <= S_MAX && IsHypot(diag0, Width(f, v.s), Height(f, v.s))
    ensures var d := StartResize(f, v, c, diag0);
      Moved(d, v, d.ox + Side(c.SX(), Width(f, v.s)), d.oy + Side(c.SY(), Height(f, v.s))).s == v.s
  {
    hide Width, Height, CentreX, CentreY, ClampS, ResizeScale, Corner.SX, Corner.SY, IsHypot, Side, Unit, Dot;
    HypotPositive(diag0, Width(f, v.s), Height(f, v.s));
    var d := StartResize(f, v, c, diag0);
    var a, b := Side(c.SX(), Width(f, v.s)), Side(c.SY(), Height(f, v.s));
    Signs(c);
    HypotOfSides(c.SX(), c.SY(), Width(f, v.s), Height(f, v.s), diag0);
    ProjectAlong(a, b, diag0);
    assert (d.ox + a) - d.ox == a && (d.oy + b) - d.oy == b;
    ScaleAtCorner(d, d.ox + a, d.oy + b);
  }

  lemma HypotPositive(d: real, a: real, b: real)
    requires IsHypot(d, a, b)
    ensures d > 0.0
  {
  }

  lemma Signs(c: Corner)
    ensures c.SX() == 1.0 || c.SX() == -1.0
    ensures c.SY() == 1.0 || c.SY() == -1.0
  {
  }

  lemma ScaleAtCorner(d: Drag, px: real, py: real)
    requires d.Resize? && d.diag0 > 0.0 && Projection(d, px, py) == d.diag0 && 1.0 <= d.s0 <= S_MAX
    ensures ResizeScale(d, px, py) == d.s0
  {
    hide Projection, Scaled;
    ScaledByUnit(d.s0, d.diag0);
  }

  lemma ScaledByUnit(s: real, d: real)
    requires d > 0.0
    ensures Scaled(s, d, d) == s
  {
    Cancel(s, d);
  }

  /** Fitting inside the frame gives no such cover: at scale 1 a taller image leaves the sides bare. */
  lemma ContainNeedNotCover()
    ensures var f, v := Frame(1.0, 2.0, 1.0, 1.0, true), View(1.0, 0.0, 0.0);
      v == Clamp(f, v) && !Covers(f, v)
  {
    var f, v := Frame(1.0, 2.0, 1.0, 1.0, true), View(1.0, 0.0, 0.0);
    assert Width(f, 1.0) == 0.5 && Height(f, 1.0) == 1.0;
    hide Width, Height;
    assert v == Clamp(f, v);
    ClampCoversExactly(f, v);
  }

  // ---------------------------------------------------------------- sizes, scales and gestures in numbers

  /** Before clamping, a wheel notch multiplies the scale by its factor, within 1 to 5. */
  lemma WheelScales(v: View, factor: real, cx: real, cy: real, s: real)
    requires v.s > 0.0 && s == v.s * factor
    ensures Zoomed(v, factor, cx, cy).s == if s < 1.0 then 1.0 else if s > 5.0 then 5.0 else s
  {
    hide ClampS;
    assert Times(v.s, factor) == s;
    hide Times;
    ClampSIs(s);
  }

  /** At scale 1 the image just fills the frame, or just fits inside it: it is exactly as long as the
      frame along one axis and no shorter, or no longer, along the other. */
  lemma FitsAtOne(f: Frame)
    requires f.Valid()
    ensures Width(f, 1.0) == f.fw || Height(f, 1.0) == f.fh
    ensures if f.contain then Width(f, 1.0) <= f.fw && Height(f, 1.0) <= f.fh
            else Width(f, 1.0) >= f.fw && Height(f, 1.0) >= f.fh
  {
    var a, b := f.fw / f.iw, f.fh / f.ih;
    assert f.iw * a == f.fw && f.ih * b == f.fh;
    Monotone(f.iw, a, f.Base());
    Monotone(f.iw, f.Base(), a);
    Monotone(f.ih, b, f.Base());
    Monotone(f.ih, f.Base(), b);
  }

  lemma Monotone(i: real, a: real, b: real)
    requires i > 0.0
    ensures a <= b ==> i * a <= i * b
  {
    if a <= b { assert i * (b - a) >= 0.0; }
  }

  /** The image grows with the scale and keeps its shape. */
  lemma SizeIsScale(f: Frame, s: real)
    requires f.Valid()
    ensures Width(f, s) == Width(f, 1.0) * s && Height(f, s) == Height(f, 1.0) * s
    ensures Width(f, s) * f.ih == Height(f, s) * f.iw
  {
    var b := f.Base();
    Shape(f.iw, f.ih, b, s);
  }

  lemma Shape(iw: real, ih: real, b: real, s: real)
    ensures iw * b * s * ih == ih * b * s * iw
  {
    var m := b * s;
    assert iw * b * s == iw * m && ih * b * s == ih * m;
    assert iw * m * ih == ih * m * iw;
  }

  function Distance(a: real, b: real): real {
    if a < b then b - a else a - b
  }

  /** Half of what the image is longer than the frame, in percent of the frame. */
  function Slack(len: real, size: real): real
    requires size > 0.0
  {
    if len > size then (len / size - 1.0) * 50.0 else 0.0
  }

  /** Clamping moves the image's centre to the nearest place within half the overflow of the
      frame's, on each axis. */
  lemma ClampIsNearest(f: Frame, v: View, x: real, y: real)
    requires f.Valid() && Distance(x, 0.0) <= Slack(Width(f, v.s), f.fw) && Distance(y, 0.0) <= Slack(Height(f, v.s), f.fh)
    ensures var c := Clamp(f, v);
      && Distance(c.x, 0.0) <= Slack(Width(f, v.s), f.fw) && Distance(c.y, 0.0) <= Slack(Height(f, v.s), f.fh)
      && Distance(c.x, v.x) <= Distance(x, v.x) && Distance(c.y, v.y) <= Distance(y, v.y)
  {
    hide Width, Height;
    SlackIsRange(Width(f, v.s), f.fw);
    SlackIsRange(Height(f, v.s), f.fh);
    hide Slack, Range;
  }

  lemma SlackIsRange(len: real, size: real)
    requires size > 0.0
    ensures Slack(len, size) == Range(len, size)
  {
    var q := len / size;
    assert q * size == len;
    if len > size { assert q > 1.0; } else { assert q <= 1.0; }
  }

  /** A pan from the pointer's down to any of its moves: the offsets are those of the down plus the
      pointer's way since, in percent of the frame as drawn, clamped; earlier moves do not matter. */
  lemma PanIsFromStart(f: Frame, t: Screen, drawn: Frame, px0: real, py0: real, px: real, py: real, qx: real, qy: real)
    requires Sound(f, t) && drawn.Valid()
    ensures var down := After(f, t, DownPan(drawn, px0, py0));
      && Sound(f, down)
      && After(f, down, Move(px, py)).view == Clamp(f, View(t.view.s, t.view.x + (px - px0) / drawn.fw * 100.0,
                                                           t.view.y + (py - py0) / drawn.fh * 100.0))
      && Sound(f, After(f, down, Move(qx, qy)))
      && After(f, After(f, down, Move(qx, qy)), Move(px, py)).view == After(f, down, Move(px, py)).view
  {
    var down := After(f, t, DownPan(drawn, px0, py0));
    AfterSound(f, t, DownPan(drawn, px0, py0));
    AfterSound(f, down, Move(qx, qy));
    hide Width, Height, Range;
  }

  /** Once the pointer is up, its moves do nothing. */
  lemma UpEndsDrag(f: Frame, t: Screen, px: real, py: real)
    requires Sound(f, t)
    ensures var up := After(f, t, Up); up.view == t.view && Sound(f, up) && After(f, up, Move(px, py)) == up
  {
    AfterSound(f, t, Up);
    hide Clamp;
  }

  /** Before clamping the offsets, a corner drag gives the scale at which the dragged corner lies
      level with the pointer along the diagonal, within 1 to 5: the pointer is `aside` diagonals off
      the place the corner has at scale `s`. */
  lemma ResizeFollowsPointer(f: Frame, v: View, c: Corner, diag0: real, s: real, aside: real)
    requires f.Valid() && v.s > 0.0 && IsHypot(diag0, Width(f, v.s), Height(f, v.s))
    ensures var d := StartResize(f, v, c, diag0);
      var px := d.ox + (Side(c.SX(), Width(f, s)) - Times(aside, Side(c.SY(), Height(f, v.s))));
      var py := d.oy + (Side(c.SY(), Height(f, s)) + Times(aside, Side(c.SX(), Width(f, v.s))));
      Moved(d, v, px, py).s == if s < 1.0 then 1.0 else if s > 5.0 then 5.0 else s
  {
    hide Width, Height, CentreX, CentreY, ClampS, Corner.SX, Corner.SY, IsHypot, Side, Unit, Dot, Scaled, Times, Moved;
    HypotPositive(diag0, Width(f, v.s), Height(f, v.s));
    var d := StartResize(f, v, c, diag0);
    var a, b := Side(c.SX(), Width(f, v.s)), Side(c.SY(), Height(f, v.s));
    Signs(c);
    HypotOfSides(c.SX(), c.SY(), Width(f, v.s), Height(f, v.s), diag0);
    SizeScales(f, v.s, s, c);
    OnDiagonal(a, b, diag0, v.s, s, aside);
    ScaleBack(v.s, s, diag0);
    PointerScale(d, v, Scaled(a, s, v.s) - Times(aside, b), Scaled(b, s, v.s) + Times(aside, a), s);
  }

  /** The scale a pointer gives that is `u`, `w` from the fixed corner. */
  lemma PointerScale(d: Drag, v: View, u: real, w: real, s: real)
    requires d.Resize? && d.fw > 0.0 && d.fh > 0.0 && d.diag0 > 0.0 && d.s0 > 0.0
    requires Scaled(d.s0, Dot(u, w, d.ux, d.uy), d.diag0) == s
    ensures Moved(d, v, d.ox + u, d.oy + w).s == if s < 1.0 then 1.0 else if s > 5.0 then 5.0 else s
  {
    hide ClampS, Dot, Scaled;
    assert (d.ox + u) - d.ox == u && (d.oy + w) - d.oy == w;
    ClampSIs(s);
  }

  lemma ClampSIs(s: real)
    ensures ClampS(s) == if s < 1.0 then 1.0 else if s > 5.0 then 5.0 else s
  {
  }

  lemma ScaleBack(s0: real, s: real, d: real)
    requires s0 > 0.0 && d > 0.0
    ensures Scaled(s0, Scaled(d, s, s0), d) == s
  {
    var q := s / s0;
    assert q * s0 == s;
    TimesOver(d, s, s0);
    assert d * s / s0 == d * q;
    assert s0 * (d * q) == s * d;
    Cancel(s, d);
  }

  /** Projecting a multiple of (a, b), with any multiple of its normal added, on its direction. */
  lemma OnDiagonal(a: real, b: real, d: real, s0: real, s: real, aside: real)
    requires IsHypot(d, a, b) && s0 > 0.0
    ensures Dot(Scaled(a, s, s0) - Times(aside, b), Scaled(b, s, s0) + Times(aside, a), Unit(a, d), Unit(b, d))
      == Scaled(d, s, s0)
  {
    var q := s / s0;
    TimesOver(a, s, s0);
    TimesOver(b, s, s0);
    TimesOver(d, s, s0);
    ProjectAlong(a, b, d);
    var u, w := a / d, b / d;
    assert u * d == a && w * d == b;
    Normal(u, w, d);
    assert (a * q - aside * b) * u + (b * q + aside * a) * w == q * (a * u + b * w) + aside * (a * w - b * u) by {
      Expand(a, b, q, aside, u, w);
    }
  }

  lemma Normal(u: real, w: real, d: real)
    ensures (u * d) * w - (w * d) * u == 0.0
  {
    assert (u * d) * w == d * (u * w) && (w * d) * u == d * (u * w);
  }

  lemma Expand(a: real, b: real, q: real, k: real, u: real, w: real)
    ensures (a * q - k * b) * u + (b * q + k * a) * w == q * (a * u + b * w) + k * (a * w - b * u)
  {
    assert (a * q - k * b) * u == q * (a * u) - k * (b * u);
    assert (b * q + k * a) * w == q * (b * w) + k * (a * w);
  }
}
