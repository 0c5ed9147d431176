/**
 Caret geometry of a Chromium field (geometry.py), over real numbers. `round` stands for rounding to two
 places; all that is known of it is how far it may be off.
 */
module Geometry {
  import opened Common

  const SCALE_TOLERANCE: real := 0.01
  const EDGE_TOLERANCE: real := 1.0
  const MAX_COORDINATE: real := 10000000.0
  const CARET_MARK_WIDTH: real := 2.0

  /** A logical length in physical pixels, and back. */
  function Physical(v: real, scale: real): real {
    v * scale
  }

  function Logical(v: real, scale: real): real
    requires scale > 0.0
  {
    v / scale
  }

  datatype Rect = Rect(x: real, y: real, width: real, height: real) {
    function Right(): real { x + width }

    function Bottom(): real { y + height }

    function Shifted(dx: real, dy: real): Rect { Rect(x + dx, y + dy, width, height) }
  }

  datatype Monitor = Monitor(id: int, scale: real, transform: int)

  datatype Window = Window(monitor: int, width: real, height: real, xwayland: bool)

  /** What is known of a field: `frame` is logical, every other extent is in physical pixels. */
  datatype Extents = Extents(frame: Rect, document: Rect, field: Rect, glyph: Rect, container: Option<Rect>, page: Option<Rect>,
                             following: Option<Rect>) {
    /** The frame moved by (dx, dy) and everything else by `scale` times that. */
    function Moved(dx: real, dy: real, scale: real): Extents {
      var (px, py) := (Physical(dx, scale), Physical(dy, scale));
      Extents(frame.Shifted(dx, dy), document.Shifted(px, py), field.Shifted(px, py), glyph.Shifted(px, py),
              Shift(container, px, py), Shift(page, px, py), Shift(following, px, py))
    }

    /** Every extent that is given is usable. */
    predicate Usable() {
      && IsRect(frame) && IsRect(document) && IsRect(field) && IsRect(glyph)
      && Given(container) && Given(page) && Given(following)
    }
  }

  function Shift(r: Option<Rect>, dx: real, dy: real): Option<Rect> {
    if r.Some? then Some(r.value.Shifted(dx, dy)) else None
  }

  predicate Given(r: Option<Rect>) {
    r.Some? ==> IsRect(r.value)
  }

  datatype Reply = Reply(scale: real, offset: int, x: real, y: real, line: real, bound: Rect, following: Option<real>)

  function Abs(v: real): real {
    if v < 0.0 then -v else v
  }

  /** Rounding is off by half a hundredth at most. */
  ghost predicate Rounds(round: real -> real) {
    forall v: real :: v - 0.005 <= round(v) <= v + 0.005
  }

  predicate IsRect(r: Rect) {
    && Abs(r.x) <= MAX_COORDINATE && Abs(r.y) <= MAX_COORDINATE
    && 0.0 <= r.width <= MAX_COORDINATE && 0.0 <= r.height <= MAX_COORDINATE
  }

  predicate InsideOf(inner: Rect, outer: Rect) {
    && inner.x >= outer.x - EDGE_TOLERANCE && inner.y >= outer.y - EDGE_TOLERANCE
    && inner.Right() <= outer.Right() + EDGE_TOLERANCE && inner.Bottom() <= outer.Bottom() + EDGE_TOLERANCE
  }

  /** A field no wider than a caret mark, next to the glyph's right edge and as high up. */
  predicate MarksCaret(field: Rect, glyph: Rect, scale: real) {
    && field.width <= CARET_MARK_WIDTH * scale && Abs(glyph.Right() - field.x) <= scale
    && glyph.y >= field.y - EDGE_TOLERANCE && glyph.Bottom() <= field.Bottom() + EDGE_TOLERANCE
  }

  function Matching(monitors: seq<Monitor>, id: int): seq<Monitor> {
    if monitors == [] then []
    else (if monitors[0].id == id then [monitors[0]] else []) + Matching(monitors[1..], id)
  }

  /** The scale of the window's one monitor; every extent that was checked is a proper rectangle then. */
  function OutputScale(e: Extents, window: Window, monitors: seq<Monitor>, caret: int): (r: Option<real>)
    ensures r.Some? ==> 0.5 <= r.value <= 4.0 && e.frame.width >= 1.0
  {
    if !(IsRect(e.frame) && IsRect(e.document) && IsRect(e.field) && IsRect(e.glyph)) || caret < 1 then None
    else
      var matching := Matching(monitors, window.monitor);
      if |matching| != 1 || window.xwayland then None
      else if !(0.5 <= matching[0].scale <= 4.0) || matching[0].transform != 0
         || !(1.0 <= window.width <= 32768.0 && 1.0 <= window.height <= 32768.0)
         || e.frame.width < 1.0 || e.glyph.height < 1.0 then None
      else Some(matching[0].scale)
  }

  /** The rectangle that holds the glyph: the field's, or else the container's of a caret mark. */
  function Bound(e: Extents, scale: real): Option<Rect> {
    if InsideOf(e.glyph, e.field) then Some(e.field)
    else if MarksCaret(e.field, e.glyph, scale) && e.container.Some? && IsRect(e.container.value)
         && InsideOf(e.field, e.container.value) && InsideOf(e.glyph, e.container.value)
         && InsideOf(e.container.value, e.document) then e.container
    else None
  }

  function Local(round: real -> real, value: real, origin: real, scale: real): real
    requires scale > 0.0
  {
    round(Logical(value - origin, scale))
  }

  /** Where the next glyph on the caret's line begins, unless that is past the bound. */
  function FollowingX(round: real -> real, e: Extents, origin: real, scale: real, right: real): Option<real>
    requires scale > 0.0
  {
    if e.following.None? || !IsRect(e.following.value) then None
    else
      var f := e.following.value;
      if Abs(f.y - e.glyph.y) > e.glyph.height / 2.0 || f.x < e.glyph.Right() - EDGE_TOLERANCE then None
      else
        var value := Local(round, f.x, origin, scale);
        if value <= right + EDGE_TOLERANCE then Some(value) else None
  }

  function MakeReply(scale: real, window: Window, caret: int, x: real, y: real, line: real, bound: Rect,
                     following: Option<real>): Option<Reply> {
    if !(0.0 <= x <= window.width && 0.0 <= y && y + line <= window.height) then None
    else
      var shown := if following.Some? && x < following.value <= window.width then following else None;
      Some(Reply(scale, caret - 1, x, y, line, bound, shown))
  }

  /** The caret in the window's logical coordinates, or nothing when the extents do not prove it. */
  function Calibrated(round: real -> real, e: Extents, window: Window, monitors: seq<Monitor>, caret: int): Option<Reply> {
    var output := OutputScale(e, window, monitors, caret);
    if output.None? then None
    else
      var scale := output.value;
      var reference := if e.page.Some? then e.page.value else e.document;
      if Abs(reference.width / e.frame.width - scale) > SCALE_TOLERANCE then None
      else if !InsideOf(e.field, e.document) then None
      else if e.page.Some? && !(IsRect(e.page.value) && InsideOf(e.document, e.page.value)) then None
      else
        var bound := Bound(e, scale);
        if bound.None? then None
        else
          var left, top := Physical(e.frame.x, scale), Physical(e.frame.y, scale);
          var b := bound.value;
          var local := Rect(Local(round, b.x, left, scale), Local(round, b.y, top, scale),
                            round(Logical(b.width, scale)), round(Logical(b.height, scale)));
          MakeReply(scale, window, caret, Local(round, e.glyph.Right(), left, scale),
                    Local(round, e.glyph.y, top, scale), round(Logical(e.glyph.height, scale)), local,
                    FollowingX(round, e, left, scale, local.Right()))
  }

  // ---------------------------------------------------------------- properties

  lemma LocalShifts(round: real -> real, v: real, w: real, origin: real, d: real, scale: real)
    requires scale > 0.0 && w == v + Physical(d, scale)
    ensures Local(round, w, Physical(origin + d, scale), scale) == Local(round, v, Physical(origin, scale), scale)
  {
    assert Physical(origin + d, scale) == Physical(origin, scale) + Physical(d, scale);
    hide Physical, Logical;
    assert w - Physical(origin + d, scale) == v - Physical(origin, scale);
  }

  lemma InsideShifts(inner: Rect, outer: Rect, dx: real, dy: real)
    ensures InsideOf(inner.Shifted(dx, dy), outer.Shifted(dx, dy)) == InsideOf(inner, outer)
  {
  }

  lemma BoundShifts(e: Extents, now: Extents, scale: real, px: real, py: real)
    requires e.Usable() && now.Usable()
    requires now.document == e.document.Shifted(px, py) && now.field == e.field.Shifted(px, py)
    requires now.glyph == e.glyph.Shifted(px, py) && now.container == Shift(e.container, px, py)
    ensures Bound(now, scale) == Shift(Bound(e, scale), px, py)
  {
    hide InsideOf, IsRect;
    InsideShifts(e.glyph, e.field, px, py);
    assert MarksCaret(now.field, now.glyph, scale) == MarksCaret(e.field, e.glyph, scale);
    if e.container.Some? {
      InsideShifts(e.field, e.container.value, px, py);
      InsideShifts(e.glyph, e.container.value, px, py);
      InsideShifts(e.container.value, e.document, px, py);
    }
  }

  lemma FollowingShifts(round: real -> real, e: Extents, now: Extents, scale: real, dx: real, py: real, right: real)
    requires scale > 0.0 && e.Usable() && now.Usable()
    requires now.glyph == e.glyph.Shifted(Physical(dx, scale), py)
    requires now.following == Shift(e.following, Physical(dx, scale), py)
    ensures FollowingX(round, now, Physical(e.frame.x + dx, scale), scale, right)
      == FollowingX(round, e, Physical(e.frame.x, scale), scale, right)
  {
    hide IsRect, Local, Physical;
    if e.following.Some? {
      LocalShifts(round, e.following.value.x, now.following.value.x, e.frame.x, dx, scale);
    }
  }

  /** Moving the window on the screen, by (dx, dy) logical pixels, does not change the reply. */
  lemma ShiftInvariant(round: real -> real, e: Extents, window: Window, monitors: seq<Monitor>, caret: int, dx: real, dy: real)
    requires e.Usable() && |Matching(monitors, window.monitor)| == 1
    requires e.Moved(dx, dy, Matching(monitors, window.monitor)[0].scale).Usable()
    ensures Calibrated(round, e.Moved(dx, dy, Matching(monitors, window.monitor)[0].scale), window, monitors, caret)
      == Calibrated(round, e, window, monitors, caret)
  {
    hide InsideOf, IsRect, Bound, FollowingX, Local, MakeReply, Matching, Physical, Logical;
    var scale := Matching(monitors, window.monitor)[0].scale;
    var now, px, py := e.Moved(dx, dy, scale), Physical(dx, scale), Physical(dy, scale);
    assert OutputScale(now, window, monitors, caret) == OutputScale(e, window, monitors, caret);
    InsideShifts(e.field, e.document, px, py);
    if e.page.Some? {
      InsideShifts(e.document, e.page.value, px, py);
    }
    BoundShifts(e, now, scale, px, py);
    if OutputScale(e, window, monitors, caret).Some? && Bound(e, scale).Some? {
      var b, left := Bound(e, scale).value, Physical(e.frame.x, scale);
      LocalShifts(round, b.x, b.x + px, e.frame.x, dx, scale);
      LocalShifts(round, b.y, b.y + py, e.frame.y, dy, scale);
      LocalShifts(round, e.glyph.Right(), now.glyph.Right(), e.frame.x, dx, scale);
      LocalShifts(round, e.glyph.y, now.glyph.y, e.frame.y, dy, scale);
      FollowingShifts(round, e, now, scale, dx, py, Local(round, b.x, left, scale) + round(Logical(b.width, scale)));
    }
  }

  /** Division by the scale is additive and keeps the order. */
  lemma LogicalIsLinear(a: real, b: real, scale: real)
    requires scale > 0.0
    ensures Logical(a + b, scale) == Logical(a, scale) + Logical(b, scale)
    ensures a <= b ==> Logical(a, scale) <= Logical(b, scale)
  {
    assert (a + b) / scale == a / scale + b / scale;
    if a <= b {
      assert b / scale - a / scale == (b - a) / scale;
    }
  }

  /** The caret is inside the window, and a following glyph strictly right of it. */
  predicate InWindow(r: Reply, window: Window, caret: int) {
    && 0.0 <= r.x <= window.width && 0.0 <= r.y && r.y + r.line <= window.height
    && 0.5 <= r.scale <= 4.0 && r.offset == caret - 1 >= 0
    && (r.following.Some? ==> r.x < r.following.value <= window.width && r.following.value <= r.bound.Right() + EDGE_TOLERANCE)
  }

  /** Roundings move a position no further than each may be off. */
  lemma Within(round: real -> real, v: real, low: real, size: real, scale: real)
    requires Rounds(round) && scale > 0.0 && low - EDGE_TOLERANCE <= v
    ensures var slack := Logical(EDGE_TOLERANCE, scale);
      && round(Logical(low, scale)) - slack - 0.01 <= round(Logical(v, scale))
      && (v <= low + size + EDGE_TOLERANCE ==>
            round(Logical(v, scale)) <= round(Logical(low, scale)) + round(Logical(size, scale)) + slack + 0.015)
  {
    hide Logical;
    LogicalIsLinear(low, v + EDGE_TOLERANCE, scale);
    LogicalIsLinear(v, EDGE_TOLERANCE, scale);
    LogicalIsLinear(v, low + size + EDGE_TOLERANCE, scale);
    LogicalIsLinear(low + size, EDGE_TOLERANCE, scale);
    LogicalIsLinear(low, size, scale);
  }

  lemma EndWithin(round: real -> real, v: real, length: real, low: real, size: real, scale: real)
    requires Rounds(round) && scale > 0.0 && v + length <= low + size + EDGE_TOLERANCE
    ensures round(Logical(v, scale)) + round(Logical(length, scale))
      <= round(Logical(low, scale)) + round(Logical(size, scale)) + Logical(EDGE_TOLERANCE, scale) + 0.02
  {
    hide Logical;
    LogicalIsLinear(v + length, low + size + EDGE_TOLERANCE, scale);
    LogicalIsLinear(low + size, EDGE_TOLERANCE, scale);
    LogicalIsLinear(low, size, scale);
    LogicalIsLinear(v, length, scale);
  }

  /** What a reply is made of. */
  ghost predicate MadeOf(r: Reply, round: real -> real, e: Extents, b: Rect)
    requires r.scale > 0.0
  {
    var left, top := Physical(e.frame.x, r.scale), Physical(e.frame.y, r.scale);
    && InsideOf(e.glyph, b) && e.glyph.width >= 0.0
    && r.x == round(Logical(e.glyph.Right() - left, r.scale)) && r.y == round(Logical(e.glyph.y - top, r.scale))
    && r.line == round(Logical(e.glyph.height, r.scale))
    && r.bound == Rect(round(Logical(b.x - left, r.scale)), round(Logical(b.y - top, r.scale)),
                       round(Logical(b.width, r.scale)), round(Logical(b.height, r.scale)))
  }

  lemma ReplyIs(round: real -> real, e: Extents, window: Window, monitors: seq<Monitor>, caret: int)
    ensures match Calibrated(round, e, window, monitors, caret)
      case None => true
      case Some(r) => InWindow(r, window, caret) && Bound(e, r.scale).Some? && MadeOf(r, round, e, Bound(e, r.scale).value)
  {
    hide Matching, Physical, Logical, MarksCaret;
  }

  /**
   The caret of a reply lies in the window and, up to the edge tolerance in logical pixels and the roundings,
   in its bound.
   */
  lemma CaretInBound(round: real -> real, e: Extents, window: Window, monitors: seq<Monitor>, caret: int)
    requires Rounds(round)
    ensures match Calibrated(round, e, window, monitors, caret)
      case None => true
      case Some(r) =>
        && InWindow(r, window, caret)
        && var slack := Logical(EDGE_TOLERANCE, r.scale);
        && r.bound.x - slack - 0.01 <= r.x <= r.bound.Right() + slack + 0.015
        && r.bound.y - slack - 0.01 <= r.y && r.y + r.line <= r.bound.Bottom() + slack + 0.02
  {
    ReplyIs(round, e, window, monitors, caret);
    hide Calibrated, Bound, Rounds, Physical, Logical;
    var reply := Calibrated(round, e, window, monitors, caret);
    if reply.Some? {
      var scale := reply.value.scale;
      var b, g, left, top := Bound(e, scale).value, e.glyph, Physical(e.frame.x, scale), Physical(e.frame.y, scale);
      Within(round, g.Right() - left, b.x - left, b.width, scale);
      Within(round, g.y - top, b.y - top, b.height, scale);
      EndWithin(round, g.y - top, g.height, b.y - top, b.height, scale);
    }
  }

  // ---------------------------------------------------------------- when there is a reply

  /** Coordinates of at most ten million pixels and sizes that are no less than nothing. */
  ghost predicate Measured(r: Rect) {
    && -10000000.0 <= r.x <= 10000000.0 && -10000000.0 <= r.y <= 10000000.0
    && 0.0 <= r.width <= 10000000.0 && 0.0 <= r.height <= 10000000.0
  }

  /** No edge of `inner` is more than a pixel beyond the same edge of `outer`. */
  ghost predicate Encloses(outer: Rect, inner: Rect) {
    && outer.x - inner.x <= 1.0 && outer.y - inner.y <= 1.0
    && inner.x + inner.width - (outer.x + outer.width) <= 1.0 && inner.y + inner.height - (outer.y + outer.height) <= 1.0
  }

  /** No other monitor has the identity `id`. */
  ghost predicate Only(monitors: seq<Monitor>, id: int, i: nat)
    requires i < |monitors|
  {
    monitors[i].id == id && forall j :: 0 <= j < |monitors| && monitors[j].id == id ==> j == i
  }

  /** The extents that every reply needs are measured, not too small, and the outermost page has the monitor's scale. */
  ghost predicate Scaled(e: Extents, window: Window, scale: real) {
    && Measured(e.frame) && Measured(e.document) && Measured(e.field) && Measured(e.glyph)
    && e.frame.width >= 1.0 && e.glyph.height >= 1.0
    && 1.0 <= window.width <= 32768.0 && 1.0 <= window.height <= 32768.0
    && var width := (if e.page.Some? then e.page.value else e.document).width;
       scale - 0.01 <= width / e.frame.width <= scale + 0.01
  }

  /** The page encloses the document and that the field. */
  ghost predicate Nested(e: Extents) {
    && Encloses(e.document, e.field)
    && (e.page.Some? ==> Measured(e.page.value) && Encloses(e.page.value, e.document))
  }

  /** The field encloses the glyph; or it is a mark of two logical pixels at the glyph's edge, and the container encloses both. */
  ghost predicate Bounded(e: Extents, scale: real) {
    || Encloses(e.field, e.glyph)
    || (&& e.field.width <= 2.0 * scale && -scale <= e.glyph.x + e.glyph.width - e.field.x <= scale
        && e.field.y - e.glyph.y <= 1.0 && e.glyph.y + e.glyph.height - (e.field.y + e.field.height) <= 1.0
        && e.container.Some? && Measured(e.container.value) && Encloses(e.container.value, e.field)
        && Encloses(e.container.value, e.glyph) && Encloses(e.document, e.container.value))
  }

  /** A physical coordinate in the window's logical pixels, for a frame at the logical `origin`, rounded. */
  function Placed(round: real -> real, v: real, origin: real, scale: real): real
    requires scale > 0.0
  {
    round((v - origin * scale) / scale)
  }

  /** The caret's place in the window lies in it with its line. */
  ghost predicate Shown(round: real -> real, e: Extents, window: Window, scale: real)
    requires scale > 0.0
  {
    var x, y := Placed(round, e.glyph.x + e.glyph.width, e.frame.x, scale), Placed(round, e.glyph.y, e.frame.y, scale);
    0.0 <= x <= window.width && 0.0 <= y && y + Placed(round, e.glyph.height, 0.0, scale) <= window.height
  }

  /** All of this, on an upright monitor of a usual scale, for a window that is no X11 one and a caret with a character before it. */
  ghost predicate Proven(round: real -> real, e: Extents, window: Window, monitor: Monitor, caret: int) {
    && caret >= 1 && !window.xwayland && 0.5 <= monitor.scale <= 4.0 && monitor.transform == 0
    && Scaled(e, window, monitor.scale) && Nested(e) && Bounded(e, monitor.scale) && Shown(round, e, window, monitor.scale)
  }

  lemma {:induction false} NoMatch(monitors: seq<Monitor>, id: int)
    ensures Matching(monitors, id) == [] <==> forall j :: 0 <= j < |monitors| ==> monitors[j].id != id
  {
    if monitors != [] {
      NoMatch(monitors[1..], id);
      assert forall j :: 1 <= j < |monitors| ==> monitors[j] == monitors[1..][j - 1];
    }
  }

  /** One monitor matches exactly when one has that identity. */
  lemma {:induction false} OneMatch(monitors: seq<Monitor>, id: int)
    ensures |Matching(monitors, id)| == 1 <==> exists i :: 0 <= i < |monitors| && Only(monitors, id, i)
    ensures forall i :: 0 <= i < |monitors| && Only(monitors, id, i) ==> Matching(monitors, id) == [monitors[i]]
  {
    if monitors != [] {
      var rest := monitors[1..];
      OneMatch(rest, id);
      NoMatch(rest, id);
      assert forall j :: 1 <= j < |monitors| ==> monitors[j] == rest[j - 1];
      if monitors[0].id == id {
        if Matching(rest, id) == [] {
          assert Only(monitors, id, 0);
        }
      } else {
        forall i | 0 <= i < |monitors|
          ensures Only(monitors, id, i) <==> i > 0 && Only(rest, id, i - 1)
        {
          if i > 0 && Only(rest, id, i - 1) {
            assert forall j :: 1 <= j < |monitors| && monitors[j].id == id ==> rest[j - 1].id == id;
          }
          if Only(monitors, id, i) {
            forall j | 0 <= j < |rest| && rest[j].id == id
              ensures j == i - 1
            {
              assert monitors[j + 1] == rest[j];
            }
          }
        }
        if i :| 0 <= i < |rest| && Only(rest, id, i) {
          assert Only(monitors, id, i + 1);
        }
      }
    }
  }

  lemma SameTests(e: Extents, scale: real)
    ensures forall r: Rect :: IsRect(r) <==> Measured(r)
    ensures forall a: Rect, b: Rect :: InsideOf(a, b) <==> Encloses(b, a)
    ensures Bound(e, scale).Some? <==> Bounded(e, scale)
  {
  }

  lemma OutputIs(e: Extents, window: Window, monitors: seq<Monitor>, caret: int, i: nat)
    requires i < |monitors| && Only(monitors, window.monitor, i)
    ensures var m := monitors[i];
      OutputScale(e, window, monitors, caret) ==
        if caret >= 1 && !window.xwayland && 0.5 <= m.scale <= 4.0 && m.transform == 0 && Measured(e.frame)
          && Measured(e.document) && Measured(e.field) && Measured(e.glyph) && e.frame.width >= 1.0 && e.glyph.height >= 1.0
          && 1.0 <= window.width <= 32768.0 && 1.0 <= window.height <= 32768.0 then Some(m.scale) else None
  {
    hide IsRect, Measured, Matching;
    SameTests(e, 1.0);
    OneMatch(monitors, window.monitor);
  }

  /** There is a reply exactly when the window's one monitor proves the extents. */
  lemma RepliesIff(round: real -> real, e: Extents, window: Window, monitors: seq<Monitor>, caret: int)
    ensures Calibrated(round, e, window, monitors, caret).Some? <==>
      exists i :: 0 <= i < |monitors| && Only(monitors, window.monitor, i) && Proven(round, e, window, monitors[i], caret)
  {
    hide Matching, Only, Proven;
    OneMatch(monitors, window.monitor);
    NoOutput(round, e, window, monitors, caret);
    if i :| 0 <= i < |monitors| && Only(monitors, window.monitor, i) {
      RepliesOn(round, e, window, monitors, caret, i);
      forall j | 0 <= j < |monitors| && Only(monitors, window.monitor, j)
        ensures j == i
      {
        OnlyOnce(monitors, window.monitor, i, j);
      }
    }
  }

  lemma OnlyOnce(monitors: seq<Monitor>, id: int, i: nat, j: nat)
    requires i < |monitors| && j < |monitors| && Only(monitors, id, i) && Only(monitors, id, j)
    ensures i == j
  {
  }

  lemma ShownIs(round: real -> real, e: Extents, window: Window, scale: real)
    requires scale > 0.0
    ensures var left, top := Physical(e.frame.x, scale), Physical(e.frame.y, scale);
      var x, y := Local(round, e.glyph.Right(), left, scale), Local(round, e.glyph.y, top, scale);
      Shown(round, e, window, scale) <==>
        0.0 <= x <= window.width && 0.0 <= y && y + round(Logical(e.glyph.height, scale)) <= window.height
  {
    LocalIs(round, e.glyph.x + e.glyph.width, e.frame.x, scale);
    LocalIs(round, e.glyph.y, e.frame.y, scale);
    LogicalIs(round, e.glyph.height, scale);
    hide Local, Placed, Logical, Physical;
  }

  lemma LocalIs(round: real -> real, v: real, origin: real, scale: real)
    requires scale > 0.0
    ensures Local(round, v, Physical(origin, scale), scale) == Placed(round, v, origin, scale)
  {
  }

  lemma LogicalIs(round: real -> real, v: real, scale: real)
    requires scale > 0.0
    ensures round(Logical(v, scale)) == Placed(round, v, 0.0, scale)
  {
    assert v - 0.0 * scale == v;
  }

  /** The guards in the order they are made. */
  lemma CalibratedOn(round: real -> real, e: Extents, window: Window, monitors: seq<Monitor>, caret: int)
    requires OutputScale(e, window, monitors, caret).Some?
    ensures var scale := OutputScale(e, window, monitors, caret).value;
      var left, top := Physical(e.frame.x, scale), Physical(e.frame.y, scale);
      var x, y := Local(round, e.glyph.Right(), left, scale), Local(round, e.glyph.y, top, scale);
      var reference := if e.page.Some? then e.page.value else e.document;
      Calibrated(round, e, window, monitors, caret).Some? <==>
        && Abs(reference.width / e.frame.width - scale) <= SCALE_TOLERANCE && InsideOf(e.field, e.document)
        && (e.page.Some? ==> IsRect(e.page.value) && InsideOf(e.document, e.page.value)) && Bound(e, scale).Some?
        && 0.0 <= x <= window.width && 0.0 <= y && y + round(Logical(e.glyph.height, scale)) <= window.height
  {
    hide IsRect, InsideOf, OutputScale, Bound, FollowingX, Local, Logical, Physical;
  }

  lemma NoOutput(round: real -> real, e: Extents, window: Window, monitors: seq<Monitor>, caret: int)
    ensures OutputScale(e, window, monitors, caret).None? || |Matching(monitors, window.monitor)| != 1 ==>
      Calibrated(round, e, window, monitors, caret).None?
  {
  }

  lemma RepliesOn(round: real -> real, e: Extents, window: Window, monitors: seq<Monitor>, caret: int, i: nat)
    requires i < |monitors| && Only(monitors, window.monitor, i)
    ensures Calibrated(round, e, window, monitors, caret).Some? <==> Proven(round, e, window, monitors[i], caret)
  {
    hide Matching, Only, IsRect, Measured, InsideOf, Encloses, OutputScale, Bound, Bounded, FollowingX, Local, Logical, Physical, Calibrated;
    OutputIs(e, window, monitors, caret, i);
    SameTests(e, monitors[i].scale);
    var scale := monitors[i].scale;
    if OutputScale(e, window, monitors, caret) == Some(scale) {
      ShownIs(round, e, window, scale);
      var reference := if e.page.Some? then e.page.value else e.document;
      assert Scaled(e, window, scale) <==> Abs(reference.width / e.frame.width - scale) <= SCALE_TOLERANCE;
      assert Nested(e) <==> InsideOf(e.field, e.document) && (e.page.Some? ==> IsRect(e.page.value) && InsideOf(e.document, e.page.value));
      assert Proven(round, e, window, monitors[i], caret) <==>
        Scaled(e, window, scale) && Nested(e) && Bounded(e, scale) && Shown(round, e, window, scale);
      CalibratedOn(round, e, window, monitors, caret);
    } else {
      NoOutput(round, e, window, monitors, caret);
    }
  }

  /** The next glyph starts on the caret's line, no more than a pixel before the caret, and is measured. */
  ghost predicate Follows(next: Rect, glyph: Rect) {
    && Measured(next) && -glyph.height / 2.0 <= next.y - glyph.y <= glyph.height / 2.0
    && next.x >= glyph.x + glyph.width - 1.0
  }

  /** A reply names where the next glyph begins exactly when that is on the caret's line, in the bound and right of the caret. */
  lemma FollowingIff(round: real -> real, e: Extents, window: Window, monitors: seq<Monitor>, caret: int)
    requires Calibrated(round, e, window, monitors, caret).Some?
    ensures var r := Calibrated(round, e, window, monitors, caret).value;
      r.scale > 0.0 && r.following == (
        if e.following.None? || !Follows(e.following.value, e.glyph) then None
        else
          var at := Placed(round, e.following.value.x, e.frame.x, r.scale);
          if at <= r.bound.Right() + 1.0 && r.x < at <= window.width then Some(at) else None)
  {
    hide Bound, Matching, InsideOf, Encloses, Local, Placed, Logical, Physical;
    var scale := Calibrated(round, e, window, monitors, caret).value.scale;
    SameTests(e, scale);
    if e.following.Some? {
      LocalIs(round, e.following.value.x, e.frame.x, scale);
    }
  }
}
