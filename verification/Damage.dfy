/** Damage tracking: rectangles to repaint, merged as they come and dropped only once shown. */
module Damage {
  import opened Basics

  const DAMAGE_MAX: nat := 32
  const BUDGET: nat := 8

  datatype Rect = Rect(x: int, y: int, w: int, h: int)

  datatype Pixel = Pixel(x: int, y: int)

  predicate Inside(p: Pixel, r: Rect) {
    r.x <= p.x < r.x + r.w && r.y <= p.y < r.y + r.h
  }

  predicate OnScreen(width: int, height: int, p: Pixel) {
    0 <= p.x < width && 0 <= p.y < height
  }

  /** Not empty and within the screen. */
  predicate InBounds(width: int, height: int, r: Rect) {
    0 <= r.x && 0 <= r.y && 0 < r.w && 0 < r.h && r.x + r.w <= width && r.y + r.h <= height
  }

  // ----- Clipping and merging

  /** The part of a rectangle on the screen; `None`-like when it has no width or height. */
  function Clip(width: int, height: int, r: Rect): Rect {
    var a := if r.x < 0 then r.(w := r.w + r.x, x := 0) else r;
    var b := if a.y < 0 then a.(h := a.h + a.y, y := 0) else a;
    if b.x >= width || b.y >= height then Rect(0, 0, 0, 0)
    else
      b.(w := if b.x + b.w > width then width - b.x else b.w, h := if b.y + b.h > height then height - b.y else b.h)
  }

  lemma ClipOk(width: int, height: int, r: Rect)
    requires width > 0 && height > 0
    ensures var c := Clip(width, height, r);
            if c.w > 0 && c.h > 0
            then InBounds(width, height, c) && forall p :: OnScreen(width, height, p) ==> (Inside(p, r) <==> Inside(p, c))
            else forall p :: OnScreen(width, height, p) ==> !Inside(p, r)
  {
  }

  /** The rectangles overlap or share an edge. */
  predicate Touches(a: Rect, b: Rect) {
    a.x <= b.x + b.w && a.x + a.w >= b.x && a.y <= b.y + b.h && a.y + a.h >= b.y
  }

  function Min(a: int, b: int): int {
    if a < b then a else b
  }

  function Max(a: int, b: int): int {
    if a > b then a else b
  }

  /** The smallest rectangle around both. */
  function Around(a: Rect, b: Rect): Rect {
    var x, y := Min(a.x, b.x), Min(a.y, b.y);
    Rect(x, y, Max(a.x + a.w, b.x + b.w) - x, Max(a.y + a.h, b.y + b.h) - y)
  }

  /** The list without its `i`-th rectangle. */
  function Without(rs: seq<Rect>, i: nat): (r: seq<Rect>)
    requires i < |rs|
    ensures |r| == |rs| - 1
  {
    rs[..i] + rs[i + 1..]
  }

  /** The merge loop of `gui_damage_add` from rectangle `i` on. */
  function Absorb(rs: seq<Rect>, r: Rect, i: nat): (seq<Rect>, Rect)
    decreases |rs| - i
  {
    if i >= |rs| then (rs, r)
    else if Touches(r, rs[i]) then Absorb(Without(rs, i), Around(r, rs[i]), i)
    else Absorb(rs, r, i + 1)
  }

  // ----- The damage of a desktop

  datatype Desktop = Desktop(width: int, height: int, rects: seq<Rect>, full: bool, dirty: bool)

  ghost predicate DesktopOk(d: Desktop) {
    && d.width > 0 && d.height > 0 && |d.rects| <= DAMAGE_MAX && (d.full ==> d.rects == [])
    && (forall i :: 0 <= i < |d.rects| ==> InBounds(d.width, d.height, d.rects[i]))
    && (d.full || d.rects != [] ==> d.dirty)
  }

  ghost predicate CoveredBy(rs: seq<Rect>, p: Pixel) {
    exists i :: 0 <= i < |rs| && Inside(p, rs[i])
  }

  ghost predicate Covered(d: Desktop, p: Pixel) {
    d.full || CoveredBy(d.rects, p)
  }

  /** `gui_damage_add`. */
  function AddDamage(d: Desktop, r: Rect): Desktop {
    if d.full || r.w <= 0 || r.h <= 0 then d
    else
      var c := Clip(d.width, d.height, r);
      if c.w <= 0 || c.h <= 0 then d
      else if c == Rect(0, 0, d.width, d.height) then AddFull(d)
      else Join(d, c)
  }

  /** A clipped rectangle joins the list, or the list gives way to the whole screen. */
  function Join(d: Desktop, c: Rect): Desktop {
    var (rs, m) := Absorb(d.rects, c, 0);
    if |rs| >= DAMAGE_MAX then AddFull(d) else d.(rects := rs + [m], dirty := true)
  }

  function AddFull(d: Desktop): Desktop {
    d.(full := true, rects := [], dirty := true)
  }

  /** Two pixels are the same or next to each other, also over a corner. */
  predicate Neighbours(p: Pixel, q: Pixel) {
    -1 <= p.x - q.x <= 1 && -1 <= p.y - q.y <= 1
  }

  ghost predicate Meet(a: Rect, b: Rect) {
    exists p, q :: Inside(p, a) && Inside(q, b) && Neighbours(p, q)
  }

  /** Rectangles touch exactly when a pixel of one is a neighbour of a pixel of the other. */
  lemma TouchesIs(a: Rect, b: Rect)
    requires 0 < a.w && 0 < a.h && 0 < b.w && 0 < b.h
    ensures Touches(a, b) <==> Meet(a, b)
  {
    if Touches(a, b) {
      var p := Pixel(if b.x < a.x then a.x else Min(b.x, a.x + a.w - 1), if b.y < a.y then a.y else Min(b.y, a.y + a.h - 1));
      var q := Pixel(if a.x < b.x then b.x else Min(a.x, b.x + b.w - 1), if a.y < b.y then b.y else Min(a.y, b.y + b.h - 1));
      assert Inside(p, a) && Inside(q, b) && Neighbours(p, q);
    }
  }

  lemma {:induction false} AbsorbNone(rs: seq<Rect>, r: Rect, i: nat)
    requires forall j :: i <= j < |rs| ==> !Touches(r, rs[j])
    ensures Absorb(rs, r, i) == (rs, r)
    decreases |rs| - i
  {
    if i < |rs| {
      AbsorbNone(rs, r, i + 1);
    }
  }

  lemma {:induction false} AbsorbSome(rs: seq<Rect>, r: Rect, i: nat, j: nat)
    requires i <= j < |rs| && Touches(r, rs[j])
    ensures |Absorb(rs, r, i).0| < |rs|
    decreases |rs| - i
  {
    if Touches(r, rs[i]) {
      AbsorbFewer(Without(rs, i), Around(r, rs[i]), i);
    } else {
      AbsorbSome(rs, r, i + 1, j);
    }
  }

  lemma {:induction false} AbsorbFewer(rs: seq<Rect>, r: Rect, i: nat)
    ensures |Absorb(rs, r, i).0| <= |rs|
    decreases |rs| - i
  {
    if i < |rs| {
      if Touches(r, rs[i]) {
        AbsorbFewer(Without(rs, i), Around(r, rs[i]), i);
      } else {
        AbsorbFewer(rs, r, i + 1);
      }
    }
  }

  /** New damage apart from the old is listed as it is, clipped; damage that meets some of the old does not make the list longer. */
  lemma AddMerges(d: Desktop, r: Rect)
    requires DesktopOk(d) && !d.full && |d.rects| < DAMAGE_MAX && !AddDamage(d, r).full
    requires r.w > 0 && r.h > 0
    ensures var c := Clip(d.width, d.height, r);
            c.w > 0 && c.h > 0 ==>
              if forall i :: 0 <= i < |d.rects| ==> !Meet(c, d.rects[i]) then AddDamage(d, r).rects == d.rects + [c]
              else |AddDamage(d, r).rects| <= |d.rects|
  {
    var c := Clip(d.width, d.height, r);
    hide Clip, Absorb, Meet, Touches;
    if c.w > 0 && c.h > 0 {
      forall i | 0 <= i < |d.rects|
        ensures Touches(c, d.rects[i]) <==> Meet(c, d.rects[i])
      {
        TouchesIs(c, d.rects[i]);
      }
      if j :| 0 <= j < |d.rects| && Meet(c, d.rects[j]) {
        AbsorbSome(d.rects, c, 0, j);
      } else {
        AbsorbNone(d.rects, c, 0);
      }
    }
  }

  lemma WithoutCovers(rs: seq<Rect>, i: nat, p: Pixel)
    requires i < |rs|
    ensures CoveredBy(rs, p) <==> CoveredBy(Without(rs, i), p) || Inside(p, rs[i])
  {
    var w := Without(rs, i);
    if CoveredBy(rs, p) && !Inside(p, rs[i]) {
      var j :| 0 <= j < |rs| && Inside(p, rs[j]);
      assert Inside(p, w[if j < i then j else j - 1]);
    }
    if CoveredBy(w, p) {
      var j :| 0 <= j < |w| && Inside(p, w[j]);
      assert Inside(p, rs[if j < i then j else j + 1]);
    }
  }

  /** Merging keeps every pixel of the list and of the new rectangle. */
  lemma {:induction false} AbsorbCovers(rs: seq<Rect>, r: Rect, i: nat, p: Pixel)
    requires CoveredBy(rs, p) || Inside(p, r)
    ensures var (rs', m) := Absorb(rs, r, i); CoveredBy(rs', p) || Inside(p, m)
    decreases |rs| - i
  {
    if i < |rs| {
      if Touches(r, rs[i]) {
        WithoutCovers(rs, i, p);
        AbsorbCovers(Without(rs, i), Around(r, rs[i]), i, p);
      } else {
        AbsorbCovers(rs, r, i + 1, p);
      }
    }
  }

  ghost predicate AllInBounds(width: int, height: int, rs: seq<Rect>) {
    forall i :: 0 <= i < |rs| ==> InBounds(width, height, rs[i])
  }

  lemma {:induction false} AbsorbInBounds(width: int, height: int, rs: seq<Rect>, r: Rect, i: nat)
    requires AllInBounds(width, height, rs) && InBounds(width, height, r)
    ensures var (rs', m) := Absorb(rs, r, i); AllInBounds(width, height, rs') && InBounds(width, height, m) && |rs'| <= |rs|
    decreases |rs| - i
  {
    if i < |rs| {
      if Touches(r, rs[i]) {
        AbsorbInBounds(width, height, Without(rs, i), Around(r, rs[i]), i);
      } else {
        AbsorbInBounds(width, height, rs, r, i + 1);
      }
    }
  }

  /** Adding damage loses none: what was damaged and what is new is covered, by few rectangles within the screen or by the whole screen. */
  lemma AddOk(d: Desktop, r: Rect)
    requires DesktopOk(d)
    ensures DesktopOk(AddDamage(d, r))
    ensures forall p :: OnScreen(d.width, d.height, p) && (Covered(d, p) || Inside(p, r)) ==> Covered(AddDamage(d, r), p)
  {
    var c := Clip(d.width, d.height, r);
    ClipOk(d.width, d.height, r);
    hide Clip, Absorb;
    if !d.full && r.w > 0 && r.h > 0 && c.w > 0 && c.h > 0 {
      AbsorbInBounds(d.width, d.height, d.rects, c, 0);
      var (rs, m) := Absorb(d.rects, c, 0);
      forall p | OnScreen(d.width, d.height, p) && (Covered(d, p) || Inside(p, r))
        ensures Covered(AddDamage(d, r), p)
      {
        AbsorbCovers(d.rects, c, 0, p);
        if |rs| < DAMAGE_MAX {
          Appended(rs, m, p);
        }
      }
    }
  }

  /** Rectangle `r`, which is not empty, lies within `box`. */
  predicate Within(r: Rect, box: Rect) {
    0 < r.w && 0 < r.h && box.x <= r.x && box.y <= r.y && r.x + r.w <= box.x + box.w && r.y + r.h <= box.y + box.h
  }

  ghost predicate AllWithin(rs: seq<Rect>, box: Rect) {
    forall i :: 0 <= i < |rs| ==> Within(rs[i], box)
  }

  lemma {:induction false} AbsorbWithin(rs: seq<Rect>, r: Rect, i: nat, box: Rect)
    requires AllWithin(rs, box) && Within(r, box)
    ensures var (rs', m) := Absorb(rs, r, i); AllWithin(rs', box) && Within(m, box) && |rs'| <= |rs|
    decreases |rs| - i
  {
    if i < |rs| {
      if Touches(r, rs[i]) {
        AbsorbWithin(Without(rs, i), Around(r, rs[i]), i, box);
      } else {
        AbsorbWithin(rs, r, i + 1, box);
      }
    }
  }

  /**
   * Adding damage adds no more than it must: a rectangle off the screen adds none, damage stays within any box that holds the
   * old damage and the new, and the whole screen is damaged only if the new rectangle is the whole screen or the list is full.
   */
  lemma AddFrugal(d: Desktop, r: Rect, box: Rect)
    requires DesktopOk(d) && !d.full
    ensures (forall p :: OnScreen(d.width, d.height, p) ==> !Inside(p, r)) ==> AddDamage(d, r) == d
    ensures AllWithin(d.rects, box) && Within(Clip(d.width, d.height, r), box) && !AddDamage(d, r).full ==>
              AllWithin(AddDamage(d, r).rects, box)
    ensures AddDamage(d, r).full ==>
              |d.rects| == DAMAGE_MAX || forall p :: OnScreen(d.width, d.height, p) ==> Inside(p, r)
    ensures |AddDamage(d, r).rects| <= |d.rects| + 1
  {
    var c := Clip(d.width, d.height, r);
    ClipOk(d.width, d.height, r);
    hide Clip, Absorb;
    if r.w > 0 && r.h > 0 && c.w > 0 && c.h > 0 {
      AbsorbInBounds(d.width, d.height, d.rects, c, 0);
      assert Inside(Pixel(c.x, c.y), c) && OnScreen(d.width, d.height, Pixel(c.x, c.y));
      if AllWithin(d.rects, box) && Within(c, box) {
        AbsorbWithin(d.rects, c, 0, box);
      }
    }
  }

  lemma Appended(rs: seq<Rect>, m: Rect, p: Pixel)
    ensures CoveredBy(rs + [m], p) <==> CoveredBy(rs, p) || Inside(p, m)
  {
    if CoveredBy(rs, p) {
      var i :| 0 <= i < |rs| && Inside(p, rs[i]);
      assert Inside(p, (rs + [m])[i]);
    }
    if Inside(p, m) {
      assert Inside(p, (rs + [m])[|rs|]);
    }
  }

  // ----- Redrawing

  /** What the runtime remembers between drawing and clearing: how much was drawn, and whether it was shown. */
  datatype Redraw = NoRedraw | Drawn(batch: nat, full: bool, shown: bool)

  /** How a redraw ends: out of time before drawing, drawn but not shown, or shown. */
  datatype Result = Skipped | Failed | Shown

  /** `runtime_service_gui_render`: at most `BUDGET` rectangles are drawn. */
  function Render(d: Desktop, late: bool): Redraw {
    if late then NoRedraw
    else if d.full then Drawn(0, true, false)
    else Drawn(if |d.rects| > BUDGET then BUDGET else |d.rects|, false, false)
  }

  /** `runtime_service_report_redraw`. */
  function Report(s: Redraw): Redraw {
    if s.NoRedraw? then s else s.(shown := true)
  }

  /** `runtime_service_gui_clear_dirty`: drops what was drawn, if it was shown. */
  function ClearDirty(d: Desktop, s: Redraw): Desktop {
    if s.NoRedraw? || !s.shown then d
    else if s.full || |d.rects| <= s.batch then d.(full := false, rects := [], dirty := false)
    else d.(rects := d.rects[s.batch..])
  }

  lemma ClearDirtyOk(d: Desktop, s: Redraw)
    requires DesktopOk(d)
    ensures DesktopOk(ClearDirty(d, s))
  {
  }

  /** One flush: draw, show if all goes well, clear. */
  function Flush(d: Desktop, r: Result): Desktop {
    var s := Render(d, r.Skipped?);
    ClearDirty(d, if r.Shown? then Report(s) else s)
  }

  /** The pixels a shown redraw has repainted. */
  ghost predicate Repainted(d: Desktop, r: Result, p: Pixel) {
    r.Shown? && (d.full || CoveredBy(d.rects[..if |d.rects| > BUDGET then BUDGET else |d.rects|], p))
  }

  lemma SplitCovers(rs: seq<Rect>, k: nat, p: Pixel)
    requires k <= |rs|
    ensures CoveredBy(rs, p) ==> CoveredBy(rs[..k], p) || CoveredBy(rs[k..], p)
  {
    if CoveredBy(rs, p) {
      var i :| 0 <= i < |rs| && Inside(p, rs[i]);
      assert i < k ==> Inside(p, rs[..k][i]);
      assert i >= k ==> Inside(p, rs[k..][i - k]);
    }
  }

  /** A flush keeps the damage in order and drops only pixels that a shown redraw has repainted. */
  lemma FlushOk(d: Desktop, r: Result)
    requires DesktopOk(d)
    ensures DesktopOk(Flush(d, r))
    ensures forall p :: Covered(d, p) && !Repainted(d, r, p) ==> Covered(Flush(d, r), p)
    ensures r.Shown? ==> |Flush(d, r).rects| == (if |d.rects| > BUDGET then |d.rects| - BUDGET else 0) && !Flush(d, r).full
    ensures !r.Shown? ==> Flush(d, r) == d
  {
    forall p | Covered(d, p) && !Repainted(d, r, p)
      ensures Covered(Flush(d, r), p)
    {
      SplitCovers(d.rects, if |d.rects| > BUDGET then BUDGET else |d.rects|, p);
    }
  }

  // ----- Runs

  datatype Event = Adds(r: Rect) | AddsFull | Flushes(result: Result)

  function Step(d: Desktop, e: Event): Desktop {
    match e
    case Adds(r) => AddDamage(d, r)
    case AddsFull => AddFull(d)
    case Flushes(result) => Flush(d, result)
  }

  function Run(d: Desktop, events: seq<Event>): Desktop
    decreases |events|
  {
    if |events| == 0 then d else Run(Step(d, events[0]), events[1..])
  }

  /** The pixel is out of date at the end of the run: damaged at some point, and not repainted by a shown redraw since. */
  ghost predicate Stale(d: Desktop, events: seq<Event>, p: Pixel, stale: bool)
    decreases |events|
  {
    if |events| == 0 then stale
    else
      Stale(Step(d, events[0]), events[1..], p,
            match events[0]
            case Adds(r) => stale || Inside(p, r)
            case AddsFull => true
            case Flushes(result) => stale && !Repainted(d, result, p))
  }

  /** No damage is lost over any run: every pixel out of date is covered, and the desktop is dirty so that it will be drawn. */
  lemma {:induction false} NothingLost(d: Desktop, events: seq<Event>, p: Pixel, stale: bool)
    requires DesktopOk(d) && OnScreen(d.width, d.height, p) && (stale ==> Covered(d, p))
    ensures DesktopOk(Run(d, events))
    ensures Stale(d, events, p, stale) ==> Covered(Run(d, events), p) && Run(d, events).dirty
    decreases |events|
  {
    if |events| > 0 {
      var d' := Step(d, events[0]);
      match events[0] {
        case Adds(r) => AddOk(d, r);
        case AddsFull =>
        case Flushes(result) => FlushOk(d, result);
      }
      hide AddDamage, Flush, Covered, Repainted;
      var stale' := match events[0]
        case Adds(r) => stale || Inside(p, r)
        case AddsFull => true
        case Flushes(result) => stale && !Repainted(d, result, p);
      NothingLost(d', events[1..], p, stale');
    }
  }

  /** Four shown redraws in a row clear any damage. */
  lemma SoonClean(d: Desktop)
    requires DesktopOk(d)
    ensures var e := Flush(Flush(Flush(Flush(d, Shown), Shown), Shown), Shown); e.rects == [] && !e.full
  {
    hide Flush;
    FlushOk(d, Shown);
    FlushOk(Flush(d, Shown), Shown);
    FlushOk(Flush(Flush(d, Shown), Shown), Shown);
    FlushOk(Flush(Flush(Flush(d, Shown), Shown), Shown), Shown);
  }

  // ----- The desktop in memory

  class Compositor {
    const width: int
    const height: int
    const rects: array<Rect>
    var count: nat
    var full: bool
    var dirty: bool
    var redraw: Redraw

    ghost predicate Valid()
      reads this, rects
    {
      rects.Length == DAMAGE_MAX && count <= DAMAGE_MAX && DesktopOk(State())
    }

    ghost function State(): Desktop
      reads this, rects
    {
      Desktop(width, height, if count <= rects.Length then rects[..count] else [], full, dirty)
    }

    constructor (fbWidth: int, fbHeight: int)
      requires fbWidth > 0 && fbHeight > 0
      ensures Valid() && fresh(rects) && State() == Desktop(fbWidth, fbHeight, [], false, false) && redraw == NoRedraw
    {
      width, height, rects := fbWidth, fbHeight, new Rect[DAMAGE_MAX](_ => Rect(0, 0, 0, 0));
      count, full, dirty, redraw := 0, false, false, NoRedraw;
    }

    /** Removes rectangle `i`, shifting those after it. */
    method Remove(i: nat)
      requires rects.Length == DAMAGE_MAX && i < count <= DAMAGE_MAX
      modifies this`count, rects
      ensures count == old(count) - 1 && rects[..count] == Without(old(rects[..count]), i)
    {
      var k := i;
      while k + 1 < count
        modifies rects
        invariant i <= k < count
        invariant forall j :: 0 <= j < count ==> rects[j] == old(rects[if i <= j < k then j + 1 else j])
      {
        rects[k] := rects[k + 1];
        k := k + 1;
      }
      count := count - 1;
    }

    method Add(r: Rect)
      requires Valid()
      modifies this`count, this`full, this`dirty, rects
      ensures Valid() && State() == AddDamage(old(State()), r)
    {
      AddOk(State(), r);
      hide DesktopOk, Join;
      if full {
        return;
      }
      if r.w <= 0 || r.h <= 0 {
        return;
      }
      var x, y, w, h := r.x, r.y, r.w, r.h;
      if x < 0 {
        w, x := w + x, 0;
      }
      if y < 0 {
        h, y := h + y, 0;
      }
      if x >= width || y >= height {
        return;
      }
      var x1, y1 := x + w, y + h;
      if x1 > width {
        w := width - x;
      }
      if y1 > height {
        h := height - y;
      }
      assert Rect(x, y, w, h) == Clip(width, height, r);
      if w <= 0 || h <= 0 {
        return;
      }
      if x == 0 && y == 0 && w == width && h == height {
        full, count, dirty := true, 0, true;
        return;
      }
      Insert(Rect(x, y, w, h));
    }

    /** The merge loop, and the place of the merged rectangle at the end. */
    method Insert(c: Rect)
      requires rects.Length == DAMAGE_MAX && count <= DAMAGE_MAX
      modifies this`count, this`full, this`dirty, rects
      ensures count <= DAMAGE_MAX && State() == Join(old(State()), c)
    {
      var m := c;
      var i := 0;
      while i < count
        modifies this`count, rects
        invariant 0 <= i <= count <= DAMAGE_MAX
        invariant Absorb(rects[..count], m, i) == Absorb(old(rects[..count]), c, 0)
        decreases count - i
      {
        if Touches(m, rects[i]) {
          m := Around(m, rects[i]);
          Remove(i);
        } else {
          i := i + 1;
        }
      }
      if count >= DAMAGE_MAX {
        full, count, dirty := true, 0, true;
        return;
      }
      ghost var rs := rects[..count];
      rects[count] := m;
      count := count + 1;
      assert rects[..count] == rs + [m];
      dirty := true;
    }

    method AddAll()
      requires Valid()
      modifies this`count, this`full, this`dirty
      ensures Valid() && State() == AddFull(old(State()))
    {
      full, count, dirty := true, 0, true;
    }

    /** Draws with the count cut down to the budget, and puts the count back. */
    method Draw(late: bool)
      requires Valid()
      modifies this`count, this`redraw
      ensures Valid() && State() == old(State())
      ensures redraw == if late then old(redraw) else Render(old(State()), false)
    {
      if late {
        return;
      }
      if full {
        redraw := Drawn(0, true, false);
        return;
      }
      var original, batch := count, count;
      if batch > BUDGET {
        batch := BUDGET;
      }
      redraw := Drawn(batch, false, false);
      count := batch;
      count := original;
    }

    method ReportShown()
      modifies this`redraw
      ensures redraw == Report(old(redraw))
    {
      if redraw.NoRedraw? {
        return;
      }
      redraw := redraw.(shown := true);
    }

    method Clear()
      requires Valid()
      modifies this`count, this`full, this`dirty, this`redraw, rects
      ensures Valid() && State() == ClearDirty(old(State()), old(redraw)) && redraw == NoRedraw
    {
      ClearDirtyOk(State(), redraw);
      hide DesktopOk;
      var state := redraw;
      redraw := NoRedraw;
      if state.NoRedraw? || !state.shown {
        return;
      }
      if state.full || count <= state.batch {
        full, count, dirty := false, 0, false;
        return;
      }
      Shift(state.batch);
    }

    /** Moves the rectangles from `batch` on to the front. */
    method Shift(batch: nat)
      requires rects.Length == DAMAGE_MAX && batch < count <= DAMAGE_MAX
      modifies this`count, rects
      ensures count == old(count) - batch && rects[..count] == old(rects[..count])[batch..]
    {
      var remaining := count - batch;
      ghost var was := rects[..];
      var k := 0;
      while k < remaining
        modifies rects
        invariant 0 <= k <= remaining && rects[..k] == was[batch..batch + k] && rects[k..] == was[k..]
      {
        assert rects[k..][batch] == was[k..][batch];
        rects[k] := rects[k + batch];
        assert rects[..k + 1] == rects[..k] + [was[k + batch]];
        assert rects[k + 1..] == was[k..][1..];
        k := k + 1;
      }
      assert was[batch..batch + remaining] == was[..count][batch..];
      count := remaining;
    }

    /** One flush of the display, started with nothing pending. */
    method FlushDirty(late: bool, shown: bool)
      requires Valid() && redraw == NoRedraw
      modifies this`count, this`full, this`dirty, this`redraw, rects
      ensures Valid() && redraw == NoRedraw
      ensures State() == Flush(old(State()), if late then Skipped else if shown then Shown else Failed)
    {
      Draw(late);
      if shown {
        ReportShown();
      }
      Clear();
    }
  }
}
