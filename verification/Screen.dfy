/**
 The two canvases of `html/static/js/core/display.js`: drawing goes to a hidden backbuffer, and a flip copies what
 was damaged since the last one to the visible target, which shows the part of the framebuffer under the viewport.
 Pixels are opaque: drawing one replaces what was there.
 */
module Screen {
  import opened Bytes

  type Pixel = seq<Byte>

  const CLEAR: Pixel := [0, 0, 0, 0]

  datatype Canvas = Canvas(w: nat, h: nat, at: (int, int) -> Pixel)

  predicate Within(px: int, py: int, x: int, y: int, w: int, h: int) {
    x <= px < x + w && y <= py < y + h
  }

  /** Setting the size of a canvas clears it. */
  function Cleared(w: nat, h: nat): Canvas {
    Canvas(w, h, (px, py) => CLEAR)
  }

  /** Painting a rectangle of a canvas. */
  function Painted(c: Canvas, x: int, y: int, w: int, h: int, paint: (int, int) -> Pixel): Canvas {
    Canvas(c.w, c.h, (px, py) => if Within(px, py, x, y, w, h) then paint(px, py) else c.at(px, py))
  }

  /** `drawImage` from one canvas to another: pixels outside the source are not drawn. */
  function Drawn(to: Canvas, c: Canvas, x: int, y: int, w: int, h: int, tx: int, ty: int): Canvas {
    Painted(to, tx, ty, w, h,
      (px, py) => if Within(px - tx + x, py - ty + y, 0, 0, c.w, c.h) then c.at(px - tx + x, py - ty + y)
        else to.at(px, py))
  }

  /** A canvas of another size with the old image put back. */
  function Resized(c: Canvas, w: nat, h: nat): Canvas {
    if c.w == w && c.h == h then c
    else Canvas(w, h, (px, py) => if Within(px, py, 0, 0, c.w, c.h) then c.at(px, py) else CLEAR)
  }

  /** The damaged box; empty boxes have their edges the wrong way round. */
  datatype Box = Box(left: int, top: int, right: int, bottom: int)
  {
    predicate Has(px: int, py: int) {
      left <= px < right && top <= py < bottom
    }
  }

  const EMPTY := Box(65535, 65535, 0, 0)

  datatype View = View(x: int, y: int, w: nat, h: nat)
  {
    predicate Has(px: int, py: int) {
      Within(px, py, x, y, w, h)
    }
  }

  datatype Screen = Screen(fbW: nat, fbH: nat, clip: bool, vp: View, damage: Box, target: Canvas, back: Canvas)

  function Min(a: int, b: int): int {
    if a < b then a else b
  }

  function Max(a: int, b: int): int {
    if a > b then a else b
  }

  // ---- The operations -------------------------------------------------------------------------------

  /** `_damage`. */
  function Damaged(s: Screen, x: int, y: int, w: int, h: int): Screen {
    var d := s.damage;
    s.(damage := Box(Min(d.left, x), Min(d.top, y), Max(d.right, x + w), Max(d.bottom, y + h)))
  }

  function AllDamaged(s: Screen): Screen {
    Damaged(s, s.vp.x, s.vp.y, s.vp.w, s.vp.h)
  }

  /** A drawing call, once it is executed: paints the backbuffer and damages what it painted. */
  function Draw(s: Screen, x: int, y: int, w: int, h: int, paint: (int, int) -> Pixel): Screen {
    Damaged(s.(back := Painted(s.back, x, y, w, h, paint)), x, y, w, h)
  }

  function CopyWithin(s: Screen, oldX: int, oldY: int, x: int, y: int, w: int, h: int): Screen {
    Damaged(s.(back := Drawn(s.back, s.back, oldX, oldY, w, h, x, y)), x, y, w, h)
  }

  /** An executed `flip`: start and length of the damage under the viewport, in one direction. */
  function Span(from: int, to: int, at: int, size: int): (r: (int, int)) {
    var v := from - at;
    var w := to - from;
    var (x, v', w') := if v < 0 then (from - v, 0, w + v) else (from, v, w);
    (x, if v' + w' > size then size - v' else w')
  }

  function Flipped(s: Screen): Screen {
    var (x, w) := Span(s.damage.left, s.damage.right, s.vp.x, s.vp.w);
    var (y, h) := Span(s.damage.top, s.damage.bottom, s.vp.y, s.vp.h);
    var target := if w > 0 && h > 0 then Drawn(s.target, s.back, x, y, w, h, x - s.vp.x, y - s.vp.y) else s.target;
    s.(target := target, damage := EMPTY)
  }

  /** How far `viewportChangePos` moves the viewport in one direction; the check on the near side is guarded by the
      sign of the movement in one direction only. */
  function Delta(delta: int, clip: bool, at: int, size: nat, fb: nat, guarded: bool): int {
    var d: int := if clip then delta else -(size as int);
    var d' := if (guarded ==> d < 0) && at + d < 0 then -at else d;
    if at + size - 1 + d' >= fb then d' - (at + size - 1 + d' - fb + 1) else d'
  }

  function DeltaX(s: Screen, delta: int): int {
    Delta(delta, s.clip, s.vp.x, s.vp.w, s.fbW, true)
  }

  function DeltaY(s: Screen, delta: int): int {
    Delta(delta, s.clip, s.vp.y, s.vp.h, s.fbH, false)
  }

  predicate Moves(s: Screen, deltaX: int, deltaY: int) {
    DeltaX(s, deltaX) != 0 || DeltaY(s, deltaY) != 0
  }

  /** `viewportChangePos` before its flip, when it moves the viewport. */
  function Moved(s: Screen, deltaX: int, deltaY: int): Screen {
    AllDamaged(s.(vp := s.vp.(x := s.vp.x + DeltaX(s, deltaX), y := s.vp.y + DeltaY(s, deltaY))))
  }

  /** The size that `viewportChangeSize` settles on. */
  function SizeFor(s: Screen, w: nat, h: nat): (nat, nat) {
    if !s.clip then (s.fbW, s.fbH)
    else (if w > s.fbW then s.fbW else w, if h > s.fbH then s.fbH else h)
  }

  /** The viewport and the target get another size; nothing is damaged yet. */
  function Sized(s: Screen, w: nat, h: nat): Screen {
    s.(vp := s.vp.(w := w, h := h), target := Cleared(w, h))
  }

  /** `resize` before it adjusts the viewport. */
  function WithFramebuffer(s: Screen, w: nat, h: nat): Screen {
    s.(fbW := w, fbH := h, back := Resized(s.back, w, h))
  }

  // ---- What they keep -------------------------------------------------------------------------------

  /** The viewport lies in the framebuffer, and the canvases have the sizes they need. */
  ghost predicate Fits(s: Screen) {
    && 0 <= s.vp.x && s.vp.x + s.vp.w <= s.fbW && 0 <= s.vp.y && s.vp.y + s.vp.h <= s.fbH
    && s.fbW <= s.back.w && s.fbH <= s.back.h
    && s.target.w == s.vp.w && s.target.h == s.vp.h
  }

  /** The target shows the backbuffer's pixel. */
  ghost predicate Shows(s: Screen, px: int, py: int) {
    s.target.at(px - s.vp.x, py - s.vp.y) == s.back.at(px, py)
  }

  /** Outside the damaged box the target shows what is in the backbuffer. */
  ghost predicate Agrees(s: Screen) {
    forall px, py :: s.vp.Has(px, py) && !s.damage.Has(px, py) ==> Shows(s, px, py)
  }

  ghost predicate FullyAgrees(s: Screen) {
    forall px, py :: s.vp.Has(px, py) ==> Shows(s, px, py)
  }

  lemma DrawAgrees(s: Screen, x: int, y: int, w: int, h: int, paint: (int, int) -> Pixel)
    requires Fits(s) && Agrees(s)
    ensures Fits(Draw(s, x, y, w, h, paint)) && Agrees(Draw(s, x, y, w, h, paint))
  {
    var s' := Draw(s, x, y, w, h, paint);
    forall px, py | s'.vp.Has(px, py) && !s'.damage.Has(px, py)
      ensures Shows(s', px, py)
    {
      assert !s.damage.Has(px, py) && !Within(px, py, x, y, w, h);
      assert Shows(s, px, py);
    }
  }

  lemma CopyAgrees(s: Screen, oldX: int, oldY: int, x: int, y: int, w: int, h: int)
    requires Fits(s) && Agrees(s)
    ensures Fits(CopyWithin(s, oldX, oldY, x, y, w, h)) && Agrees(CopyWithin(s, oldX, oldY, x, y, w, h))
  {
    var s' := CopyWithin(s, oldX, oldY, x, y, w, h);
    forall px, py | s'.vp.Has(px, py) && !s'.damage.Has(px, py)
      ensures Shows(s', px, py)
    {
      assert !s.damage.Has(px, py) && !Within(px, py, x, y, w, h);
      assert Shows(s, px, py);
    }
  }

  lemma SpanIsIntersection(from: int, to: int, at: int, size: nat, p: int)
    ensures var (x, w) := Span(from, to, at, size);
            && (x <= p < x + w <==> from <= p < to && at <= p < at + size)
            && (w > 0 ==> at <= x && x + w <= at + size)
  {
  }

  /** After an executed flip the target shows the whole viewport, as if all of it had been copied. */
  lemma FlipShowsAll(s: Screen)
    requires Fits(s) && Agrees(s)
    ensures Fits(Flipped(s)) && FullyAgrees(Flipped(s))
  {
    var s' := Flipped(s);
    forall px, py | s.vp.Has(px, py)
      ensures Shows(s', px, py)
    {
      FlipShows(s, px, py);
    }
  }

  lemma DrawnAt(to: Canvas, c: Canvas, x: int, y: int, w: int, h: int, tx: int, ty: int, px: int, py: int)
    requires Within(px, py, tx, ty, w, h)
    ensures var (sx, sy) := (px - tx + x, py - ty + y);
            Drawn(to, c, x, y, w, h, tx, ty).at(px, py) ==
            if Within(sx, sy, 0, 0, c.w, c.h) then c.at(sx, sy) else to.at(px, py)
  {
  }

  lemma FlipShows(s: Screen, px: int, py: int)
    requires Fits(s) && s.vp.Has(px, py) && (!s.damage.Has(px, py) ==> Shows(s, px, py))
    ensures Shows(Flipped(s), px, py)
  {
    SpanIsIntersection(s.damage.left, s.damage.right, s.vp.x, s.vp.w, px);
    SpanIsIntersection(s.damage.top, s.damage.bottom, s.vp.y, s.vp.h, py);
    var (x, w) := Span(s.damage.left, s.damage.right, s.vp.x, s.vp.w);
    var (y, h) := Span(s.damage.top, s.damage.bottom, s.vp.y, s.vp.h);
    if s.damage.Has(px, py) {
      var target := Drawn(s.target, s.back, x, y, w, h, x - s.vp.x, y - s.vp.y);
      DrawnAt(s.target, s.back, x, y, w, h, x - s.vp.x, y - s.vp.y, px - s.vp.x, py - s.vp.y);
    }
  }

  /** A fully damaged viewport agrees trivially. */
  lemma DamagedAgrees(s: Screen)
    ensures Agrees(AllDamaged(s))
  {
  }

  /** Moving keeps the viewport inside: even one that was left outside by a resize comes back. */
  lemma DeltaFits(delta: int, clip: bool, at: int, size: nat, fb: nat, guarded: bool)
    requires 0 <= at && size <= fb
    ensures var d := Delta(delta, clip, at, size, fb, guarded); 0 <= at + d && at + d + size <= fb
  {
  }

  /** The sizes fit; only the position may be wrong. */
  ghost predicate Nearly(s: Screen) {
    && 0 <= s.vp.x && 0 <= s.vp.y && s.vp.w <= s.fbW && s.vp.h <= s.fbH
    && s.fbW <= s.back.w && s.fbH <= s.back.h
    && s.target.w == s.vp.w && s.target.h == s.vp.h
  }

  lemma MovedFits(s: Screen, deltaX: int, deltaY: int)
    requires Nearly(s)
    ensures Fits(Moved(s, deltaX, deltaY)) && Agrees(Moved(s, deltaX, deltaY))
    ensures !Moves(s, deltaX, deltaY) ==> Fits(s)
  {
    DeltaFits(deltaX, s.clip, s.vp.x, s.vp.w, s.fbW, true);
    DeltaFits(deltaY, s.clip, s.vp.y, s.vp.h, s.fbH, false);
  }

  /** A larger or smaller framebuffer keeps the pixels that both have. */
  lemma ResizedAgrees(s: Screen, w: nat, h: nat)
    requires Fits(s) && Agrees(s) && s.vp.x + s.vp.w <= w && s.vp.y + s.vp.h <= h
    ensures Fits(WithFramebuffer(s, w, h)) && Agrees(WithFramebuffer(s, w, h))
  {
    var s' := WithFramebuffer(s, w, h);
    forall px, py | s'.vp.Has(px, py) && !s'.damage.Has(px, py)
      ensures Shows(s', px, py)
    {
      assert Shows(s, px, py);
    }
  }
}
