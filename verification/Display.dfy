/**
 The display as an object with its canvases, its damage box and its render queue: every method does what the
 function of `RenderQueue` named in its contract says.
 */
module Display {
  import opened Bytes
  import opened RenderQueue
  import opened Screen

  class Display {
    const pics: Pictures
    var fbWidth: nat
    var fbHeight: nat
    var clipViewport: bool
    var viewportLoc: View
    var damageBounds: Box
    var target: Canvas
    var backbuffer: Canvas
    var renderQ: seq<Action>
    var loaded: map<nat, (nat, nat)>   // the images that are complete, with their sizes
    var armed: set<nat>                // the images with a listener
    var flushing: bool
    var flushes: nat                   // how often `onflush` was called
    ghost var applied: seq<Action>
    ghost var issued: seq<Action>

    ghost function State(): DisplayState
      reads this
    {
      DisplayState(Shown(), renderQ, loaded, armed, flushing, flushes, applied, issued)
    }

    function Shown(): Screen
      reads this
    {
      Screen(fbWidth, fbHeight, clipViewport, viewportLoc, damageBounds, target, backbuffer)
    }

    constructor (pics: Pictures)
      ensures State() == Initial() && this.pics == pics
    {
      this.pics := pics;
      fbWidth, fbHeight, clipViewport := 0, 0, false;
      viewportLoc, damageBounds := View(0, 0, 0, 0), Box(0, 0, 300, 150);
      target, backbuffer := Cleared(0, 0), Cleared(300, 150);
      renderQ, loaded, armed, flushing, flushes := [], map[], {}, false, 0;
      applied, issued := [], [];
    }

    /** `_damage`. */
    method Damage(x: int, y: int, w: int, h: int)
      modifies `damageBounds
      ensures Shown() == Damaged(old(Shown()), x, y, w, h)
    {
      if x < damageBounds.left {
        damageBounds := damageBounds.(left := x);
      }
      if y < damageBounds.top {
        damageBounds := damageBounds.(top := y);
      }
      if x + w > damageBounds.right {
        damageBounds := damageBounds.(right := x + w);
      }
      if y + h > damageBounds.bottom {
        damageBounds := damageBounds.(bottom := y + h);
      }
    }

    // ---- Executing ----------------------------------------------------------------------------------

    /** The second half of `flip`. */
    method FlipNow()
      modifies `target, `damageBounds, `applied
      ensures State() == Execute(pics, old(State()), FlipAction)
    {
      var x, y := damageBounds.left, damageBounds.top;
      var w, h := damageBounds.right - x, damageBounds.bottom - y;
      var vx, vy := x - viewportLoc.x, y - viewportLoc.y;
      if vx < 0 {
        w := w + vx;
        x := x - vx;
        vx := 0;
      }
      if vy < 0 {
        h := h + vy;
        y := y - vy;
        vy := 0;
      }
      if vx + w > viewportLoc.w {
        w := viewportLoc.w - vx;
      }
      if vy + h > viewportLoc.h {
        h := viewportLoc.h - vy;
      }
      if w > 0 && h > 0 {
        target := Drawn(target, backbuffer, x, y, w, h, vx, vy);
      }
      damageBounds := EMPTY;
      applied := applied + [FlipAction];
    }

    method FillNow(x: int, y: int, w: nat, h: nat, color: seq<Byte>, view: bool)
      modifies `backbuffer, `damageBounds, `applied
      ensures State() == Execute(pics, old(State()), FillAction(x, y, w, h, color, view))
    {
      backbuffer := Painted(backbuffer, x, y, w, h, FillPaint(color));
      Damage(x, y, w, h);
      applied := applied + [FillAction(x, y, w, h, color, view)];
    }

    method CopyNow(oldX: int, oldY: int, x: int, y: int, w: nat, h: nat)
      modifies `backbuffer, `damageBounds, `applied
      ensures State() == Execute(pics, old(State()), CopyAction(oldX, oldY, x, y, w, h))
    {
      backbuffer := Drawn(backbuffer, backbuffer, oldX, oldY, w, h, x, y);
      Damage(x, y, w, h);
      applied := applied + [CopyAction(oldX, oldY, x, y, w, h)];
    }

    method BlitNow(x: int, y: int, w: nat, h: nat, data: seq<Byte>)
      modifies `backbuffer, `damageBounds, `applied
      ensures State() == Execute(pics, old(State()), BlitAction(x, y, w, h, data))
    {
      backbuffer := Painted(backbuffer, x, y, w, h, BlitPaint(data, w, x, y));
      Damage(x, y, w, h);
      applied := applied + [BlitAction(x, y, w, h, data)];
    }

    /** `drawImage`, of an image with the size that was announced. */
    method DrawImage(img: nat, x: int, y: int, w: nat, h: nat)
      modifies `backbuffer, `damageBounds, `applied
      ensures State() == Execute(pics, old(State()), ImageAction(x, y, w, h, img))
    {
      backbuffer := Painted(backbuffer, x, y, w, h, ImagePaint(pics, img, x, y));
      Damage(x, y, w, h);
      applied := applied + [ImageAction(x, y, w, h, img)];
    }

    /** The switch of `_scanRenderQ`, for an action that is ready. */
    method ExecuteAction(a: Action)
      modifies `target, `backbuffer, `damageBounds, `applied
      ensures State() == Execute(pics, old(State()), a)
    {
      match a
      case FlipAction => FlipNow();
      case CopyAction(oldX, oldY, x, y, w, h) => CopyNow(oldX, oldY, x, y, w, h);
      case FillAction(x, y, w, h, color, view) => FillNow(x, y, w, h, color, view);
      case BlitAction(x, y, w, h, data) => BlitNow(x, y, w, h, data);
      case ImageAction(x, y, w, h, img) => DrawImage(img, x, y, w, h);
    }

    // ---- The queue ----------------------------------------------------------------------------------

    method ScanRenderQ()
      modifies this
      ensures State() == Scan(pics, old(State()))
    {
      ghost var all := Scan(pics, State());
      while |renderQ| > 0
        invariant Scan(pics, State()) == all
        decreases |renderQ|
      {
        var a := renderQ[0];
        if a.ImageAction? {
          if a.img !in loaded {
            armed := armed + {a.img};
            return;
          }
          if loaded[a.img] != (a.w, a.h) {
            return;  // not the image that was announced
          }
        }
        ExecuteAction(a);
        renderQ := renderQ[1..];
      }
      if flushing {
        flushing := false;
        flushes := flushes + 1;
      }
    }

    method RenderQPush(a: Action)
      modifies this
      ensures State() == Push(pics, old(State()), a)
    {
      renderQ := renderQ + [a];
      if |renderQ| == 1 {
        ScanRenderQ();
      }
    }

    /** `pending`. */
    method Pending() returns (busy: bool)
      ensures busy <==> State().queue != []
    {
      busy := |renderQ| > 0;
    }

    method FlushQueue()
      modifies `flushing, `flushes
      ensures State() == Handle(pics, old(State()), Flush)
    {
      if |renderQ| == 0 {
        flushes := flushes + 1;
      } else {
        flushing := true;
      }
    }

    /** An image is there; the listener, if it has one, is taken off and scans the queue. */
    method Loaded(img: nat, w: nat, h: nat)
      requires Possible(State(), Load(img, w, h))
      modifies this
      ensures State() == Handle(pics, old(State()), Load(img, w, h))
    {
      var listening := img in armed;
      loaded := loaded[img := (w, h)];
      armed := armed - {img};
      if listening {
        ScanRenderQ();
      }
    }

    /** An image turns out to be none; no listener is called. */
    method Spoiled(img: nat)
      requires Possible(State(), Spoil(img))
      modifies `loaded
      ensures State() == Handle(pics, old(State()), Spoil(img))
    {
      loaded := loaded[img := (0, 0)];
    }

    /** Not a method of the source: the receive buffer is written while the queue holds views of it. */
    method BufferWritten(colors: nat -> seq<Byte>)
      modifies `renderQ
      ensures State() == Handle(pics, old(State()), Overwrite(colors))
    {
      renderQ := Overwritten(renderQ, colors);
    }

    // ---- Calls --------------------------------------------------------------------------------------

    method FlipView()
      modifies this
      ensures State() == Flip(pics, old(State()))
    {
      issued := issued + [FlipAction];
      if |renderQ| != 0 {
        RenderQPush(FlipAction);
      } else {
        FlipNow();
      }
    }

    /** The colour is kept as it was given, a view of the receive buffer included. */
    method FillRect(x: int, y: int, w: nat, h: nat, color: seq<Byte>, view: bool)
      modifies this
      ensures State() == Handle(pics, old(State()), Call(FillAction(x, y, w, h, color, view)))
    {
      var a := FillAction(x, y, w, h, color, view);
      issued := issued + [a];
      if |renderQ| != 0 {
        RenderQPush(a);
      } else {
        FillNow(x, y, w, h, color, view);
      }
    }

    method CopyImage(oldX: int, oldY: int, x: int, y: int, w: nat, h: nat)
      modifies this
      ensures State() == Handle(pics, old(State()), Call(CopyAction(oldX, oldY, x, y, w, h)))
    {
      var a := CopyAction(oldX, oldY, x, y, w, h);
      issued := issued + [a];
      if |renderQ| != 0 {
        RenderQPush(a);
      } else {
        CopyNow(oldX, oldY, x, y, w, h);
      }
    }

    method ImageRect(x: int, y: int, w: nat, h: nat, img: nat)
      modifies this
      ensures State() == Handle(pics, old(State()), Call(ImageAction(x, y, w, h, img)))
    {
      if w == 0 || h == 0 {
        return;
      }
      issued := issued + [ImageAction(x, y, w, h, img)];
      RenderQPush(ImageAction(x, y, w, h, img));
    }

    method BlitImage(x: int, y: int, w: nat, h: nat, buffer: seq<Byte>, offset: nat)
      requires offset + w * h * 4 <= |buffer|
      modifies this
      ensures State() == Handle(pics, old(State()), BlitCall(x, y, w, h, buffer, offset))
    {
      var data := buffer[offset..offset + w * h * 4];
      issued := issued + [BlitAction(x, y, w, h, data)];
      if |renderQ| != 0 {
        RenderQPush(BlitAction(x, y, w, h, buffer[..w * h * 4]));
      } else {
        BlitNow(x, y, w, h, data);
      }
    }

    // ---- The viewport -------------------------------------------------------------------------------

    /** The movement in one direction, clamped to the framebuffer. */
    method Clamp(delta: int, at: int, size: nat, fb: nat, guarded: bool) returns (d: int)
      ensures d == Delta(delta, clipViewport, at, size, fb, guarded)
    {
      d := delta;
      if !clipViewport {
        d := -(size as int);  // as far back as it goes; the checks below stop it at the edge
      }
      var end := at + size - 1;
      if (guarded ==> d < 0) && at + d < 0 {
        d := -at;
      }
      if end + d >= fb {
        d := d - (end + d - fb + 1);
      }
    }

    method ViewportChangePos(deltaX: int, deltaY: int)
      modifies this
      ensures State() == ChangePos(pics, old(State()), deltaX, deltaY)
    {
      var dx := Clamp(deltaX, viewportLoc.x, viewportLoc.w, fbWidth, true);
      var dy := Clamp(deltaY, viewportLoc.y, viewportLoc.h, fbHeight, false);
      if dx == 0 && dy == 0 {
        return;
      }
      MoveView(dx, dy);
      assert State() == old(State()).(screen := Moved(old(Shown()), deltaX, deltaY));
      FlipView();
    }

    method MoveView(dx: int, dy: int)
      modifies `viewportLoc, `damageBounds
      ensures var s := old(Shown());
              State() == old(State()).(screen := AllDamaged(s.(vp := s.vp.(x := s.vp.x + dx, y := s.vp.y + dy))))
    {
      viewportLoc := viewportLoc.(x := viewportLoc.x + dx, y := viewportLoc.y + dy);
      Damage(viewportLoc.x, viewportLoc.y, viewportLoc.w, viewportLoc.h);
    }

    method ViewportChangeSize(width: nat, height: nat)
      modifies this
      ensures State() == ChangeSize(pics, old(State()), width, height)
    {
      var w, h := width, height;
      if !clipViewport {
        w, h := fbWidth, fbHeight;
      }
      if w > fbWidth {
        w := fbWidth;
      }
      if h > fbHeight {
        h := fbHeight;
      }
      if viewportLoc.w != w || viewportLoc.h != h {
        viewportLoc := viewportLoc.(w := w, h := h);
        target := Cleared(w, h);
        ViewportChangePos(0, 0);
        Damage(viewportLoc.x, viewportLoc.y, viewportLoc.w, viewportLoc.h);
        FlipView();
      }
    }

    method Resize(width: nat, height: nat)
      modifies this
      ensures State() == Handle(pics, old(State()), ResizeFb(width, height))
    {
      SetFramebuffer(width, height);
      ghost var d := old(State()).(screen := WithFramebuffer(old(Shown()), width, height));
      assert State() == d;
      Readjust();
      assert State() == Adjust(pics, d);
    }

    method SetFramebuffer(width: nat, height: nat)
      modifies `fbWidth, `fbHeight, `backbuffer
      ensures State() == old(State()).(screen := WithFramebuffer(old(Shown()), width, height))
    {
      fbWidth, fbHeight := width, height;
      if backbuffer.w != width || backbuffer.h != height {
        backbuffer := Resized(backbuffer, width, height);
      }
    }

    /** Readjusts the viewport, which may be incorrectly sized and positioned. */
    method Readjust()
      modifies this
      ensures State() == Adjust(pics, old(State()))
    {
      ViewportChangeSize(viewportLoc.w, viewportLoc.h);
      ViewportChangePos(0, 0);
    }

    /** The setter of `clipViewport`. */
    method SetClipViewport(viewport: bool)
      modifies this
      ensures State() == Handle(pics, old(State()), Clip(viewport))
    {
      clipViewport := viewport;
      ghost var d := old(State()).(screen := old(Shown()).(clip := viewport));
      assert State() == d;
      Readjust();
      assert State() == Adjust(pics, d);
    }
  }
}
