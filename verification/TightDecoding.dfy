/**
 The Tight decoder as an object that is called with the receive queue and the display: every method does what the
 function of the same name in `Tight` says.
 */
module TightDecoding {
  import opened Bytes
  import opened Decoding
  import opened Pictures
  import opened Wrappers
  import P = TightPixels
  import T = Tight
  import W = Websock

  class TightDecoder {
    const inf: T.Inflater
    var ctl: Option<nat>
    var filter: Option<nat>
    var numColors: nat
    const palette: array<Byte>
    var len: nat
    var zlibs: T.Streams
    var scratch: array<Byte>

    ghost predicate Valid()
      reads this
    {
      palette.Length == 1024 && palette != scratch
    }

    /** The decoder's buffers are not the receive queue's. */
    ghost predicate Apart(sock: W.Websock)
      reads this, sock
    {
      sock.rQ != palette && sock.rQ != scratch
    }

    ghost function State(): T.Tight
      reads this, palette
      requires Valid()
    {
      T.Tight(ctl, filter, numColors, palette[..], len, zlibs)
    }

    constructor (inf: T.Inflater)
      ensures Valid() && fresh(palette) && fresh(scratch) && this.inf == inf
      ensures ctl == None && filter == None && numColors == 0 && len == 0 && zlibs == [[], [], [], []]
    {
      this.inf := inf;
      ctl, filter, numColors, len := None, None, 0, 0;
      palette := new Byte[1024](_ => 0);
      scratch := new Byte[0];
      zlibs := [[], [], [], []];
    }

    method ReadCompactLength(sock: W.Websock)
      requires sock.Valid() && |sock.Unread()| >= 3
      modifies this`len, sock`rQi
      ensures sock.Valid()
      ensures var n := T.CompactLength(old(sock.Unread()));
              len == n.0 && sock.Unread() == old(sock.Unread())[n.1..]
    {
      ghost var q := sock.Unread();
      var byte := sock.Shift8();
      len := (byte as int) % 128;
      if byte >= 128 {
        byte := sock.Shift8();
        assert byte == q[1] && sock.Unread() == q[2..];
        len := len + (byte as int) % 128 * 128;
        if byte >= 128 {
          byte := sock.Shift8();
          assert byte == q[2] && sock.Unread() == q[3..];
          len := len + (byte as int) * 16384;
        }
      }
    }

    /** `_readData`; none where the source returns null. */
    method ReadData(sock: W.Websock) returns (data: Option<seq<Byte>>)
      requires Valid() && sock.Valid()
      modifies this`len, sock`rQi
      ensures sock.Valid()
      ensures T.Read(State(), sock.Unread(), data) == T.ReadData(old(State()), old(sock.Unread()))
    {
      if len == 0 {
        var wait := sock.Lacks(3);
        if wait {
          return None;
        }
        ReadCompactLength(sock);
      }
      var wait := sock.Lacks(len);
      if wait {
        return None;
      }
      var bytes := sock.ShiftBytes(len);
      len := 0;
      return Some(bytes.Seen());
    }

    /** What `_copyFilter` and `_paletteFilter` do for the pixel data. */
    method ReadPayload(stream: nat, size: nat, sock: W.Websock) returns (data: seq<Byte>, v: Verdict)
      requires Valid() && sock.Valid() && stream < 4
      modifies this`len, this`zlibs, sock`rQi
      ensures sock.Valid()
      ensures T.Payload(State(), sock.Unread(), data, v) ==
              T.ReadPayload(inf, old(State()), stream, size, old(sock.Unread()))
    {
      if size < 12 {
        var wait := sock.Lacks(size);
        if wait {
          return [], Wait;
        }
        var bytes := sock.ShiftBytes(size);
        return bytes.Seen(), Done;
      }
      var compressed := ReadData(sock);
      if compressed.None? {
        return [], Wait;
      }
      var out := T.Inflated(inf, zlibs[stream], compressed.value, size);
      zlibs := T.AfterInflate(zlibs, stream, compressed.value, size);
      if out.None? {
        return [], Fail;
      }
      return out.value, Done;
    }

    /** `_getScratchBuffer`: at least as long as asked for. */
    method GetScratchBuffer(size: nat) returns (dest: array<Byte>)
      requires Valid()
      modifies this`scratch
      ensures Valid() && dest == scratch && dest.Length >= size && (dest == old(scratch) || fresh(dest))
    {
      if scratch.Length < size {
        scratch := new Byte[size](_ => 0);
      }
      dest := scratch;
    }

    /** `_copyFilter`. */
    method CopyFilter(stream: nat, r: Rect, sock: W.Websock, display: DisplayPort) returns (v: Verdict)
      requires Valid() && sock.Valid() && stream < 4
      modifies this`len, this`zlibs, sock`rQi, display`calls
      ensures sock.Valid()
      ensures var o := T.Copy(inf, old(State()), stream, r, old(sock.Unread()));
              && v == o.verdict && display.calls == old(display.calls) + o.calls
              && State() == o.state && sock.Unread() == o.rest
    {
      var uncompressedSize := r.w * r.h * 3;
      if uncompressedSize == 0 {
        return Done;
      }
      var data;
      data, v := ReadPayload(stream, uncompressedSize, sock);
      if !v.Done? {
        return v;
      }
      var rgbx := new Byte[r.w * r.h * 4](_ => 0);
      P.CopiedPixels(rgbx, r.w * r.h, data);
      ShowsFlat(rgbx[..], P.Copied(data, r.w * r.h));
      display.Blit(r.x, r.y, r.w, r.h, rgbx, 0);
      return Done;
    }

    /** `_monoRect` and `_paletteRect`. */
    method IndexedRect(r: Rect, data: seq<Byte>, display: DisplayPort)
      requires Valid() && |data| == T.IndexSize(numColors, r) > 0
      modifies this`scratch, scratch, display`calls
      ensures Valid() && (scratch == old(scratch) || fresh(scratch)) && palette[..] == old(palette[..])
      ensures display.calls == old(display.calls) + [T.Blit(r, T.Colours(numColors, palette[..], r, data))]
    {
      ghost var img := T.Colours(numColors, palette[..], r, data);
      var dest := GetScratchBuffer(r.w * r.h * 4);
      if numColors == 2 {
        P.MonoPixels(dest, r.w, r.h, data, palette);
      } else {
        P.IndexedPixels(dest, r.w * r.h, data, palette);
      }
      ShowsFlat(dest[..], img);
      display.Blit(r.x, r.y, r.w, r.h, dest, 0);
    }

    method ReadPalette(sock: W.Websock) returns (ok: bool)
      requires Valid() && sock.Valid() && Apart(sock)
      modifies this`numColors, palette, sock`rQi
      ensures sock.Valid()
      ensures var l := T.LoadPalette(old(State()), old(sock.Unread()));
              if l.None? then !ok && State() == old(State()) && sock.Unread() == old(sock.Unread())
              else ok && (State(), sock.Unread()) == l.value
    {
      ghost var q := sock.Unread();
      var wait := sock.Lacks(1);
      if wait {
        return false;
      }
      var peeked := sock.Peek8();
      var n: nat := peeked as int + 1;
      var paletteSize := n * 3;
      wait := sock.Lacks(1 + paletteSize);
      if wait {
        return false;
      }
      numColors := n;
      sock.SkipBytes(1);
      var bytes := sock.ShiftBytes(paletteSize);
      var colours := bytes.Seen();
      assert colours == q[1..1 + 3 * n] && sock.Unread() == q[1 + 3 * n..];
      ShiftToPalette(colours);
      return true;
    }

    method ShiftToPalette(colours: seq<Byte>)
      requires Valid() && |colours| <= 1024
      modifies palette
      ensures palette[..] == P.Loaded(old(palette[..]), colours)
    {
      forall k | 0 <= k < |colours| {
        palette[k] := colours[k];
      }
      assert palette[..] == P.Loaded(old(palette[..]), colours);
    }

    /** `_paletteFilter`. */
    method PaletteFilter(stream: nat, r: Rect, sock: W.Websock, display: DisplayPort) returns (v: Verdict)
      requires Valid() && sock.Valid() && Apart(sock) && stream < 4
      modifies this, palette, scratch, sock`rQi, display`calls
      ensures Valid() && sock.Valid() && Apart(sock) && (scratch == old(scratch) || fresh(scratch))
      ensures var o := T.Palette(inf, old(State()), stream, r, old(sock.Unread()));
              && v == o.verdict && display.calls == old(display.calls) + o.calls
              && State() == o.state && sock.Unread() == o.rest
    {
      if numColors == 0 {
        var ok := ReadPalette(sock);
        if !ok {
          return Wait;
        }
      }
      v := IndexFilter(stream, r, sock, display);
    }

    /** The rest of it. */
    method IndexFilter(stream: nat, r: Rect, sock: W.Websock, display: DisplayPort) returns (v: Verdict)
      requires Valid() && sock.Valid() && Apart(sock) && stream < 4
      modifies this`len, this`zlibs, this`numColors, this`scratch, scratch, sock`rQi, display`calls
      ensures Valid() && sock.Valid() && Apart(sock) && (scratch == old(scratch) || fresh(scratch))
      ensures var o := T.Indices(inf, old(State()), stream, r, old(sock.Unread()));
              && v == o.verdict && display.calls == old(display.calls) + o.calls
              && State() == o.state && sock.Unread() == o.rest
    {
      var rowSize := if numColors <= 2 then (r.w + 7) / 8 else (r.w * 8 + 7) / 8;
      var uncompressedSize := rowSize * r.h;
      assert uncompressedSize == T.IndexSize(numColors, r);
      if uncompressedSize == 0 {
        return Done;
      }
      var data;
      data, v := ReadPayload(stream, uncompressedSize, sock);
      if !v.Done? {
        return v;
      }
      IndexedRect(r, data, display);
      numColors := 0;
      return Done;
    }

    /** `_basicRect`; after an illegal filter nothing but the verdict and the calls is promised. */
    method BasicRect(r: Rect, sock: W.Websock, display: DisplayPort) returns (v: Verdict)
      requires Valid() && sock.Valid() && Apart(sock) && ctl.Some?
      modifies this, palette, scratch, sock`rQi, display`calls
      ensures Valid() && sock.Valid() && Apart(sock) && (scratch == old(scratch) || fresh(scratch))
      ensures var o := T.Basic(inf, old(State()), r, old(sock.Unread()));
              && v == o.verdict && display.calls == old(display.calls) + o.calls
              && State() == o.state && sock.Unread() == o.rest
    {
      if filter.None? {
        if BitAt(ctl.value, 2) == 1 {
          var wait := sock.Lacks(1);
          if wait {
            return Wait;
          }
          var byte := sock.Shift8();
          filter := Some(byte as int);
        } else {
          filter := Some(0);  // none was sent
        }
      }
      v := ApplyFilter(r, sock, display);
    }

    method ApplyFilter(r: Rect, sock: W.Websock, display: DisplayPort) returns (v: Verdict)
      requires Valid() && sock.Valid() && Apart(sock) && ctl.Some? && filter.Some?
      modifies this, palette, scratch, sock`rQi, display`calls
      ensures Valid() && sock.Valid() && Apart(sock) && (scratch == old(scratch) || fresh(scratch))
      ensures var o := T.Filtered(inf, old(State()), r, old(sock.Unread()));
              && v == o.verdict && display.calls == old(display.calls) + o.calls
              && State() == o.state && sock.Unread() == o.rest
    {
      var stream := ctl.value % 4;
      if filter.value == 0 {
        v := CopyFilter(stream, r, sock, display);
      } else if filter.value == 1 {
        v := PaletteFilter(stream, r, sock, display);
      } else {
        return Fail;
      }
      if v.Done? {
        filter := None;
      }
    }

    /** `_fillRect`. */
    method FillRectangle(r: Rect, sock: W.Websock, display: DisplayPort) returns (v: Verdict)
      requires Valid() && sock.Valid()
      modifies sock`rQi, display`calls
      ensures sock.Valid()
      ensures var o := T.Fill(State(), r, old(sock.Unread()));
              && v == o.verdict && display.calls == old(display.calls) + o.calls
              && State() == o.state && sock.Unread() == o.rest
    {
      var wait := sock.Lacks(3);
      if wait {
        return Wait;
      }
      var color := sock.rQ[sock.rQi..sock.rQi + 3];
      Slice(sock.rQ[..], sock.rQi, sock.rQend, 0, 3);
      sock.SkipBytes(3);
      display.Issue(FillRect(r.x, r.y, r.w, r.h, color, Own));
      return Done;
    }

    /** `_jpegRect`. */
    method JpegRect(r: Rect, sock: W.Websock, display: DisplayPort) returns (v: Verdict)
      requires Valid() && sock.Valid()
      modifies this`len, sock`rQi, display`calls
      ensures sock.Valid()
      ensures var o := T.Jpeg(old(State()), r, old(sock.Unread()));
              && v == o.verdict && display.calls == old(display.calls) + o.calls
              && State() == o.state && sock.Unread() == o.rest
    {
      var data := ReadData(sock);
      if data.None? {
        return Wait;
      }
      display.Issue(ImageRect(r.x, r.y, r.w, r.h, data.value));
      return Done;
    }

    /** Resets the streams that the server asks for. */
    method ResetStreams(byte: Byte)
      modifies this`zlibs
      ensures zlibs == T.AfterResets(old(zlibs), byte)
    {
      ghost var before := zlibs;
      for i := 0 to 4
        invariant forall k :: 0 <= k < 4 ==> zlibs[k] == if k < i then T.AfterResets(before, byte)[k] else before[k]
      {
        if BitAt(byte, i) == 1 {
          zlibs := zlibs[i := zlibs[i] + [T.Reset]];
        }
      }
      assert zlibs == T.AfterResets(before, byte);
    }

    /** The control byte resets streams and says how the rectangle is compressed. */
    method ReadControl(sock: W.Websock)
      requires Valid() && sock.Valid() && |sock.Unread()| >= 1
      modifies this`ctl, this`zlibs, sock`rQi
      ensures Valid() && sock.Valid() && sock.Unread() == old(sock.Unread())[1..]
      ensures var b := old(sock.Unread())[0];
              State() == old(State()).(ctl := Some((b as int) / 16), zlibs := T.AfterResets(old(zlibs), b))
    {
      var byte := sock.Shift8();
      ResetStreams(byte);
      ctl := Some((byte as int) / 16);
    }

    method Dispatch(r: Rect, sock: W.Websock, display: DisplayPort) returns (v: Verdict)
      requires Valid() && sock.Valid() && Apart(sock) && ctl.Some?
      modifies this, palette, scratch, sock`rQi, display`calls
      ensures Valid() && sock.Valid() && Apart(sock) && (scratch == old(scratch) || fresh(scratch))
      ensures var o := T.Body(inf, old(State()), r, old(sock.Unread()));
              && v == o.verdict && display.calls == old(display.calls) + o.calls
              && State() == o.state && sock.Unread() == o.rest
    {
      if ctl.value == 8 {
        v := FillRectangle(r, sock, display);
      } else if ctl.value == 9 {
        v := JpegRect(r, sock, display);
      } else if ctl.value < 8 {
        v := BasicRect(r, sock, display);
      } else {
        return Fail;  // PNG, or illegal
      }
      if v.Done? {
        ctl := None;
      }
    }

    /** `decodeRect`. */
    method DecodeRect(r: Rect, sock: W.Websock, display: DisplayPort) returns (v: Verdict)
      requires Valid() && sock.Valid() && Apart(sock)
      modifies this, palette, scratch, sock`rQi, display`calls
      ensures Valid() && sock.Valid() && Apart(sock) && (scratch == old(scratch) || fresh(scratch))
      ensures var o := T.Decode(inf, old(State()), r, old(sock.Unread()));
              && v == o.verdict && display.calls == old(display.calls) + o.calls
              && State() == o.state && sock.Unread() == o.rest
    {
      if ctl.None? {
        var wait := sock.Lacks(1);
        if wait {
          return Wait;
        }
        ReadControl(sock);
      }
      v := Dispatch(r, sock, display);
    }
  }
}
