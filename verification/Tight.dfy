/**
 The Tight decoder of `html/static/js/core/decoders/tight.js`: a rectangle is a fill, a JPEG image, or pixels that
 are sent raw or through one of four zlib streams, directly or as indices into a palette.  The decoder may run
 out of bytes after the control byte, after the filter byte, after the palette and after the length, and notes in
 its fields how far it came.
 */
module Tight {
  import opened Bytes
  import opened Decoding
  import opened Pictures
  import opened Wrappers
  import P = TightPixels

  // ---- The zlib streams -----------------------------------------------------------------------------

  datatype ZEvent = Reset | Inflate(data: seq<Byte>, expected: nat)

  /** A stream is what was done to it so far: inflating is any function of that, of the compressed data and of
      the size asked for.  It fails when zlib does, or when it yields another size. */
  type Inflater = (seq<ZEvent>, seq<Byte>, nat) -> Option<seq<Byte>>

  type Streams = z: seq<seq<ZEvent>> | |z| == 4 witness [[], [], [], []]

  function Inflated(inf: Inflater, history: seq<ZEvent>, data: seq<Byte>, expected: nat): (out: Option<seq<Byte>>)
    ensures out.Some? ==> |out.value| == expected
  {
    var out := inf(history, data, expected);
    if out.Some? && |out.value| == expected then out else None
  }

  function AfterInflate(z: Streams, stream: nat, data: seq<Byte>, expected: nat): Streams
    requires stream < 4
  {
    z[stream := z[stream] + [Inflate(data, expected)]]
  }

  /** The low four bits of the control byte reset the streams. */
  function AfterResets(z: Streams, control: Byte): Streams {
    seq(4, i requires 0 <= i < 4 => if BitAt(control, i) == 1 then z[i] + [Reset] else z[i])
  }

  // ---- The decoder ----------------------------------------------------------------------------------

  datatype Tight = Tight(ctl: Option<nat>, filter: Option<nat>, numColors: nat, palette: P.Palette, len: nat,
                         zlibs: Streams)

  /** The length in one to three bytes of 7, 7 and 8 bits, and how many bytes it took. */
  function CompactLength(q: seq<Byte>): (r: (nat, nat))
    requires |q| >= 3
    ensures 1 <= r.1 <= 3
  {
    var low := (q[0] as int) % 128;
    if q[0] < 128 then (low, 1)
    else
      var middle := low + (q[1] as int) % 128 * 128;
      if q[1] < 128 then (middle, 2) else (middle + (q[2] as int) * 16384, 3)
  }

  datatype Read = Read(state: Tight, rest: seq<Byte>, data: Option<seq<Byte>>)

  function TakeData(s: Tight, q: seq<Byte>): Read {
    if |q| < s.len then Read(s, q, None) else Read(s.(len := 0), q[s.len..], Some(q[..s.len]))
  }

  /** `_readData`. */
  function ReadData(s: Tight, q: seq<Byte>): (d: Read)
    ensures d.state == s.(len := d.state.len) && |d.rest| <= |q|
    ensures d.data.Some? ==> d.state.len == 0
  {
    if s.len != 0 then TakeData(s, q)
    else if |q| < 3 then Read(s, q, None)
    else TakeData(s.(len := CompactLength(q).0), q[CompactLength(q).1..])
  }

  datatype Payload = Payload(state: Tight, rest: seq<Byte>, data: seq<Byte>, verdict: Verdict)

  /** The pixel data of a rectangle: as it stands when it is short, else inflated. */
  function ReadPayload(inf: Inflater, s: Tight, stream: nat, size: nat, q: seq<Byte>): (p: Payload)
    requires stream < 4
    ensures p.state == s.(len := p.state.len, zlibs := p.state.zlibs) && |p.rest| <= |q|
    ensures p.verdict.Done? ==> |p.data| == size
    ensures p.verdict.Done? && s.len == 0 ==> p.state.len == 0
    ensures p.verdict.Wait? ==> p.state.zlibs == s.zlibs
  {
    if size < 12 then
      if |q| < size then Payload(s, q, [], Wait) else Payload(s, q[size..], q[..size], Done)
    else
      var d := ReadData(s, q);
      if d.data.None? then Payload(d.state, d.rest, [], Wait)
      else
        var out := Inflated(inf, s.zlibs[stream], d.data.value, size);
        var s' := d.state.(zlibs := AfterInflate(s.zlibs, stream, d.data.value, size));
        if out.None? then Payload(s', d.rest, [], Fail) else Payload(s', d.rest, out.value, Done)
  }

  function Blit(r: Rect, img: seq<Color>): Call {
    BlitImage(r.x, r.y, r.w, r.h, Flat(img), Own)
  }

  /** `_copyFilter`. */
  function Copy(inf: Inflater, s: Tight, stream: nat, r: Rect, q: seq<Byte>): (o: Outcome<Tight>)
    requires stream < 4
    ensures o.state == s.(len := o.state.len, zlibs := o.state.zlibs) && |o.rest| <= |q|
  {
    var size := r.w * r.h * 3;
    if size == 0 then Outcome(s, q, [], Done)
    else
      var p := ReadPayload(inf, s, stream, size, q);
      if p.verdict.Done? then Outcome(p.state, p.rest, [Blit(r, P.Copied(p.data, r.w * r.h))], Done)
      else Outcome(p.state, p.rest, [], p.verdict)
  }

  /** How many bytes the indices take: bits when there are at most two colours. */
  function IndexSize(numColors: nat, r: Rect): nat {
    (if numColors <= 2 then (r.w + 7) / 8 else r.w) * r.h
  }

  function Colours(numColors: nat, palette: P.Palette, r: Rect, data: seq<Byte>): seq<Color>
    requires |data| == IndexSize(numColors, r) > 0
  {
    if numColors == 2 then P.Mono(r.w, r.h, data, palette) else P.Indexed(r.w * r.h, data, palette)
  }

  /** The rest of `_paletteFilter`, once the palette is there. */
  function Indices(inf: Inflater, s: Tight, stream: nat, r: Rect, q: seq<Byte>): (o: Outcome<Tight>)
    requires stream < 4
    ensures o.state == s.(len := o.state.len, zlibs := o.state.zlibs, numColors := o.state.numColors)
    ensures |o.rest| <= |q| && (!o.verdict.Done? ==> o.state.numColors == s.numColors)
  {
    var size := IndexSize(s.numColors, r);
    if size == 0 then Outcome(s, q, [], Done)
    else
      var p := ReadPayload(inf, s, stream, size, q);
      if p.verdict.Done? then
        Outcome(p.state.(numColors := 0), p.rest, [Blit(r, Colours(s.numColors, s.palette, r, p.data))], Done)
      else Outcome(p.state, p.rest, [], p.verdict)
  }

  /** The palette, and what follows it. */
  function LoadPalette(s: Tight, q: seq<Byte>): (l: Option<(Tight, seq<Byte>)>)
    ensures l.Some? ==> l.value.0 == s.(numColors := l.value.0.numColors, palette := l.value.0.palette)
    ensures l.Some? ==> l.value.0.numColors != 0 && |l.value.1| <= |q|
  {
    if |q| < 1 || |q| < 1 + 3 * (q[0] as int + 1) then None
    else
      var n: nat := q[0] as int + 1;
      Some((s.(numColors := n, palette := P.Loaded(s.palette, q[1..1 + 3 * n])), q[1 + 3 * n..]))
  }

  /** `_paletteFilter`. */
  function Palette(inf: Inflater, s: Tight, stream: nat, r: Rect, q: seq<Byte>): (o: Outcome<Tight>)
    requires stream < 4
    ensures o.state.ctl == s.ctl && o.state.filter == s.filter && |o.rest| <= |q|
  {
    if s.numColors != 0 then Indices(inf, s, stream, r, q)
    else
      var l := LoadPalette(s, q);
      if l.None? then Outcome(s, q, [], Wait) else Indices(inf, l.value.0, stream, r, l.value.1)
  }

  /** The switch in `_basicRect`. */
  function Filtered(inf: Inflater, s: Tight, r: Rect, q: seq<Byte>): (o: Outcome<Tight>)
    requires s.ctl.Some? && s.filter.Some?
    ensures o.state.ctl == s.ctl && |o.rest| <= |q| && (!o.verdict.Done? ==> o.state.filter == s.filter)
  {
    var o :=
      if s.filter.value == 0 then Copy(inf, s, s.ctl.value % 4, r, q)
      else if s.filter.value == 1 then Palette(inf, s, s.ctl.value % 4, r, q)
      else Outcome(s, q, [], Fail);
    if o.verdict.Done? then o.(state := o.state.(filter := None)) else o
  }

  /** `_basicRect`. */
  function Basic(inf: Inflater, s: Tight, r: Rect, q: seq<Byte>): (o: Outcome<Tight>)
    requires s.ctl.Some?
    ensures o.state.ctl == s.ctl && |o.rest| <= |q|
  {
    if s.filter.Some? then Filtered(inf, s, r, q)
    else if BitAt(s.ctl.value, 2) == 0 then Filtered(inf, s.(filter := Some(0)), r, q)
    else if |q| < 1 then Outcome(s, q, [], Wait)
    else Filtered(inf, s.(filter := Some(q[0] as int)), r, q[1..])
  }

  /** `_fillRect`. */
  function Fill(s: Tight, r: Rect, q: seq<Byte>): (o: Outcome<Tight>)
    ensures |o.rest| <= |q|
  {
    if |q| < 3 then Outcome(s, q, [], Wait)
    else Outcome(s, q[3..], [FillRect(r.x, r.y, r.w, r.h, q[..3], Own)], Done)
  }

  /** `_jpegRect`. */
  function Jpeg(s: Tight, r: Rect, q: seq<Byte>): (o: Outcome<Tight>)
    ensures o.state == s.(len := o.state.len) && |o.rest| <= |q|
  {
    var d := ReadData(s, q);
    if d.data.None? then Outcome(d.state, d.rest, [], Wait)
    else Outcome(d.state, d.rest, [ImageRect(r.x, r.y, r.w, r.h, d.data.value)], Done)
  }

  /** The rest of `decodeRect`, once the control byte is there. */
  function Body(inf: Inflater, s: Tight, r: Rect, q: seq<Byte>): (o: Outcome<Tight>)
    requires s.ctl.Some?
    ensures |o.rest| <= |q|
    ensures o.verdict.Wait? ==> o.state.ctl == s.ctl
    ensures o.verdict.Done? ==> o.state.ctl == None
  {
    var ctl := s.ctl.value;
    var o :=
      if ctl == 8 then Fill(s, r, q)
      else if ctl == 9 then Jpeg(s, r, q)
      else if ctl < 8 then Basic(inf, s, r, q)
      else Outcome(s, q, [], Fail);
    if o.verdict.Done? then o.(state := o.state.(ctl := None)) else o
  }

  /** The control byte. */
  function Control(s: Tight, b: Byte): (s': Tight)
    ensures s'.ctl.Some?
  {
    s.(ctl := Some((b as int) / 16), zlibs := AfterResets(s.zlibs, b))
  }

  /** `decodeRect`. */
  function Decode(inf: Inflater, s: Tight, r: Rect, q: seq<Byte>): (o: Outcome<Tight>)
    ensures |o.rest| <= |q|
  {
    if s.ctl.Some? then Body(inf, s, r, q)
    else if |q| < 1 then Outcome(s, q, [], Wait)
    else Body(inf, Control(s, q[0]), r, q[1..])
  }

  // ---- Being called again ---------------------------------------------------------------------------

  /** Reading again after `more` bytes arrived gives what reading all of them at once gives. */
  ghost predicate ReadsOn(first: Read, again: Read, whole: Read, more: seq<Byte>) {
    if first.data.None? then whole == again else whole == first.(rest := first.rest + more)
  }

  lemma TakeDataResumes(s: Tight, q: seq<Byte>, more: seq<Byte>)
    ensures var first := TakeData(s, q);
            ReadsOn(first, TakeData(first.state, first.rest + more), TakeData(s, q + more), more)
  {
    if s.len <= |q| {
      Shorter(q, more, s.len);
    }
  }

  lemma ReadDataResumes(s: Tight, q: seq<Byte>, more: seq<Byte>)
    ensures var first := ReadData(s, q);
            ReadsOn(first, ReadData(first.state, first.rest + more), ReadData(s, q + more), more)
  {
    if s.len != 0 {
      TakeDataResumes(s, q, more);
    } else if |q| >= 3 {
      var (n, used) := CompactLength(q);
      Shorter(q, more, used);
      TakeDataResumes(s.(len := n), q[used..], more);
    }
  }

  ghost predicate PaysOn(first: Payload, again: Payload, whole: Payload, more: seq<Byte>) {
    if first.verdict.Wait? then whole == again else whole == first.(rest := first.rest + more)
  }

  lemma PayloadResumes(inf: Inflater, s: Tight, stream: nat, size: nat, q: seq<Byte>, more: seq<Byte>)
    requires stream < 4
    ensures var first := ReadPayload(inf, s, stream, size, q);
            PaysOn(first, ReadPayload(inf, first.state, stream, size, first.rest + more),
              ReadPayload(inf, s, stream, size, q + more), more)
  {
    if size >= 12 {
      ReadDataResumes(s, q, more);
    } else if size <= |q| {
      Shorter(q, more, size);
    }
  }

  lemma CopyResumes(inf: Inflater, s: Tight, stream: nat, r: Rect, q: seq<Byte>, more: seq<Byte>)
    requires stream < 4
    ensures var first := Copy(inf, s, stream, r, q);
            Resumes(first, Copy(inf, first.state, stream, r, first.rest + more), Copy(inf, s, stream, r, q + more),
              more)
  {
    PayloadResumes(inf, s, stream, r.w * r.h * 3, q, more);
  }

  lemma IndicesResume(inf: Inflater, s: Tight, stream: nat, r: Rect, q: seq<Byte>, more: seq<Byte>)
    requires stream < 4
    ensures var first := Indices(inf, s, stream, r, q);
            Resumes(first, Indices(inf, first.state, stream, r, first.rest + more),
              Indices(inf, s, stream, r, q + more), more)
  {
    PayloadResumes(inf, s, stream, IndexSize(s.numColors, r), q, more);
  }

  lemma LoadPaletteResumes(s: Tight, q: seq<Byte>, more: seq<Byte>)
    ensures var l := LoadPalette(s, q); l.Some? ==> LoadPalette(s, q + more) == Some((l.value.0, l.value.1 + more))
  {
    if LoadPalette(s, q).Some? {
      var n: nat := q[0] as int + 1;
      Shorter(q, more, 1 + 3 * n);
      assert (q + more)[1..1 + 3 * n] == q[1..1 + 3 * n];
    }
  }

  lemma PaletteResumes(inf: Inflater, s: Tight, stream: nat, r: Rect, q: seq<Byte>, more: seq<Byte>)
    requires stream < 4
    ensures var first := Palette(inf, s, stream, r, q);
            Resumes(first, Palette(inf, first.state, stream, r, first.rest + more),
              Palette(inf, s, stream, r, q + more), more)
  {
    if s.numColors != 0 {
      IndicesResume(inf, s, stream, r, q, more);
    } else {
      LoadPaletteResumes(s, q, more);
      var l := LoadPalette(s, q);
      if l.None? {
        ResumesAtOnce(Palette(inf, s, stream, r, q), Palette(inf, s, stream, r, q + more), more);
      } else {
        IndicesResume(inf, l.value.0, stream, r, l.value.1, more);
      }
    }
  }

  lemma FilteredResumes(inf: Inflater, s: Tight, r: Rect, q: seq<Byte>, more: seq<Byte>)
    requires s.ctl.Some? && s.filter.Some?
    ensures var first := Filtered(inf, s, r, q);
            first.verdict.Wait? ==> first.state.ctl.Some? && first.state.filter.Some?
    ensures var first := Filtered(inf, s, r, q);
            Resumes(first, if first.verdict.Wait? then Filtered(inf, first.state, r, first.rest + more) else first,
                    Filtered(inf, s, r, q + more), more)
  {
    if s.filter.value == 0 {
      CopyResumes(inf, s, s.ctl.value % 4, r, q, more);
    } else if s.filter.value == 1 {
      PaletteResumes(inf, s, s.ctl.value % 4, r, q, more);
    }
  }

  lemma BasicResumes(inf: Inflater, s: Tight, r: Rect, q: seq<Byte>, more: seq<Byte>)
    requires s.ctl.Some?
    ensures var first := Basic(inf, s, r, q);
            Resumes(first, Basic(inf, first.state, r, first.rest + more), Basic(inf, s, r, q + more), more)
  {
    if s.filter.Some? {
      FilteredResumes(inf, s, r, q, more);
    } else if BitAt(s.ctl.value, 2) == 0 {
      FilteredResumes(inf, s.(filter := Some(0)), r, q, more);
    } else if |q| < 1 {
      ResumesAtOnce(Basic(inf, s, r, q), Basic(inf, s, r, q + more), more);
    } else {
      Shorter(q, more, 1);
      FilteredResumes(inf, s.(filter := Some(q[0] as int)), r, q[1..], more);
    }
  }

  lemma BodyResumes(inf: Inflater, s: Tight, r: Rect, q: seq<Byte>, more: seq<Byte>)
    requires s.ctl.Some?
    ensures var first := Body(inf, s, r, q);
            Resumes(first, if first.verdict.Wait? then Body(inf, first.state, r, first.rest + more) else first,
                    Body(inf, s, r, q + more), more)
  {
    if s.ctl.value == 8 {
      if |q| >= 3 {
        Shorter(q, more, 3);
      }
    } else if s.ctl.value == 9 {
      ReadDataResumes(s, q, more);
    } else if s.ctl.value < 8 {
      BasicResumes(inf, s, r, q, more);
    }
  }

  /** However the bytes are cut, being called again gives what one call on all bytes gives: the same calls, the
      same state, and the same use of the zlib streams. */
  lemma DecodeResumes(inf: Inflater, s: Tight, r: Rect, q: seq<Byte>, more: seq<Byte>)
    ensures var first := Decode(inf, s, r, q);
            Resumes(first, Decode(inf, first.state, r, first.rest + more), Decode(inf, s, r, q + more), more)
  {
    if s.ctl.Some? {
      BodyResumes(inf, s, r, q, more);
    } else if |q| < 1 {
      ResumesAtOnce(Decode(inf, s, r, q), Decode(inf, s, r, q + more), more);
    } else {
      Shorter(q, more, 1);
      BodyResumes(inf, Control(s, q[0]), r, q[1..], more);
    }
  }
}
