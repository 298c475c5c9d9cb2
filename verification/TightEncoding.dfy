/**
 What a server sends for a Tight rectangle and what it means, and the proof that the decoder draws it: from one
 rectangle to the next only the zlib streams carry state.
 */
module TightEncoding {
  import opened Bytes
  import opened Decoding
  import opened Pictures
  import opened Tight
  import opened Wrappers
  import P = TightPixels

  // ---- The compact length ---------------------------------------------------------------------------

  const MAX_LENGTH: nat := 0x40_0000

  /** The shortest form: 7 bits, 7 bits and 8 bits, lowest first; a set top bit announces another byte. */
  function EncodeLength(n: nat): (b: seq<Byte>)
    requires n < MAX_LENGTH
    ensures 1 <= |b| <= 3
  {
    if n < 128 then [n]
    else if n < 16384 then [n % 128 + 128, n / 128]
    else [n % 128 + 128, n / 128 % 128 + 128, n / 16384]
  }

  lemma ThreeParts(n: nat)
    ensures n % 128 + n / 128 % 128 * 128 + n / 16384 * 16384 == n
    ensures n < 16384 ==> n / 128 < 128
  {
    assert n / 128 / 128 == n / 16384;
  }

  /** Decoding a length inverts its shortest encoding, whatever follows. */
  lemma LengthDecodes(n: nat, more: seq<Byte>)
    requires n < MAX_LENGTH && |EncodeLength(n) + more| >= 3
    ensures CompactLength(EncodeLength(n) + more) == (n, |EncodeLength(n)|)
  {
    ThreeParts(n);
    var q := EncodeLength(n) + more;
    assert forall i :: 0 <= i < |EncodeLength(n)| ==> q[i] == EncodeLength(n)[i];
  }

  function EncodeData(data: seq<Byte>): seq<Byte>
    requires |data| < MAX_LENGTH
  {
    EncodeLength(|data|) + data
  }

  lemma DataDecodes(s: Tight, data: seq<Byte>, more: seq<Byte>)
    requires s.len == 0 && |data| < MAX_LENGTH && |EncodeData(data) + more| >= 3
    ensures ReadData(s, EncodeData(data) + more) == Read(s, more, Some(data))
  {
    var n, q := EncodeLength(|data|), EncodeData(data) + more;
    assert q == n + (data + more);
    LengthDecodes(|data|, data + more);
    assert q[|n|..] == data + more;
    assert (data + more)[..|data|] == data && (data + more)[|data|..] == more;
  }

  // ---- Rectangles -----------------------------------------------------------------------------------

  datatype Code =
    | FillCode(color: seq<Byte>)
    | JpegCode(jpeg: seq<Byte>)
    | CopyCode(stream: nat, announced: bool, payload: seq<Byte>)
    | PaletteCode(stream: nat, colours: seq<Byte>, payload: seq<Byte>)

  /** The size of the pixel data before compression. */
  function Size(code: Code, r: Rect): nat {
    if code.CopyCode? then r.w * r.h * 3
    else if code.PaletteCode? then IndexSize(|code.colours| / 3, r)
    else 0
  }

  /** The pixel data: short data are sent as they are. */
  function Data(inf: Inflater, z: Streams, code: Code, r: Rect): (data: Option<seq<Byte>>)
    requires (code.CopyCode? || code.PaletteCode?) && code.stream < 4
    ensures data.Some? ==> |data.value| == Size(code, r)
  {
    var size := Size(code, r);
    if size >= 12 then Inflated(inf, z[code.stream], code.payload, size)
    else if |code.payload| == size then Some(code.payload)
    else None
  }

  ghost predicate Valid(inf: Inflater, z: Streams, code: Code, r: Rect) {
    match code
    case FillCode(color) => |color| == 3
    case JpegCode(jpeg) => |jpeg| < MAX_LENGTH
    case CopyCode(stream, _, payload) =>
      stream < 4 && Size(code, r) > 0 && |payload| < MAX_LENGTH && Data(inf, z, code, r).Some?
    case PaletteCode(stream, colours, payload) =>
      && stream < 4 && Size(code, r) > 0 && |payload| < MAX_LENGTH && Data(inf, z, code, r).Some?
      && |colours| % 3 == 0 && 2 <= |colours| / 3 <= 256
      && (|colours| / 3 > 2 ==> InRange(Data(inf, z, code, r).value, |colours| / 3))
  }

  function EncodePayload(size: nat, payload: seq<Byte>): seq<Byte>
    requires |payload| < MAX_LENGTH
  {
    if size < 12 then payload else EncodeData(payload)
  }

  /** What follows the control byte. */
  function EncodeBody(code: Code, r: Rect): seq<Byte>
    requires code.FillCode? || |if code.JpegCode? then code.jpeg else code.payload| < MAX_LENGTH
    requires code.PaletteCode? ==> 1 <= |code.colours| / 3 <= 256
  {
    match code
    case FillCode(color) => color
    case JpegCode(jpeg) => EncodeData(jpeg)
    case CopyCode(_, announced, payload) => (if announced then [0] else []) + EncodePayload(Size(code, r), payload)
    case PaletteCode(_, colours, payload) => [1] + [|colours| / 3 - 1] + colours + EncodePayload(Size(code, r), payload)
  }

  /** The compression in the high four bits of the control byte. */
  function Compression(code: Code): (c: nat)
    requires (code.CopyCode? || code.PaletteCode?) ==> code.stream < 4
    ensures c < 10
  {
    match code
    case FillCode(_) => 8
    case JpegCode(_) => 9
    case CopyCode(stream, announced, _) => if announced then stream + 4 else stream
    case PaletteCode(stream, _, _) => stream + 4
  }

  // ---- What they mean -------------------------------------------------------------------------------

  function Colour(colours: seq<Byte>, i: nat): Color
    requires 3 * i + 2 < |colours|
  {
    [colours[3 * i], colours[3 * i + 1], colours[3 * i + 2], 255]
  }

  predicate InRange(data: seq<Byte>, n: nat) {
    forall k :: 0 <= k < |data| ==> data[k] < n
  }

  /** A byte a pixel. */
  function BytePicture(colours: seq<Byte>, data: seq<Byte>): (img: seq<Color>)
    requires InRange(data, |colours| / 3)
    ensures |img| == |data|
  {
    seq(|data|, k requires 0 <= k < |data| => Colour(colours, data[k]))
  }

  /** A bit a pixel, the highest first, every row starting a byte. */
  function BitPicture(colours: seq<Byte>, data: seq<Byte>, w: nat, h: nat): (img: seq<Color>)
    requires |colours| >= 6 && w > 0
    ensures |img| == w * h
  {
    seq(w * h, k requires 0 <= k < w * h => Colour(colours, BitIn(data, w, k % w, k / w)))
  }

  function BitIn(data: seq<Byte>, w: nat, x: nat, y: nat): (bit: nat)
    ensures bit < 2
  {
    var at := y * ((w + 7) / 8) + x / 8;
    if at < |data| then BitAt(data[at], 7 - x % 8) else 0
  }

  function Picture(colours: seq<Byte>, data: seq<Byte>, r: Rect): (img: seq<Color>)
    requires |colours| >= 6 && r.w > 0
    requires |colours| / 3 > 2 ==> InRange(data, |colours| / 3)
  {
    if |colours| / 3 > 2 then BytePicture(colours, data) else BitPicture(colours, data, r.w, r.h)
  }

  ghost function Draw(inf: Inflater, z: Streams, code: Code, r: Rect): Call
    requires Valid(inf, z, code, r)
  {
    match code
    case FillCode(color) => FillRect(r.x, r.y, r.w, r.h, color, Own)
    case JpegCode(jpeg) => ImageRect(r.x, r.y, r.w, r.h, jpeg)
    case CopyCode(_, _, _) => Blit(r, P.Copied(Data(inf, z, code, r).value, r.w * r.h))
    case PaletteCode(_, colours, _) =>
      WidthOf(code, r);
      Blit(r, Picture(colours, Data(inf, z, code, r).value, r))
  }

  lemma WidthOf(code: Code, r: Rect)
    requires Size(code, r) > 0
    ensures r.w > 0
  {
  }

  /** What the rectangle does to the streams. */
  ghost function StreamsAfter(inf: Inflater, z: Streams, code: Code, r: Rect): Streams
    requires Valid(inf, z, code, r)
  {
    if (code.CopyCode? || code.PaletteCode?) && Size(code, r) >= 12 then
      AfterInflate(z, code.stream, code.payload, Size(code, r))
    else z
  }

  /** The decoder before and after a rectangle: nothing in its fields but the streams, and an unused palette. */
  ghost predicate Idle(s: Tight) {
    s.ctl == None && s.filter == None && s.numColors == 0 && s.len == 0
  }

  // ---- Decoding -------------------------------------------------------------------------------------

  lemma EntryOf(palette: P.Palette, colours: seq<Byte>, i: Byte)
    requires |colours| <= 1024 && 3 * i + 2 < |colours|
    ensures P.Entry(P.Loaded(palette, colours), i) == Colour(colours, i)
  {
  }

  lemma BytesArePicture(palette: P.Palette, colours: seq<Byte>, data: seq<Byte>)
    requires |colours| <= 1024 && InRange(data, |colours| / 3)
    ensures P.Indexed(|data|, data, P.Loaded(palette, colours)) == BytePicture(colours, data)
  {
    forall k | 0 <= k < |data|
      ensures P.Indexed(|data|, data, P.Loaded(palette, colours))[k] == BytePicture(colours, data)[k]
    {
      EntryOf(palette, colours, data[k]);
    }
  }

  lemma BitIsPixel(palette: P.Palette, colours: seq<Byte>, data: seq<Byte>, w: nat, x: nat, y: nat)
    requires 6 <= |colours| <= 1024
    ensures P.MonoAt(w, data, P.Loaded(palette, colours), x, y) == Colour(colours, BitIn(data, w, x, y))
  {
    EntryOf(palette, colours, BitIn(data, w, x, y));
  }

  lemma PixelOfBits(palette: P.Palette, colours: seq<Byte>, data: seq<Byte>, w: nat, h: nat, k: nat)
    requires 6 <= |colours| <= 1024 && w > 0 && k < w * h
    ensures P.Mono(w, h, data, P.Loaded(palette, colours))[k] == BitPicture(colours, data, w, h)[k]
  {
    BitIsPixel(palette, colours, data, w, k % w, k / w);
  }

  lemma BitsArePicture(palette: P.Palette, colours: seq<Byte>, data: seq<Byte>, w: nat, h: nat)
    requires 6 <= |colours| <= 1024 && w > 0
    ensures P.Mono(w, h, data, P.Loaded(palette, colours)) == BitPicture(colours, data, w, h)
  {
    var left, right := P.Mono(w, h, data, P.Loaded(palette, colours)), BitPicture(colours, data, w, h);
    forall k: nat | k < |left|
      ensures left[k] == right[k]
    {
      PixelOfBits(palette, colours, data, w, h, k);
    }
  }

  /** The picture does not depend on what an earlier palette left behind. */
  lemma ColoursArePicture(palette: P.Palette, colours: seq<Byte>, data: seq<Byte>, r: Rect)
    requires 6 <= |colours| <= 1024 && |data| == IndexSize(|colours| / 3, r) > 0 && r.w > 0
    requires |colours| / 3 > 2 ==> InRange(data, |colours| / 3)
    ensures Colours(|colours| / 3, P.Loaded(palette, colours), r, data) == Picture(colours, data, r)
  {
    if |colours| / 3 > 2 {
      BytesArePicture(palette, colours, data);
    } else {
      BitsArePicture(palette, colours, data, r.w, r.h);
    }
  }

  lemma PayloadDecodes(inf: Inflater, s: Tight, code: Code, r: Rect, more: seq<Byte>)
    requires (code.CopyCode? || code.PaletteCode?) && code.stream < 4 && s.len == 0
    requires |code.payload| < MAX_LENGTH && Data(inf, s.zlibs, code, r).Some?
    requires Size(code, r) >= 12 ==> |EncodeData(code.payload) + more| >= 3
    ensures var size := Size(code, r);
            ReadPayload(inf, s, code.stream, size, EncodePayload(size, code.payload) + more) ==
            Payload(if size < 12 then s else s.(zlibs := AfterInflate(s.zlibs, code.stream, code.payload, size)),
                    more, Data(inf, s.zlibs, code, r).value, Done)
  {
    var size := Size(code, r);
    if size < 12 {
      assert (code.payload + more)[..size] == code.payload && (code.payload + more)[size..] == more;
    } else {
      DataDecodes(s, code.payload, more);
    }
  }

  /** Length-prefixed data must be followed by so many bytes that three are there in all. */
  predicate LongEnough(code: Code, r: Rect, more: seq<Byte>)
    requires code.FillCode? || |if code.JpegCode? then code.jpeg else code.payload| < MAX_LENGTH
  {
    match code
    case FillCode(_) => true
    case JpegCode(jpeg) => |EncodeData(jpeg) + more| >= 3
    case CopyCode(_, _, payload) => Size(code, r) >= 12 ==> |EncodeData(payload) + more| >= 3
    case PaletteCode(_, _, payload) => Size(code, r) >= 12 ==> |EncodeData(payload) + more| >= 3
  }

  /** How many bytes must follow: none, unless the data are short enough to be sent with fewer than three bytes. */
  function Slack(code: Code, r: Rect): (n: nat)
    ensures n <= 2
  {
    if code.FillCode? || (!code.JpegCode? && Size(code, r) < 12) then 0
    else
      var data := if code.JpegCode? then code.jpeg else code.payload;
      if |data| >= 2 then 0 else 2 - |data|
  }

  lemma SlackIsExact(code: Code, r: Rect, more: seq<Byte>)
    requires code.FillCode? || |if code.JpegCode? then code.jpeg else code.payload| < MAX_LENGTH
    ensures LongEnough(code, r, more) <==> |more| >= Slack(code, r)
  {
  }

  lemma CopyDecodes(inf: Inflater, s: Tight, code: Code, r: Rect, more: seq<Byte>)
    requires code.CopyCode? && s.len == 0 && Valid(inf, s.zlibs, code, r) && LongEnough(code, r, more)
    ensures Copy(inf, s, code.stream, r, EncodePayload(Size(code, r), code.payload) + more) ==
            Outcome(s.(zlibs := StreamsAfter(inf, s.zlibs, code, r)), more, [Draw(inf, s.zlibs, code, r)], Done)
  {
    PayloadDecodes(inf, s, code, r, more);
  }

  lemma IndicesDecode(inf: Inflater, s: Tight, code: Code, r: Rect, palette: P.Palette, more: seq<Byte>)
    requires code.PaletteCode? && s.len == 0 && Valid(inf, s.zlibs, code, r) && LongEnough(code, r, more)
    requires s.numColors == |code.colours| / 3 && s.palette == P.Loaded(palette, code.colours)
    ensures Indices(inf, s, code.stream, r, EncodePayload(Size(code, r), code.payload) + more) ==
            Outcome(s.(zlibs := StreamsAfter(inf, s.zlibs, code, r), numColors := 0), more,
              [Draw(inf, s.zlibs, code, r)], Done)
  {
    PayloadDecodes(inf, s, code, r, more);
    WidthOf(code, r);
    ColoursArePicture(palette, code.colours, Data(inf, s.zlibs, code, r).value, r);
  }

  lemma PaletteLoads(s: Tight, colours: seq<Byte>, tail: seq<Byte>)
    requires |colours| % 3 == 0 && 1 <= |colours| / 3 <= 256
    ensures LoadPalette(s, [|colours| / 3 - 1] + colours + tail) ==
            Some((s.(numColors := |colours| / 3, palette := P.Loaded(s.palette, colours)), tail))
  {
    var n := |colours| / 3;
    var q := [n - 1] + colours + tail;
    assert q[1..1 + 3 * n] == colours && q[1 + 3 * n..] == tail;
  }

  /** The state with the palette, and what follows the palette. */
  function WithPalette(s: Tight, code: Code): Tight
    requires code.PaletteCode? && |code.colours| <= 1024
  {
    s.(numColors := |code.colours| / 3, palette := P.Loaded(s.palette, code.colours))
  }

  lemma PaletteIsIndices(inf: Inflater, s: Tight, code: Code, r: Rect, tail: seq<Byte>)
    requires code.PaletteCode? && s.numColors == 0 && Valid(inf, s.zlibs, code, r)
    ensures Palette(inf, s, code.stream, r, [|code.colours| / 3 - 1] + code.colours + tail) ==
            Indices(inf, WithPalette(s, code), code.stream, r, tail)
  {
    PaletteLoads(s, code.colours, tail);
  }

  /** The filter byte is gone once the rectangle is finished. */
  function Unfiltered(o: Outcome<Tight>): Outcome<Tight> {
    if o.verdict.Done? then o.(state := o.state.(filter := None)) else o
  }

  lemma StreamBits(code: Code)
    requires (code.CopyCode? || code.PaletteCode?) && code.stream < 4
    ensures Compression(code) < 8 && Compression(code) % 4 == code.stream
    ensures BitAt(Compression(code), 2) == if code.PaletteCode? || code.announced then 1 else 0
  {
    var c := Compression(code);
    assert BitAt(c, 2) == BitAt(c / 2 / 2, 0);
  }

  lemma BasicIsCopy(inf: Inflater, s: Tight, code: Code, r: Rect, more: seq<Byte>)
    requires code.CopyCode? && Valid(inf, s.zlibs, code, r) && s.ctl == Some(Compression(code)) && s.filter == None
    ensures Basic(inf, s, r, EncodeBody(code, r) + more) ==
            Unfiltered(Copy(inf, s.(filter := Some(0)), code.stream, r,
              EncodePayload(Size(code, r), code.payload) + more))
  {
    StreamBits(code);
    var q, tail := EncodeBody(code, r) + more, EncodePayload(Size(code, r), code.payload) + more;
    if code.announced {
      assert q == [0] + tail;
      assert q[1..] == tail;
    } else {
      assert q == tail;
    }
  }

  lemma BasicIsIndices(inf: Inflater, s: Tight, code: Code, r: Rect, more: seq<Byte>)
    requires code.PaletteCode? && Valid(inf, s.zlibs, code, r)
    requires s.ctl == Some(Compression(code)) && s.filter == None && s.numColors == 0
    ensures Basic(inf, s, r, EncodeBody(code, r) + more) ==
            Unfiltered(Indices(inf, WithPalette(s.(filter := Some(1)), code), code.stream, r,
                               EncodePayload(Size(code, r), code.payload) + more))
  {
    StreamBits(code);
    var q, tail := EncodeBody(code, r) + more, EncodePayload(Size(code, r), code.payload) + more;
    var t := [|code.colours| / 3 - 1] + code.colours + tail;
    assert q == [1] + t;
    assert q[1..] == t;
    PaletteIsIndices(inf, s.(filter := Some(1)), code, r, tail);
  }

  /** What the decoder is after the rectangle. */
  ghost function After(inf: Inflater, s: Tight, code: Code, r: Rect): Tight
    requires Valid(inf, s.zlibs, code, r)
  {
    s.(zlibs := StreamsAfter(inf, s.zlibs, code, r),
       palette := if code.PaletteCode? then P.Loaded(s.palette, code.colours) else s.palette)
  }

  lemma BasicDecodes(inf: Inflater, s: Tight, code: Code, r: Rect, more: seq<Byte>)
    requires (code.CopyCode? || code.PaletteCode?) && Idle(s.(ctl := None))
    requires Valid(inf, s.zlibs, code, r) && LongEnough(code, r, more) && s.ctl == Some(Compression(code))
    ensures Basic(inf, s, r, EncodeBody(code, r) + more) ==
            Outcome(After(inf, s, code, r), more, [Draw(inf, s.zlibs, code, r)], Done)
  {
    if code.PaletteCode? {
      BasicIsIndices(inf, s, code, r, more);
      IndicesDecode(inf, WithPalette(s.(filter := Some(1)), code), code, r, s.palette, more);
    } else {
      BasicIsCopy(inf, s, code, r, more);
      CopyDecodes(inf, s.(filter := Some(0)), code, r, more);
    }
  }

  lemma ShortPayloadWaits(inf: Inflater, s: Tight, code: Code, r: Rect, more: seq<Byte>)
    requires (code.CopyCode? || code.PaletteCode?) && s.len == 0
    requires Valid(inf, s.zlibs, code, r) && !LongEnough(code, r, more)
    ensures ReadPayload(inf, s, code.stream, Size(code, r),
            EncodePayload(Size(code, r), code.payload) + more).verdict.Wait?
  {
  }

  lemma ShortBasicWaits(inf: Inflater, s: Tight, code: Code, r: Rect, more: seq<Byte>)
    requires (code.CopyCode? || code.PaletteCode?) && Idle(s.(ctl := None))
    requires Valid(inf, s.zlibs, code, r) && !LongEnough(code, r, more) && s.ctl == Some(Compression(code))
    ensures Basic(inf, s, r, EncodeBody(code, r) + more).verdict.Wait?
  {
    if code.PaletteCode? {
      BasicIsIndices(inf, s, code, r, more);
      ShortPayloadWaits(inf, WithPalette(s.(filter := Some(1)), code), code, r, more);
    } else {
      BasicIsCopy(inf, s, code, r, more);
      ShortPayloadWaits(inf, s.(filter := Some(0)), code, r, more);
    }
  }

  lemma BodyDecodes(inf: Inflater, s: Tight, code: Code, r: Rect, more: seq<Byte>)
    requires Valid(inf, s.zlibs, code, r) && LongEnough(code, r, more)
    requires s.ctl == Some(Compression(code)) && Idle(s.(ctl := None))
    ensures Body(inf, s, r, EncodeBody(code, r) + more) ==
            Outcome(After(inf, s.(ctl := None), code, r), more, [Draw(inf, s.zlibs, code, r)], Done)
  {
    match code
    case FillCode(color) =>
      assert (color + more)[..3] == color && (color + more)[3..] == more;
    case JpegCode(jpeg) =>
      DataDecodes(s, jpeg, more);
    case CopyCode(_, _, _) =>
      StreamBits(code);
      BasicDecodes(inf, s, code, r, more);
    case PaletteCode(_, _, _) =>
      StreamBits(code);
      BasicDecodes(inf, s, code, r, more);
  }

  lemma ShortBodyWaits(inf: Inflater, s: Tight, code: Code, r: Rect, more: seq<Byte>)
    requires Valid(inf, s.zlibs, code, r) && !LongEnough(code, r, more)
    requires s.ctl == Some(Compression(code)) && Idle(s.(ctl := None))
    ensures Body(inf, s, r, EncodeBody(code, r) + more).verdict.Wait?
  {
    if !code.JpegCode? {
      StreamBits(code);
      ShortBasicWaits(inf, s, code, r, more);
    }
  }

  lemma AfterControl(inf: Inflater, s: Tight, b: Byte, body: seq<Byte>, r: Rect, o: Outcome<Tight>)
    requires s.ctl == None && Body(inf, Control(s, b), r, body) == o
    ensures Decode(inf, s, r, [b] + body) == o
  {
    assert ([b] + body)[1..] == body;
  }

  /** The control byte, then the rest. */
  function Head(code: Code, resets: nat): Byte
    requires resets < 16 && ((code.CopyCode? || code.PaletteCode?) ==> code.stream < 4)
  {
    Compression(code) * 16 + resets
  }

  /** The code is valid once the streams that the control byte names have been reset. */
  ghost predicate ValidAfter(inf: Inflater, s: Tight, resets: nat, code: Code, r: Rect) {
    && resets < 16 && ((code.CopyCode? || code.PaletteCode?) ==> code.stream < 4)
    && Valid(inf, AfterResets(s.zlibs, Head(code, resets)), code, r)
  }

  lemma ControlledDecodes(inf: Inflater, s: Tight, resets: nat, code: Code, r: Rect, more: seq<Byte>)
    requires Idle(s) && ValidAfter(inf, s, resets, code, r) && LongEnough(code, r, more)
    ensures var z := AfterResets(s.zlibs, Head(code, resets));
            && Body(inf, Control(s, Head(code, resets)), r, EncodeBody(code, r) + more) ==
               Outcome(After(inf, s.(zlibs := z), code, r), more, [Draw(inf, z, code, r)], Done)
            && Idle(After(inf, s.(zlibs := z), code, r))
  {
    BodyDecodes(inf, Control(s, Head(code, resets)), code, r, more);
  }

  /** The decoder draws what the server sent, takes its bytes and no more, uses the streams once each way, and is
      idle again: for every rectangle, every way of compressing it, any zlib and whatever palette came before. */
  lemma DecodesEncoding(inf: Inflater, s: Tight, resets: nat, code: Code, r: Rect, more: seq<Byte>)
    requires Idle(s) && ValidAfter(inf, s, resets, code, r) && LongEnough(code, r, more)
    ensures var z := AfterResets(s.zlibs, Head(code, resets));
            && Decode(inf, s, r, [Head(code, resets)] + (EncodeBody(code, r) + more)) ==
               Outcome(After(inf, s.(zlibs := z), code, r), more, [Draw(inf, z, code, r)], Done)
            && Idle(After(inf, s.(zlibs := z), code, r))
  {
    var z, body := AfterResets(s.zlibs, Head(code, resets)), EncodeBody(code, r) + more;
    ControlledDecodes(inf, s, resets, code, r, more);
    AfterControl(inf, s, Head(code, resets), body, r,
                 Outcome(After(inf, s.(zlibs := z), code, r), more, [Draw(inf, z, code, r)], Done));
  }

  lemma ControlledWaits(inf: Inflater, s: Tight, resets: nat, code: Code, r: Rect, more: seq<Byte>)
    requires Idle(s) && ValidAfter(inf, s, resets, code, r) && !LongEnough(code, r, more)
    ensures Body(inf, Control(s, Head(code, resets)), r, EncodeBody(code, r) + more).verdict.Wait?
  {
    ShortBodyWaits(inf, Control(s, Head(code, resets)), code, r, more);
  }

  /** The one exception: the decoder waits for three bytes even when the data and their length are shorter and
      nothing follows. */
  lemma ShortDataWaits(inf: Inflater, s: Tight, resets: nat, code: Code, r: Rect, more: seq<Byte>)
    requires Idle(s) && ValidAfter(inf, s, resets, code, r) && !LongEnough(code, r, more)
    ensures Decode(inf, s, r, [Head(code, resets)] + (EncodeBody(code, r) + more)).verdict.Wait?
  {
    var body := EncodeBody(code, r) + more;
    ControlledWaits(inf, s, resets, code, r, more);
    AfterControl(inf, s, Head(code, resets), body, r, Body(inf, Control(s, Head(code, resets)), r, body));
  }

  /** Whatever the bytes were, a finished rectangle leaves nothing behind but the streams; the number of colours
      stays only after a palette for a rectangle without pixels. */
  lemma DoneIsIdle(inf: Inflater, s: Tight, r: Rect, q: seq<Byte>)
    requires Idle(s) && Decode(inf, s, r, q).verdict.Done?
    ensures var s' := Decode(inf, s, r, q).state;
            Idle(s'.(numColors := 0)) && (s'.numColors != 0 ==> IndexSize(s'.numColors, r) == 0)
  {
  }

  // ---- A palette for no pixels ----------------------------------------------------------------------

  /** The control byte of a palette rectangle, its filter byte, and what the palette filter is given. */
  lemma PaletteDispatches(inf: Inflater, s: Tight, resets: nat, code: Code, r: Rect, q: seq<Byte>)
    requires Idle(s.(numColors := 0)) && code.PaletteCode? && code.stream < 4 && resets < 16
    ensures var s1 := Control(s, Head(code, resets)).(filter := Some(1));
            var o := Unfiltered(Palette(inf, s1, code.stream, r, q));
            Decode(inf, s, r, [Head(code, resets)] + ([1] + q)) ==
            if o.verdict.Done? then o.(state := o.state.(ctl := None)) else o
  {
    StreamBits(code);
    var s0 := Control(s, Head(code, resets));
    assert s0.ctl == Some(Compression(code));
    assert ([1] + q)[1..] == q;
    assert ([Head(code, resets)] + ([1] + q))[1..] == [1] + q;
  }

  /** A palette for a rectangle without pixels is read and stays. */
  lemma EmptyPaletteStays(inf: Inflater, s: Tight, resets: nat, code: Code, r: Rect, more: seq<Byte>)
    requires Idle(s) && code.PaletteCode? && code.stream < 4 && resets < 16
    requires |code.colours| % 3 == 0 && 1 <= |code.colours| / 3 <= 256 && Size(code, r) == 0
    ensures var n, z := |code.colours| / 3, AfterResets(s.zlibs, Head(code, resets));
            Decode(inf, s, r, [Head(code, resets)] + ([1] + ([n - 1] + code.colours + more))) ==
            Outcome(s.(zlibs := z, numColors := n, palette := P.Loaded(s.palette, code.colours)), more, [], Done)
  {
    PaletteDispatches(inf, s, resets, code, r, [|code.colours| / 3 - 1] + code.colours + more);
    PaletteLoads(Control(s, Head(code, resets)).(filter := Some(1)), code.colours, more);
  }

  /** After that the next rectangle with a palette does not read its own: the bytes of its palette are taken for the
      beginning of its pixel data, with the number of colours and the colours that stayed. */
  lemma StaleCountSkipsPalette(inf: Inflater, s: Tight, resets: nat, code: Code, r: Rect, more: seq<Byte>)
    requires Idle(s.(numColors := 0)) && s.numColors != 0 && code.PaletteCode? && code.stream < 4 && resets < 16
    requires 1 <= |code.colours| / 3 <= 256 && IndexSize(s.numColors, r) > 0
    ensures var q, size := [|code.colours| / 3 - 1] + code.colours + more, IndexSize(s.numColors, r);
            var p := ReadPayload(inf, Control(s, Head(code, resets)).(filter := Some(1)), code.stream, size, q);
            var o := Decode(inf, s, r, [Head(code, resets)] + ([1] + q));
            && o.verdict == p.verdict && o.rest == p.rest && o.state.palette == s.palette
            && (o.verdict.Done? ==> o.calls == [Blit(r, Colours(s.numColors, s.palette, r, p.data))])
            && (size < 12 && size <= |q| ==> o.verdict.Done? && p.data == q[..size] && o.rest == q[size..])
  {
    PaletteDispatches(inf, s, resets, code, r, [|code.colours| / 3 - 1] + code.colours + more);
  }
}
