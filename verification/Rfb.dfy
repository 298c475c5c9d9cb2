/**
 Framebuffer updates in the RFB client, `html/static/js/core/rfb.js` (section 7.6.1 of RFC 6143): a header with the
 number of rectangles, then for each a header and its data.  Processing stops wherever bytes are missing, and after
 the header of an update while the display is still busy, and continues from the client's fields.
 */
module Rfb {
  import opened Bytes
  import opened Decoding
  import opened Streaming
  import opened Wrappers
  import H = Hextile
  import R = Rre
  import T = Tight

  const COPY_RECT: int := 1
  const RRE: int := 2
  const HEXTILE: int := 5
  const TIGHT: int := 7
  const LAST_RECT: int := -224

  /** The update being read: rectangles to come, the current one, and its encoding once its header was read. */
  datatype FBU = FBU(rects: nat, rect: Rect, encoding: Option<int>)

  datatype State = State(fbu: FBU, rre: int, hex: H.Hex, tight: T.Tight)

  ghost predicate Consistent(s: State) {
    && (s.fbu.encoding.Some? ==> s.fbu.rects > 0)
    && (if s.fbu.encoding == Some(HEXTILE) then H.Fits(s.hex, s.fbu.rect) else s.hex.tiles == 0)
  }

  type Client = s: State | Consistent(s) witness
    State(FBU(0, Rect(0, 0, 0, 0), None), 0, H.Hex(0, 0, 0, 0, None, None),
          T.Tight(None, None, 0, seq(1024, _ => 0), 0, [[], [], [], []]))

  /** How zlib behaves, and whether the server sends updates unasked. */
  datatype Env = Env(inf: T.Inflater, continuous: bool)

  /** At the end of an update the display is flipped and, unless updates come unasked, the next one requested. */
  function Finish(env: Env): seq<Call> {
    if env.continuous then [Flip] else [Flip, UpdateRequest]
  }

  function FinishIf(env: Env, last: bool): seq<Call> {
    if last then Finish(env) else []
  }

  /** The message type and the header of an update; other messages are not part of the model. */
  function MessageHeader(env: Env, c: Client, q: seq<Byte>): Outcome<Client>
    requires c.fbu.rects == 0
  {
    if |q| < 1 then Outcome(c, q, [], Wait)
    else if q[0] != 0 then Outcome(c, q, [], Fail)
    else if |q| < 4 then Outcome(c, q, [], Wait)
    else
      var n := U16(q[2..4]);
      Outcome(c.(fbu := c.fbu.(rects := n)), q[4..], FinishIf(env, n == 0), Done)
  }

  function RectHeader(c: Client, q: seq<Byte>): Outcome<Client>
    requires c.fbu.rects > 0 && c.fbu.encoding.None?
  {
    if |q| < 12 then Outcome(c, q, [], Wait)
    else
      var rect := Rect(U16(q[0..2]), U16(q[2..4]), U16(q[4..6]), U16(q[6..8]));
      Outcome(c.(fbu := c.fbu.(rect := rect, encoding := Some(S32(q[8..12])))), q[12..], [], Done)
  }

  /** The decoder of `html/static/js/core/decoders/copyrect.js`. */
  function CopyRect(c: Client, q: seq<Byte>): (o: Outcome<Client>)
    ensures o.state == c && |o.rest| <= |q|
  {
    var r := c.fbu.rect;
    if |q| < 4 then Outcome(c, q, [], Wait)
    else
      var copy := CopyImage(U16(q[0..2]), U16(q[2..4]), r.x, r.y, r.w, r.h);
      Outcome(c, q[4..], if r.w == 0 || r.h == 0 then [] else [copy], Done)
  }

  function RreRect(c: Client, q: seq<Byte>): (o: Outcome<Client>)
    ensures o.state == c.(rre := o.state.rre) && |o.rest| <= |q|
  {
    var o := R.Decode(c.rre, c.fbu.rect, q);
    Outcome(c.(rre := o.state), o.rest, o.calls, o.verdict)
  }

  function HextileRect(c: Client, q: seq<Byte>): (o: Outcome<Client>)
    requires c.fbu.encoding == Some(HEXTILE)
    ensures o.state == c.(hex := o.state.hex) && |o.rest| <= |q|
    ensures o.verdict.Done? ==> o.state.hex.tiles == 0
  {
    var o := H.Decode(c.hex, c.fbu.rect, q);
    Outcome(c.(hex := o.state), o.rest, o.calls, o.verdict)
  }

  function TightRect(env: Env, c: Client, q: seq<Byte>): (o: Outcome<Client>)
    ensures o.state == c.(tight := o.state.tight) && |o.rest| <= |q|
  {
    var o := T.Decode(env.inf, c.tight, c.fbu.rect, q);
    Outcome(c.(tight := o.state), o.rest, o.calls, o.verdict)
  }

  /** `_handleRect`, for these encodings; a last-rectangle marker ends the update. */
  function HandleRect(env: Env, c: Client, q: seq<Byte>): (o: Outcome<Client>)
    requires c.fbu.encoding.Some?
    ensures o.state.fbu.rect == c.fbu.rect && o.state.fbu.encoding == c.fbu.encoding
            && 0 < o.state.fbu.rects <= c.fbu.rects
    ensures o.verdict.Wait? ==> o.state.fbu == c.fbu
    ensures o.verdict.Done? ==> o.state.hex.tiles == 0
    ensures |o.rest| <= |q|
  {
    match c.fbu.encoding.value
    case -224 => Outcome(c.(fbu := c.fbu.(rects := 1)), q, [], Done)
    case 1 => CopyRect(c, q)
    case 2 => RreRect(c, q)
    case 5 => HextileRect(c, q)
    case 7 => TightRect(env, c, q)
    case _ => Outcome(c, q, [], Fail)
  }

  /** After a rectangle. */
  function EndRect(env: Env, o: Outcome<Client>): Outcome<Client>
    requires o.state.fbu.rects > 0
    requires o.verdict.Done? ==> o.state.hex.tiles == 0
  {
    if o.verdict.Done? then
      var left := o.state.fbu.rects - 1;
      Outcome(o.state.(fbu := o.state.fbu.(rects := left, encoding := None)), o.rest,
              o.calls + FinishIf(env, left == 0), Done)
    else o
  }

  function Step(env: Env, c: Client, q: seq<Byte>): Outcome<Client> {
    if c.fbu.rects == 0 then MessageHeader(env, c, q)
    else if c.fbu.encoding.None? then RectHeader(c, q)
    else EndRect(env, HandleRect(env, c, q))
  }

  // ---- As a machine ---------------------------------------------------------------------------------

  lemma HeaderResumes(env: Env, c: Client, q: seq<Byte>, more: seq<Byte>)
    requires c.fbu.encoding.None?
    ensures var o := Step(env, c, q); Resumes(o, Step(env, o.state, o.rest + more), Step(env, c, q + more), more)
  {
    var o := Step(env, c, q);
    if o.verdict.Wait? {
      ResumesAtOnce(o, Step(env, c, q + more), more);
    } else if c.fbu.rects == 0 {
      if q[0] == 0 {
        Shorter(q, more, 4);
        assert (q + more)[2..4] == q[2..4];
      }
    } else {
      Shorter(q, more, 12);
      assert (q + more)[0..2] == q[0..2] && (q + more)[2..4] == q[2..4] && (q + more)[4..6] == q[4..6];
      assert (q + more)[6..8] == q[6..8] && (q + more)[8..12] == q[8..12];
    }
  }

  lemma CopyRectResumes(c: Client, q: seq<Byte>, more: seq<Byte>)
    ensures var o := CopyRect(c, q); Resumes(o, CopyRect(o.state, o.rest + more), CopyRect(c, q + more), more)
  {
    if |q| < 4 {
      ResumesAtOnce(CopyRect(c, q), CopyRect(c, q + more), more);
    } else {
      Shorter(q, more, 4);
      assert (q + more)[0..2] == q[0..2] && (q + more)[2..4] == q[2..4];
    }
  }

  lemma HandleRectResumes(env: Env, c: Client, q: seq<Byte>, more: seq<Byte>)
    requires c.fbu.encoding.Some?
    ensures var o := HandleRect(env, c, q);
            Resumes(o, HandleRect(env, o.state, o.rest + more), HandleRect(env, c, q + more), more)
  {
    match c.fbu.encoding.value
    case -224 =>
    case 1 => CopyRectResumes(c, q, more);
    case 2 => R.DecodeResumes(c.rre, c.fbu.rect, q, more);
    case 5 => H.DecodeResumes(c.hex, c.fbu.rect, q, more);
    case 7 => T.DecodeResumes(env.inf, c.tight, c.fbu.rect, q, more);
    case _ =>
  }

  lemma EndRectResumes(env: Env, first: Outcome<Client>, again: Outcome<Client>, whole: Outcome<Client>,
                       more: seq<Byte>)
    requires Resumes(first, again, whole, more)
    requires first.state.fbu.rects > 0 && again.state.fbu.rects > 0 && whole.state.fbu.rects > 0
    requires first.verdict.Done? ==> first.state.hex.tiles == 0
    requires again.verdict.Done? ==> again.state.hex.tiles == 0
    requires whole.verdict.Done? ==> whole.state.hex.tiles == 0
    ensures Resumes(EndRect(env, first), EndRect(env, again), EndRect(env, whole), more)
  {
    if first.verdict.Wait? && again.verdict.Done? {
      var end := if again.state.fbu.rects == 1 then Finish(env) else [];
      assert (first.calls + again.calls) + end == first.calls + (again.calls + end);
    }
  }

  /** The three steps, given what the rectangle decoders do. */
  lemma EndStepResumes(env: Env, c: Client, q: seq<Byte>, more: seq<Byte>,
                       first: Outcome<Client>, again: Outcome<Client>, whole: Outcome<Client>)
    requires c.fbu.encoding.Some? && HandleRect(env, c, q) == first && HandleRect(env, c, q + more) == whole
    requires first.state.fbu.encoding.Some? && HandleRect(env, first.state, first.rest + more) == again
    requires Resumes(first, again, whole, more)
    ensures var o := Step(env, c, q); Resumes(o, Step(env, o.state, o.rest + more), Step(env, c, q + more), more)
  {
    EndRectResumes(env, first, again, whole, more);
  }

  /** Every step that lacks bytes can be completed later; any other does not see the bytes behind it. */
  lemma StepResumes(env: Env, c: Client, q: seq<Byte>, more: seq<Byte>)
    ensures var o := Step(env, c, q); Resumes(o, Step(env, o.state, o.rest + more), Step(env, c, q + more), more)
  {
    if c.fbu.encoding.None? {
      HeaderResumes(env, c, q, more);
    } else {
      HandleRectResumes(env, c, q, more);
      var o := HandleRect(env, c, q);
      EndStepResumes(env, c, q, more, o, HandleRect(env, o.state, o.rest + more), HandleRect(env, c, q + more));
    }
  }

  function Size(c: Client, q: seq<Byte>): nat {
    2 * |q| + if c.fbu.encoding.Some? then 1 else 0
  }

  /** The client, held up at the headers of updates. */
  function Updates(env: Env): Machine<Client> {
    Machine((c: Client, q: seq<Byte>) => Step(env, c, q), (c: Client) => c.fbu.rects == 0,
            (c: Client, q: seq<Byte>) => Size(c, q))
  }

  lemma UpdatesIsValid(env: Env)
    ensures Updates(env).Valid()
  {
    var m := Updates(env);
    forall c: Client, q: seq<Byte>, more: seq<Byte>
      ensures m.StepResumes(c, q, more)
    {
      StepResumes(env, c, q, more);
    }
    forall c: Client, q: seq<Byte>
      ensures m.step(c, q).verdict.Done? ==> m.size(m.step(c, q).state, m.step(c, q).rest) < m.size(c, q)
      ensures m.header(c) && m.step(c, q).verdict.Done? ==> m.Hungry(m.step(c, q).state)
      ensures m.step(c, q).verdict.Wait? ==> m.header(m.step(c, q).state) == m.header(c)
    {
      StepProceeds(env, c, q);
    }
  }

  lemma StepProceeds(env: Env, c: Client, q: seq<Byte>)
    ensures var o := Step(env, c, q);
            && (o.verdict.Done? ==> Size(o.state, o.rest) < Size(c, q))
            && (c.fbu.rects == 0 && o.verdict.Done? ==> Step(env, o.state, []) == Outcome(o.state, [], [], Wait))
            && (o.verdict.Wait? ==> o.state.fbu.rects == c.fbu.rects)
  {
  }

  /** What is lost when the client is held up at a header: nothing, unless the update has no rectangles. */
  lemma OnlyEmptyUpdatesAreLost(env: Env, c: Client, q: seq<Byte>)
    requires c.fbu.rects == 0 && Step(env, c, q).verdict.Done?
    ensures Step(env, c, q).calls == [] <==> U16(q[2..4]) != 0
  {
  }

  /** Such an update is: held up, it is neither shown nor answered. */
  lemma HeldEmptyUpdateIsLost(env: Env, c: Client)
    requires c.fbu.rects == 0 && Updates(env).Valid()
    ensures var update := [0, 0, 0, 0];
            var k := HandleAll(Updates(env), Opened(c), [Recv(update, Some(0)), Flushed(None)]);
            && !k.flushing && !k.failed && k.client == c && k.unread == [] && k.calls == []
            && Batch(Updates(env), c, update).calls == Finish(env) != []
  {
    var q := [0, 0, 0, 0];
    assert q[2..4] == [0, 0] && q[4..] == [];
    HeldIsLost(Updates(env), c, q, Outcome(c, [], Finish(env), Done));
  }
}
