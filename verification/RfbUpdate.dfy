/**
 Framebuffer updates as a server sends them (section 7.6.1 of RFC 6143), what they mean, and the proof that the
 client draws them: any number of updates, cut into messages in any way and held up by the display at any time.
 */
module RfbUpdate {
  import opened Bytes
  import opened Decoding
  import opened Rfb
  import opened Streaming
  import opened Tiling
  import opened Wrappers
  import H = Hextile
  import HE = HextileEncoding
  import R = Rre
  import T = Tight
  import TE = TightEncoding

  datatype RectCode =
    | CopyCode(rect: Rect, oldX: nat, oldY: nat)
    | RreCode(rect: Rect, background: seq<Byte>, subs: seq<R.Sub>)
    | HextileCode(rect: Rect, tiles: seq<HE.TileCode>)
    | TightCode(rect: Rect, resets: nat, code: TE.Code)

  /** Rectangles, and the count in the header when a marker ends the update early. */
  datatype Update = Update(rects: seq<RectCode>, marked: Option<nat>)

  /** What the decoders keep from one rectangle to the next: Hextile its colours, Tight its streams. */
  datatype Memory = Memory(hex: H.Hex, tight: T.Tight)

  ghost predicate Idle(m: Memory) {
    m.hex.tiles == 0 && TE.Idle(m.tight)
  }

  /** The client between rectangles. */
  function Between(m: Memory, rects: nat, last: Rect): Client
    requires m.hex.tiles == 0
  {
    State(FBU(rects, last, None), 0, m.hex, m.tight)
  }

  /** The client with a rectangle's header read. */
  function Within(m: Memory, rects: nat, r: Rect, encoding: int): Client
    requires m.hex.tiles == 0 && rects > 0
  {
    State(FBU(rects, r, Some(encoding)), 0, m.hex, m.tight)
  }

  predicate Fits16(r: Rect) {
    r.x < 0x1_0000 && r.y < 0x1_0000 && r.w < 0x1_0000 && r.h < 0x1_0000
  }

  ghost predicate ValidRect(env: Env, m: Memory, code: RectCode) {
    && Idle(m) && Fits16(code.rect)
    && match code
       case CopyCode(_, oldX, oldY) => oldX < 0x1_0000 && oldY < 0x1_0000
       case RreCode(_, background, subs) => |background| == 4 && |subs| < 0x8000_0000
         && forall s :: s in subs ==> s.Valid()
       case HextileCode(r, tiles) => HE.ValidTiles(tiles, TilesLeft(r, Total(r)), H.Start(m.hex, r))
       case TightCode(r, resets, code) => TE.ValidAfter(env.inf, m.tight, resets, code, r)
  }

  /** How many bytes must follow before the client takes the rectangle for complete. */
  function Slack(code: RectCode): (n: nat)
    ensures n <= 2
  {
    if code.TightCode? then TE.Slack(code.code, code.rect) else 0
  }

  function Number(code: RectCode): nat {
    match code
    case CopyCode(_, _, _) => 1
    case RreCode(_, _, _) => 2
    case HextileCode(_, _) => 5
    case TightCode(_, _, _) => 7
  }

  ghost function EncodeData(env: Env, m: Memory, code: RectCode): seq<Byte>
    requires ValidRect(env, m, code)
  {
    match code
    case CopyCode(_, oldX, oldY) => Put16(oldX) + Put16(oldY)
    case RreCode(_, background, subs) => R.Encode(background, subs)
    case HextileCode(r, tiles) => HE.EncodeTiles(tiles, TilesLeft(r, Total(r)), H.Start(m.hex, r))
    case TightCode(r, resets, code) => [TE.Head(code, resets)] + TE.EncodeBody(code, r)
  }

  ghost function DrawRect(env: Env, m: Memory, code: RectCode): seq<Call>
    requires ValidRect(env, m, code)
  {
    match code
    case CopyCode(r, oldX, oldY) => if r.w == 0 || r.h == 0 then [] else [CopyImage(oldX, oldY, r.x, r.y, r.w, r.h)]
    case RreCode(r, background, subs) => R.Draw(r, background, subs)
    case HextileCode(r, tiles) => HE.DrawTiles(tiles, TilesLeft(r, Total(r)), H.Start(m.hex, r))
    case TightCode(r, resets, code) => [TE.Draw(env.inf, T.AfterResets(m.tight.zlibs, TE.Head(code, resets)), code, r)]
  }

  ghost function AfterRect(env: Env, m: Memory, code: RectCode): (m': Memory)
    requires ValidRect(env, m, code)
    ensures Idle(m')
  {
    match code
    case CopyCode(_, _, _) => m
    case RreCode(_, _, _) => m
    case HextileCode(r, tiles) =>
      var s := H.Start(m.hex, r);
      m.(hex := HE.AfterTiles(tiles, TilesLeft(r, Total(r)), s))
    case TightCode(r, resets, code) =>
      m.(tight := TE.After(env.inf, m.tight.(zlibs := T.AfterResets(m.tight.zlibs, TE.Head(code, resets))), code, r))
  }

  function RectHead(r: Rect, encoding: nat): seq<Byte>
    requires Fits16(r) && encoding < 0x1_0000_0000
  {
    Put16(r.x) + Put16(r.y) + Put16(r.w) + Put16(r.h) + Put32(encoding)
  }

  // ---- One rectangle --------------------------------------------------------------------------------

  function Signed(n: nat): int {
    if n < 0x8000_0000 then n else n - 0x1_0000_0000
  }

  lemma HeadDecodes(env: Env, m: Memory, rects: nat, last: Rect, r: Rect, encoding: nat, more: seq<Byte>)
    requires m.hex.tiles == 0 && rects > 0 && Fits16(r) && encoding < 0x1_0000_0000
    ensures Step(env, Between(m, rects, last), RectHead(r, encoding) + more) ==
            Outcome(Within(m, rects, r, Signed(encoding)), more, [], Done)
  {
    var q := RectHead(r, encoding) + more;
    assert q[0..2] == Put16(r.x) && q[2..4] == Put16(r.y) && q[4..6] == Put16(r.w) && q[6..8] == Put16(r.h);
    assert q[8..12] == Put32(encoding) && q[12..] == more;
    Put32Signed(encoding);
  }

  lemma CopyDecodes(env: Env, m: Memory, rects: nat, code: RectCode, more: seq<Byte>)
    requires code.CopyCode? && rects > 0 && ValidRect(env, m, code)
    ensures CopyRect(Within(m, rects, code.rect, COPY_RECT), EncodeData(env, m, code) + more) ==
            Outcome(Within(m, rects, code.rect, COPY_RECT), more, DrawRect(env, m, code), Done)
  {
    var q := Put16(code.oldX) + Put16(code.oldY) + more;
    assert q[0..2] == Put16(code.oldX) && q[2..4] == Put16(code.oldY) && q[4..] == more;
  }

  lemma RreDecodes(env: Env, m: Memory, rects: nat, code: RectCode, more: seq<Byte>)
    requires code.RreCode? && rects > 0 && ValidRect(env, m, code)
    ensures RreRect(Within(m, rects, code.rect, RRE), EncodeData(env, m, code) + more) ==
            Outcome(Within(m, rects, code.rect, RRE), more, DrawRect(env, m, code), Done)
  {
    R.DecodesEncodingExactly(code.rect, code.background, code.subs, more);
  }

  lemma HextileDecodes(env: Env, m: Memory, rects: nat, code: RectCode, more: seq<Byte>)
    requires code.HextileCode? && rects > 0 && ValidRect(env, m, code)
    ensures HextileRect(Within(m, rects, code.rect, HEXTILE), EncodeData(env, m, code) + more) ==
            Outcome(Within(AfterRect(env, m, code), rects, code.rect, HEXTILE), more, DrawRect(env, m, code), Done)
  {
    HE.DecodesEncoding(code.tiles, code.rect, m.hex, more);
  }

  lemma TightDecodes(env: Env, m: Memory, rects: nat, code: RectCode, more: seq<Byte>)
    requires code.TightCode? && rects > 0 && ValidRect(env, m, code) && |more| >= Slack(code)
    ensures TightRect(env, Within(m, rects, code.rect, TIGHT), EncodeData(env, m, code) + more) ==
            Outcome(Within(AfterRect(env, m, code), rects, code.rect, TIGHT), more, DrawRect(env, m, code), Done)
  {
    var body := TE.EncodeBody(code.code, code.rect);
    assert EncodeData(env, m, code) + more == [TE.Head(code.code, code.resets)] + (body + more);
    TE.SlackIsExact(code.code, code.rect, more);
    TE.DecodesEncoding(env.inf, m.tight, code.resets, code.code, code.rect, more);
  }

  lemma Dispatches(env: Env, c: Client, q: seq<Byte>, encoding: int)
    requires c.fbu.encoding == Some(encoding)
    ensures encoding == COPY_RECT ==> HandleRect(env, c, q) == CopyRect(c, q)
    ensures encoding == RRE ==> HandleRect(env, c, q) == RreRect(c, q)
    ensures encoding == HEXTILE ==> HandleRect(env, c, q) == HextileRect(c, q)
    ensures encoding == TIGHT ==> HandleRect(env, c, q) == TightRect(env, c, q)
  {
  }

  lemma DataDecodes(env: Env, m: Memory, rects: nat, code: RectCode, more: seq<Byte>)
    requires rects > 0 && ValidRect(env, m, code) && |more| >= Slack(code)
    ensures HandleRect(env, Within(m, rects, code.rect, Number(code)), EncodeData(env, m, code) + more) ==
            Outcome(Within(AfterRect(env, m, code), rects, code.rect, Number(code)), more, DrawRect(env, m, code), Done)
  {
    Dispatches(env, Within(m, rects, code.rect, Number(code)), EncodeData(env, m, code) + more, Number(code));
    match code
    case CopyCode(_, _, _) => CopyDecodes(env, m, rects, code, more);
    case RreCode(_, _, _) => RreDecodes(env, m, rects, code, more);
    case HextileCode(_, _) => HextileDecodes(env, m, rects, code, more);
    case TightCode(_, _, _) => TightDecodes(env, m, rects, code, more);
  }

  ghost function EncodeRect(env: Env, m: Memory, code: RectCode): seq<Byte>
    requires ValidRect(env, m, code)
  {
    RectHead(code.rect, Number(code)) + EncodeData(env, m, code)
  }

  lemma EndStep(env: Env, c: Client, q: seq<Byte>, o: Outcome<Client>)
    requires c.fbu.encoding.Some? && HandleRect(env, c, q) == o && o.verdict.Done?
    ensures Step(env, c, q) ==
            Outcome(o.state.(fbu := o.state.fbu.(rects := o.state.fbu.rects - 1, encoding := None)), o.rest,
                    o.calls + FinishIf(env, o.state.fbu.rects == 1), Done)
  {
  }

  lemma RectStep(env: Env, m: Memory, rects: nat, code: RectCode, more: seq<Byte>)
    requires rects > 0 && ValidRect(env, m, code) && |more| >= Slack(code)
    ensures Step(env, Within(m, rects, code.rect, Number(code)), EncodeData(env, m, code) + more) ==
            Outcome(Between(AfterRect(env, m, code), rects - 1, code.rect), more,
                    DrawRect(env, m, code) + FinishIf(env, rects == 1), Done)
  {
    DataDecodes(env, m, rects, code, more);
    EndStep(env, Within(m, rects, code.rect, Number(code)), EncodeData(env, m, code) + more,
            Outcome(Within(AfterRect(env, m, code), rects, code.rect, Number(code)), more, DrawRect(env, m, code),
              Done));
  }

  /** A step of the client is a step of the machine. */
  lemma ClientLeads(env: Env, c: Client, q: seq<Byte>, o: Outcome<Client>)
    requires Step(env, c, q) == o && o.verdict.Done? && (c.fbu.rects == 0 ==> o.calls == [])
    ensures Updates(env).Valid() && Leads(Updates(env), c, q, o.state, o.rest, o.calls)
  {
    UpdatesIsValid(env);
    StepLeads(Updates(env), c, q, o);
  }

  lemma RectStepsLead(env: Env, c: Client, q: seq<Byte>, c1: Client, q1: seq<Byte>, c2: Client, q2: seq<Byte>,
                      calls: seq<Call>)
    requires c.fbu.rects > 0 && c1.fbu.rects > 0
    requires Step(env, c, q) == Outcome(c1, q1, [], Done) && Step(env, c1, q1) == Outcome(c2, q2, calls, Done)
    ensures Updates(env).Valid() && Leads(Updates(env), c, q, c2, q2, calls)
  {
    UpdatesIsValid(env);
    TwoStepsLead(Updates(env), c, q, c1, q1, c2, q2, calls);
  }

  lemma HeadStep(env: Env, m: Memory, rects: nat, last: Rect, code: RectCode, more: seq<Byte>)
    requires rects > 0 && ValidRect(env, m, code)
    ensures Step(env, Between(m, rects, last), EncodeRect(env, m, code) + more) ==
            Outcome(Within(m, rects, code.rect, Number(code)), EncodeData(env, m, code) + more, [], Done)
  {
    var head, data := RectHead(code.rect, Number(code)), EncodeData(env, m, code);
    assert head + data + more == head + (data + more);
    HeadDecodes(env, m, rects, last, code.rect, Number(code), data + more);
  }

  lemma RectLeads(env: Env, m: Memory, rects: nat, last: Rect, code: RectCode, more: seq<Byte>)
    requires rects > 0 && ValidRect(env, m, code) && |more| >= Slack(code)
    ensures Updates(env).Valid()
    ensures Leads(Updates(env), Between(m, rects, last), EncodeRect(env, m, code) + more,
                  Between(AfterRect(env, m, code), rects - 1, code.rect), more,
                  DrawRect(env, m, code) + FinishIf(env, rects == 1))
  {
    HeadStep(env, m, rects, last, code, more);
    RectStep(env, m, rects, code, more);
    RectStepsLead(env, Between(m, rects, last), EncodeRect(env, m, code) + more,
                  Within(m, rects, code.rect, Number(code)), EncodeData(env, m, code) + more,
                  Between(AfterRect(env, m, code), rects - 1, code.rect), more, DrawRect(env, m, code) +
                    FinishIf(env, rects == 1));
  }

  // ---- Updates --------------------------------------------------------------------------------------

  /** A rectangle as it is sent, what it draws, what the decoders keep, and how many bytes must follow it. */
  datatype Piece = Piece(bytes: seq<Byte>, calls: seq<Call>, after: Memory, rect: Rect, slack: nat)

  /** Wherever it stands in an update, the bytes make the client, as the machine `u`, draw it. */
  ghost predicate Means(u: Machine<Client>, env: Env, m: Memory, p: Piece)
    requires u.Valid()
  {
    && Idle(m) && Idle(p.after)
    && |p.bytes| >= 12 && p.slack <= 2
    && forall rects: nat, last: Rect, more: seq<Byte> ::
         rects > 0 && |more| >= p.slack ==> MeansHere(u, env, m, p, rects, last, more)
  }

  ghost predicate MeansHere(u: Machine<Client>, env: Env, m: Memory, p: Piece, rects: nat, last: Rect, more: seq<Byte>)
    requires u.Valid() && Idle(m) && Idle(p.after) && rects > 0
  {
    Leads(u, Between(m, rects, last), p.bytes + more, Between(p.after, rects - 1, p.rect), more,
          p.calls + FinishIf(env, rects == 1))
  }

  ghost function PieceOf(env: Env, m: Memory, code: RectCode): Piece
    requires ValidRect(env, m, code)
  {
    Piece(EncodeRect(env, m, code), DrawRect(env, m, code), AfterRect(env, m, code), code.rect, Slack(code))
  }

  /** Rectangles one after the other. */
  ghost predicate Chain(u: Machine<Client>, env: Env, m: Memory, ps: seq<Piece>)
    requires u.Valid()
    decreases |ps|
  {
    Idle(m) && (ps == [] || (Means(u, env, m, ps[0]) && Chain(u, env, ps[0].after, ps[1..])))
  }

  function BytesOf(ps: seq<Piece>): seq<Byte> {
    if ps == [] then [] else ps[0].bytes + BytesOf(ps[1..])
  }

  function CallsOf(ps: seq<Piece>): seq<Call> {
    if ps == [] then [] else ps[0].calls + CallsOf(ps[1..])
  }

  function AfterAll(m: Memory, ps: seq<Piece>): Memory {
    if ps == [] then m else ps[|ps| - 1].after
  }

  function SlackOf(ps: seq<Piece>): nat {
    if ps == [] then 0 else ps[|ps| - 1].slack
  }

  function LastOf(last: Rect, ps: seq<Piece>): Rect {
    if ps == [] then last else ps[|ps| - 1].rect
  }

  lemma {:induction false} PiecesLead(u: Machine<Client>, env: Env, m: Memory, rects: nat, last: Rect, ps: seq<Piece>,
                                      more: seq<Byte>)
    requires u.Valid() && Chain(u, env, m, ps) && |ps| <= rects && rects > 0 && |more| >= SlackOf(ps)
    ensures Idle(AfterAll(m, ps))
    ensures Leads(u, Between(m, rects, last), BytesOf(ps) + more,
                  Between(AfterAll(m, ps), rects - |ps|, LastOf(last, ps)), more,
                  CallsOf(ps) + FinishIf(env, |ps| == rects))
    decreases |ps|
  {
    if ps == [] {
      assert BytesOf(ps) + more == more && CallsOf(ps) + FinishIf(env, false) == [];
      LeadsNowhere(u, Between(m, rects, last), more);
    } else {
      var p, tail := ps[0], BytesOf(ps[1..]) + more;
      assert BytesOf(ps) + more == p.bytes + tail;
      assert ps[1..] == [] ==> tail == more;
      assert MeansHere(u, env, m, p, rects, last, tail);
      if rects == 1 {
        assert ps[1..] == [] && tail == more && CallsOf(ps) == p.calls;
      } else {
        PiecesLead(u, env, p.after, rects - 1, p.rect, ps[1..], more);
        var end := FinishIf(env, |ps| == rects);
        assert p.calls + FinishIf(env, false) == p.calls;
        LeadsOn(u, Between(m, rects, last), p.bytes + tail, Between(p.after, rects - 1, p.rect), tail, p.calls,
                Between(AfterAll(m, ps), rects - |ps|, LastOf(last, ps)), more, CallsOf(ps[1..]) + end);
        assert p.calls + (CallsOf(ps[1..]) + end) == CallsOf(ps) + end;
      }
    }
  }

  ghost predicate ValidRects(env: Env, m: Memory, codes: seq<RectCode>)
    decreases |codes|
  {
    Idle(m) && (codes == []
      || (ValidRect(env, m, codes[0]) && ValidRects(env, AfterRect(env, m, codes[0]), codes[1..])))
  }

  ghost function PiecesOf(env: Env, m: Memory, codes: seq<RectCode>): (ps: seq<Piece>)
    requires ValidRects(env, m, codes)
    ensures |ps| == |codes|
    decreases |codes|
  {
    if codes == [] then [] else [PieceOf(env, m, codes[0])] + PiecesOf(env, AfterRect(env, m, codes[0]), codes[1..])
  }

  lemma {:induction false} LastSlack(env: Env, m: Memory, codes: seq<RectCode>)
    requires ValidRects(env, m, codes) && codes != []
    ensures SlackOf(PiecesOf(env, m, codes)) == Slack(codes[|codes| - 1])
    decreases |codes|
  {
    var ps, tail := PiecesOf(env, m, codes), codes[1..];
    if tail != [] {
      LastSlack(env, AfterRect(env, m, codes[0]), tail);
      assert ps[1..] == PiecesOf(env, AfterRect(env, m, codes[0]), tail);
    }
  }

  // ---- Whole updates --------------------------------------------------------------------------------

  const NOWHERE := Rect(0, 0, 0, 0)
  const MARKER: nat := 0x1_0000_0000 - 224

  function UpdateHead(count: nat): seq<Byte>
    requires count < 0x1_0000
  {
    [0, 0] + Put16(count)
  }

  function Count(u: Update): nat {
    if u.marked.Some? then u.marked.value else |u.rects|
  }

  /** An update with at least one rectangle or a marker. */
  ghost predicate ValidUpdate(env: Env, m: Memory, u: Update) {
    ValidRects(env, m, u.rects) && 0 < Count(u) < 0x1_0000 && (u.marked.Some? ==> |u.rects| < u.marked.value)
  }

  /** How many bytes must follow an update: a marker is bytes enough. */
  function SlackAfter(u: Update): (n: nat)
    ensures n <= 2
  {
    if u.marked.Some? || u.rects == [] then 0 else Slack(u.rects[|u.rects| - 1])
  }

  ghost function EncodeUpdate(env: Env, m: Memory, u: Update): (bytes: seq<Byte>)
    requires ValidUpdate(env, m, u)
    ensures |bytes| >= 4
  {
    UpdateHead(Count(u)) + BytesOf(PiecesOf(env, m, u.rects)) +
      (if u.marked.Some? then RectHead(NOWHERE, MARKER) else [])
  }

  /** The rectangles in order, then a flip, then perhaps a request. */
  ghost function DrawUpdate(env: Env, m: Memory, u: Update): seq<Call>
    requires ValidUpdate(env, m, u)
  {
    CallsOf(PiecesOf(env, m, u.rects)) + Finish(env)
  }

  ghost function UpdatePiece(env: Env, m: Memory, u: Update): Piece
    requires ValidUpdate(env, m, u)
  {
    var ps := PiecesOf(env, m, u.rects);
    Piece(EncodeUpdate(env, m, u), DrawUpdate(env, m, u), AfterAll(m, ps),
          if u.marked.Some? then NOWHERE else LastOf(NOWHERE, ps), SlackAfter(u))
  }

  /** What the steps of a machine must achieve for updates to be drawn by it. */
  ghost predicate Draws(u: Machine<Client>, env: Env) {
    && u.Valid()
    && (forall c: Client :: c.fbu.rects == 0 ==> u.Hungry(c))
    && (forall m: Memory, last: Rect, count: nat, more: seq<Byte> ::
          Idle(m) && 0 < count < 0x1_0000 ==> HeadHere(u, m, last, count, more))
    && (forall m: Memory, rects: nat, last: Rect, more: seq<Byte> ::
          Idle(m) && rects > 0 ==> MarkerHere(u, env, m, rects, last, more))
    && (forall m: Memory, code: RectCode :: ValidRect(env, m, code) ==> Means(u, env, m, PieceOf(env, m, code)))
  }

  ghost predicate HeadHere(u: Machine<Client>, m: Memory, last: Rect, count: nat, more: seq<Byte>)
    requires u.Valid() && Idle(m) && 0 < count < 0x1_0000
  {
    Leads(u, Between(m, 0, last), UpdateHead(count) + more, Between(m, count, last), more, [])
  }

  ghost predicate MarkerHere(u: Machine<Client>, env: Env, m: Memory, rects: nat, last: Rect, more: seq<Byte>)
    requires u.Valid() && Idle(m) && rects > 0
  {
    Leads(u, Between(m, rects, last), RectHead(NOWHERE, MARKER) + more, Between(m, 0, NOWHERE), more, Finish(env))
  }

  lemma UpdateHeadLeads(env: Env, m: Memory, last: Rect, count: nat, more: seq<Byte>)
    requires Idle(m) && 0 < count < 0x1_0000
    ensures Updates(env).Valid() && HeadHere(Updates(env), m, last, count, more)
  {
    var q := UpdateHead(count) + more;
    assert q[2..4] == Put16(count) && q[4..] == more;
    ClientLeads(env, Between(m, 0, last), q, Outcome(Between(m, count, last), more, [], Done));
  }

  lemma MarkerLeads(env: Env, m: Memory, rects: nat, last: Rect, more: seq<Byte>)
    requires Idle(m) && rects > 0
    ensures Updates(env).Valid() && MarkerHere(Updates(env), env, m, rects, last, more)
  {
    var c0, c1, c2 := Between(m, rects, last), Within(m, rects, NOWHERE, LAST_RECT), Between(m, 0, NOWHERE);
    HeadDecodes(env, m, rects, last, NOWHERE, MARKER, more);
    EndStep(env, c1, more, Outcome(Within(m, 1, NOWHERE, LAST_RECT), more, [], Done));
    assert [] + Finish(env) == Finish(env);
    RectStepsLead(env, c0, RectHead(NOWHERE, MARKER) + more, c1, more, c2, more, Finish(env));
  }

  lemma RectMeans(env: Env, m: Memory, code: RectCode)
    requires ValidRect(env, m, code)
    ensures Updates(env).Valid() && Means(Updates(env), env, m, PieceOf(env, m, code))
  {
    UpdatesIsValid(env);
    forall rects: nat, last: Rect, more: seq<Byte> | rects > 0 && |more| >= Slack(code)
      ensures MeansHere(Updates(env), env, m, PieceOf(env, m, code), rects, last, more)
    {
      RectLeads(env, m, rects, last, code, more);
    }
  }

  lemma RestIsHungry(env: Env, c: Client)
    requires c.fbu.rects == 0
    ensures Updates(env).Hungry(c)
  {
  }

  lemma ClientDraws(env: Env)
    ensures Draws(Updates(env), env)
  {
    UpdatesIsValid(env);
    forall c: Client | c.fbu.rects == 0
      ensures Updates(env).Hungry(c)
    {
      RestIsHungry(env, c);
    }
    forall m: Memory, last: Rect, count: nat, more: seq<Byte> | Idle(m) && 0 < count < 0x1_0000
      ensures HeadHere(Updates(env), m, last, count, more)
    {
      UpdateHeadLeads(env, m, last, count, more);
    }
    forall m: Memory, rects: nat, last: Rect, more: seq<Byte> | Idle(m) && rects > 0
      ensures MarkerHere(Updates(env), env, m, rects, last, more)
    {
      MarkerLeads(env, m, rects, last, more);
    }
    forall m: Memory, code: RectCode | ValidRect(env, m, code)
      ensures Means(Updates(env), env, m, PieceOf(env, m, code))
    {
      RectMeans(env, m, code);
    }
  }

  // ---- Drawing them ---------------------------------------------------------------------------------

  lemma {:induction false} PiecesChain(u: Machine<Client>, env: Env, m: Memory, codes: seq<RectCode>)
    requires Draws(u, env) && ValidRects(env, m, codes)
    ensures Chain(u, env, m, PiecesOf(env, m, codes))
    decreases |codes|
  {
    if codes != [] {
      var ps := PiecesOf(env, m, codes);
      PiecesChain(u, env, AfterRect(env, m, codes[0]), codes[1..]);
      assert Means(u, env, m, PieceOf(env, m, codes[0]));
      assert ps[1..] == PiecesOf(env, AfterRect(env, m, codes[0]), codes[1..]);
    }
  }

  lemma PlainUpdateLeads(u: Machine<Client>, env: Env, m: Memory, last: Rect, ps: seq<Piece>, more: seq<Byte>)
    requires Draws(u, env) && Chain(u, env, m, ps) && 0 < |ps| < 0x1_0000 && |more| >= SlackOf(ps)
    ensures Idle(AfterAll(m, ps))
    ensures Leads(u, Between(m, 0, last), UpdateHead(|ps|) + (BytesOf(ps) + more),
                  Between(AfterAll(m, ps), 0, LastOf(NOWHERE, ps)), more, CallsOf(ps) + Finish(env))
  {
    var body := BytesOf(ps) + more;
    assert HeadHere(u, m, last, |ps|, body);
    PiecesLead(u, env, m, |ps|, last, ps, more);
    LeadsOn(u, Between(m, 0, last), UpdateHead(|ps|) + body, Between(m, |ps|, last), body, [],
            Between(AfterAll(m, ps), 0, LastOf(last, ps)), more, CallsOf(ps) + Finish(env));
    assert [] + (CallsOf(ps) + Finish(env)) == CallsOf(ps) + Finish(env);
  }

  lemma {:induction false} SlackIsSmall(u: Machine<Client>, env: Env, m: Memory, ps: seq<Piece>)
    requires u.Valid() && Chain(u, env, m, ps)
    ensures SlackOf(ps) <= 2
    decreases |ps|
  {
    if |ps| > 1 {
      SlackIsSmall(u, env, ps[0].after, ps[1..]);
    }
  }

  lemma MarkedUpdateLeads(u: Machine<Client>, env: Env, m: Memory, last: Rect, ps: seq<Piece>, count: nat,
                          more: seq<Byte>)
    requires Draws(u, env) && Chain(u, env, m, ps) && |ps| < count < 0x1_0000
    ensures Idle(AfterAll(m, ps))
    ensures Leads(u, Between(m, 0, last), UpdateHead(count) + (BytesOf(ps) + (RectHead(NOWHERE, MARKER) + more)),
                  Between(AfterAll(m, ps), 0, NOWHERE), more, CallsOf(ps) + Finish(env))
  {
    var marked := RectHead(NOWHERE, MARKER) + more;
    var body := BytesOf(ps) + marked;
    SlackIsSmall(u, env, m, ps);
    assert |RectHead(NOWHERE, MARKER)| == 12;
    assert HeadHere(u, m, last, count, body);
    PiecesLead(u, env, m, count, last, ps, marked);
    assert CallsOf(ps) + FinishIf(env, false) == CallsOf(ps);
    LeadsOn(u, Between(m, 0, last), UpdateHead(count) + body, Between(m, count, last), body, [],
            Between(AfterAll(m, ps), count - |ps|, LastOf(last, ps)), marked, CallsOf(ps));
    assert [] + CallsOf(ps) == CallsOf(ps);
    assert MarkerHere(u, env, AfterAll(m, ps), count - |ps|, LastOf(last, ps), more);
    LeadsOn(u, Between(m, 0, last), UpdateHead(count) + body,
            Between(AfterAll(m, ps), count - |ps|, LastOf(last, ps)), marked, CallsOf(ps),
            Between(AfterAll(m, ps), 0, NOWHERE), more, Finish(env));
  }

  lemma Regroup<T>(a: seq<T>, b: seq<T>, c: seq<T>, d: seq<T>)
    ensures a + b + c + d == a + (b + (c + d)) && a + b + [] + d == a + (b + d)
  {
  }

  lemma UpdateLeads(u: Machine<Client>, env: Env, m: Memory, last: Rect, update: Update, more: seq<Byte>)
    requires Draws(u, env) && ValidUpdate(env, m, update) && |more| >= SlackAfter(update)
    ensures Idle(UpdatePiece(env, m, update).after)
    ensures var p := UpdatePiece(env, m, update);
            Leads(u, Between(m, 0, last), p.bytes + more, Between(p.after, 0, p.rect), more, p.calls)
  {
    var ps := PiecesOf(env, m, update.rects);
    PiecesChain(u, env, m, update.rects);
    if update.rects != [] {
      LastSlack(env, m, update.rects);
    }
    if update.marked.Some? {
      Regroup(UpdateHead(update.marked.value), BytesOf(ps), RectHead(NOWHERE, MARKER), more);
      MarkedUpdateLeads(u, env, m, last, ps, update.marked.value, more);
    } else {
      Regroup(UpdateHead(|ps|), BytesOf(ps), [], more);
      PlainUpdateLeads(u, env, m, last, ps, more);
    }
  }

  /** Updates one after the other. */
  ghost predicate ValidUpdates(env: Env, m: Memory, us: seq<Update>)
    decreases |us|
  {
    Idle(m) && (us == []
      || (ValidUpdate(env, m, us[0]) && ValidUpdates(env, UpdatePiece(env, m, us[0]).after, us[1..])))
  }

  ghost function EncodeUpdates(env: Env, m: Memory, us: seq<Update>): seq<Byte>
    requires ValidUpdates(env, m, us)
    decreases |us|
  {
    if us == [] then []
    else EncodeUpdate(env, m, us[0]) + EncodeUpdates(env, UpdatePiece(env, m, us[0]).after, us[1..])
  }

  ghost function DrawUpdates(env: Env, m: Memory, us: seq<Update>): seq<Call>
    requires ValidUpdates(env, m, us)
    decreases |us|
  {
    if us == [] then []
    else DrawUpdate(env, m, us[0]) + DrawUpdates(env, UpdatePiece(env, m, us[0]).after, us[1..])
  }

  /** The client after the updates. */
  ghost function AfterUpdates(env: Env, m: Memory, last: Rect, us: seq<Update>): (c: Client)
    requires ValidUpdates(env, m, us)
    ensures c.fbu.rects == 0 && c.fbu.encoding.None?
    decreases |us|
  {
    if us == [] then Between(m, 0, last)
    else AfterUpdates(env, UpdatePiece(env, m, us[0]).after, UpdatePiece(env, m, us[0]).rect, us[1..])
  }

  /** How many bytes must follow the last of the updates. */
  function SlackAfterAll(us: seq<Update>): (n: nat)
    ensures n <= 2
  {
    if us == [] then 0 else SlackAfter(us[|us| - 1])
  }

  lemma Associates<T>(a: seq<T>, b: seq<T>, c: seq<T>)
    ensures a + b + c == a + (b + c)
  {
  }

  /** The next update is bytes enough. */
  lemma SlackLeft(env: Env, m: Memory, us: seq<Update>, more: seq<Byte>)
    requires ValidUpdates(env, m, us) && us != [] && |more| >= SlackAfterAll(us)
    ensures |EncodeUpdates(env, UpdatePiece(env, m, us[0]).after, us[1..]) + more| >= SlackAfter(us[0])
    ensures |more| >= SlackAfterAll(us[1..])
  {
  }

  lemma {:induction false} UpdatesLead(u: Machine<Client>, env: Env, m: Memory, last: Rect, us: seq<Update>,
                                       more: seq<Byte>)
    requires Draws(u, env) && ValidUpdates(env, m, us) && |more| >= SlackAfterAll(us)
    ensures Leads(u, Between(m, 0, last), EncodeUpdates(env, m, us) + more,
                  AfterUpdates(env, m, last, us), more, DrawUpdates(env, m, us))
    decreases |us|
  {
    if us == [] {
      assert EncodeUpdates(env, m, us) + more == more;
      LeadsNowhere(u, Between(m, 0, last), more);
    } else {
      var p, tail := UpdatePiece(env, m, us[0]), us[1..];
      var bytes := EncodeUpdates(env, p.after, tail) + more;
      Associates(p.bytes, EncodeUpdates(env, p.after, tail), more);
      SlackLeft(env, m, us, more);
      UpdateLeads(u, env, m, last, us[0], bytes);
      UpdatesLead(u, env, p.after, p.rect, tail, more);
      LeadsOn(u, Between(m, 0, last), p.bytes + bytes, Between(p.after, 0, p.rect), bytes, p.calls,
              AfterUpdates(env, p.after, p.rect, tail), more, DrawUpdates(env, p.after, tail));
    }
  }

  lemma DrawnByMachine(u: Machine<Client>, env: Env, m: Memory, last: Rect, us: seq<Update>, events: seq<Event>)
    requires Draws(u, env) && ValidUpdates(env, m, us) && SlackAfterAll(us) == 0
             && Arrived(events) == EncodeUpdates(env, m, us)
    requires !HandleAll(u, Opened(Between(m, 0, last)), events).flushing
    ensures var k := HandleAll(u, Opened(Between(m, 0, last)), events);
            && !k.failed && k.client == AfterUpdates(env, m, last, us) && k.unread == []
            && k.calls == DrawUpdates(env, m, us)
  {
    var bytes := EncodeUpdates(env, m, us);
    UpdatesLead(u, env, m, last, us, []);
    assert bytes + [] == bytes;
    ComesToRest(u, Between(m, 0, last), bytes, AfterUpdates(env, m, last, us), DrawUpdates(env, m, us), events);
  }

  /** Every update is drawn: for any updates, cut into messages in any way, held up by the display after any header
      and as often as may be, a client that is not held up has drawn exactly what the updates mean, in their order,
      and waits for the next message with nothing left unread.  Only the very last rectangle must not be one that the
      decoder takes for complete when more follows. */
  lemma EveryUpdateIsDrawn(env: Env, m: Memory, last: Rect, us: seq<Update>, events: seq<Event>)
    requires ValidUpdates(env, m, us) && SlackAfterAll(us) == 0
    requires Updates(env).Valid() && Arrived(events) == EncodeUpdates(env, m, us)
    requires !HandleAll(Updates(env), Opened(Between(m, 0, last)), events).flushing
    ensures var k := HandleAll(Updates(env), Opened(Between(m, 0, last)), events);
            && !k.failed && k.client == AfterUpdates(env, m, last, us) && k.unread == []
            && k.calls == DrawUpdates(env, m, us)
  {
    ClientDraws(env);
    DrawnByMachine(Updates(env), env, m, last, us, events);
  }
}
