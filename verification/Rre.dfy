/**
 The RRE decoder of `html/static/js/core/decoders/rre.js` (section 7.7.3 of RFC 6143): a background and a
 number of solid sub-rectangles.  The decoder's only field is the number of sub-rectangles still to come.
 */
module Rre {
  import opened Bytes
  import opened Decoding
  import W = Websock

  /** The sub-rectangle in twelve bytes, moved to its place in the framebuffer. */
  function SubRect(r: Rect, b: seq<Byte>): Call
    requires |b| == 12
  {
    FillRect(r.x + U16(b[4..6]), r.y + U16(b[6..8]), U16(b[8..10]), U16(b[10..12]), b[..4], Received)
  }

  /** The loop of `decodeRect`. */
  function Loop(n: int, r: Rect, q: seq<Byte>): (o: Outcome<int>)
    ensures |o.rest| <= |q|
    decreases |q|
  {
    if n <= 0 then Outcome(n, q, [], Done)
    else if |q| < 12 then Outcome(n, q, [], Wait)
    else Loop(n - 1, r, q[12..]).After([SubRect(r, q[..12])])
  }

  /** `decodeRect`, called with `n` sub-rectangles outstanding. */
  function Decode(n: int, r: Rect, q: seq<Byte>): (o: Outcome<int>)
    ensures |o.rest| <= |q|
  {
    if n != 0 then Loop(n, r, q)
    else if |q| < 8 then Outcome(n, q, [], Wait)
    else Loop(S32(q[..4]), r, q[8..]).After([FillRect(r.x, r.y, r.w, r.h, q[4..8], Received)])
  }

  lemma {:induction false} LoopResumes(n: int, r: Rect, q: seq<Byte>, more: seq<Byte>)
    ensures var first := Loop(n, r, q);
            Resumes(first, Loop(first.state, r, first.rest + more), Loop(n, r, q + more), more)
    ensures Loop(n, r, q).verdict.Wait? ==> Loop(n, r, q).state > 0
    decreases |q|
  {
    if n > 0 {
      if |q| < 12 {
        ResumesAtOnce(Loop(n, r, q), Loop(n, r, q + more), more);
      } else {
        Shorter(q, more, 12);
        LoopResumes(n - 1, r, q[12..], more);
        var first := Loop(n - 1, r, q[12..]);
        ResumesAfter(first, Loop(first.state, r, first.rest + more), Loop(n - 1, r, q[12..] + more), more,
                     [SubRect(r, q[..12])]);
      }
    }
  }

  /** However the bytes are cut, being called again gives what one call on all bytes gives. */
  lemma DecodeResumes(n: int, r: Rect, q: seq<Byte>, more: seq<Byte>)
    ensures var first := Decode(n, r, q);
            Resumes(first, Decode(first.state, r, first.rest + more), Decode(n, r, q + more), more)
  {
    if n != 0 {
      LoopResumes(n, r, q, more);
    } else if |q| < 8 {
      ResumesAtOnce(Decode(n, r, q), Decode(n, r, q + more), more);
    } else {
      Shorter(q, more, 8);
      assert (q + more)[..4] == q[..4] && (q + more)[4..8] == q[4..8];
      LoopResumes(S32(q[..4]), r, q[8..], more);
      var first := Loop(S32(q[..4]), r, q[8..]);
      ResumesAfter(first, Loop(first.state, r, first.rest + more), Loop(S32(q[..4]), r, q[8..] + more), more,
                   [FillRect(r.x, r.y, r.w, r.h, q[4..8], Received)]);
    }
  }

  // ---- The encoding of the standard -----------------------------------------------------------------

  datatype Sub = Sub(color: seq<Byte>, x: nat, y: nat, w: nat, h: nat)
  {
    predicate Valid() {
      |color| == 4 && x < 0x1_0000 && y < 0x1_0000 && w < 0x1_0000 && h < 0x1_0000
    }
  }

  function EncodeSub(s: Sub): (b: seq<Byte>)
    requires s.Valid()
    ensures |b| == 12
  {
    s.color + Put16(s.x) + Put16(s.y) + Put16(s.w) + Put16(s.h)
  }

  function EncodeSubs(subs: seq<Sub>): seq<Byte>
    requires forall s :: s in subs ==> s.Valid()
  {
    if subs == [] then []
    else
      assert subs[0] in subs;
      EncodeSub(subs[0]) + EncodeSubs(subs[1..])
  }

  function DrawSubs(r: Rect, subs: seq<Sub>): seq<Call> {
    if subs == [] then []
    else
      [FillRect(r.x + subs[0].x, r.y + subs[0].y, subs[0].w, subs[0].h, subs[0].color, Received)] +
      DrawSubs(r, subs[1..])
  }

  function Encode(background: seq<Byte>, subs: seq<Sub>): seq<Byte>
    requires |subs| < 0x1_0000_0000 && forall s :: s in subs ==> s.Valid()
  {
    Put32(|subs|) + background + EncodeSubs(subs)
  }

  /** The picture: the background, then the sub-rectangles in order. */
  function Draw(r: Rect, background: seq<Byte>, subs: seq<Sub>): seq<Call> {
    [FillRect(r.x, r.y, r.w, r.h, background, Received)] + DrawSubs(r, subs)
  }

  lemma SubRectDecodes(r: Rect, s: Sub)
    requires s.Valid()
    ensures SubRect(r, EncodeSub(s)) == FillRect(r.x + s.x, r.y + s.y, s.w, s.h, s.color, Received)
  {
    var b := EncodeSub(s);
    var x, y, w, h := Put16(s.x), Put16(s.y), Put16(s.w), Put16(s.h);
    Middle([], s.color, x + y + w + h);
    assert [] + s.color + (x + y + w + h) == b;
    Middle(s.color, x, y + w + h);
    assert s.color + x + (y + w + h) == b;
    Middle(s.color + x, y, w + h);
    assert s.color + x + y + (w + h) == b;
    Middle(s.color + x + y, w, h);
    Middle(s.color + x + y + w, h, []);
    assert s.color + x + y + w + h + [] == b;
  }

  lemma {:induction false} LoopDecodes(r: Rect, subs: seq<Sub>, t: seq<Byte>)
    requires forall s :: s in subs ==> s.Valid()
    ensures Loop(|subs|, r, EncodeSubs(subs) + t) == Outcome(0, t, DrawSubs(r, subs), Done)
    decreases |subs|
  {
    if subs == [] {
      assert EncodeSubs(subs) + t == t;
    } else {
      FirstSub(subs, t);
      SubRectDecodes(r, subs[0]);
      LoopDecodes(r, subs[1..], t);
      LoopTakes(|subs|, r, EncodeSubs(subs) + t, DrawSubs(r, subs)[0], Outcome(0, t, DrawSubs(r, subs[1..]), Done));
    }
  }

  lemma LoopTakes(n: int, r: Rect, q: seq<Byte>, c: Call, o: Outcome<int>)
    requires n > 0 && |q| >= 12 && SubRect(r, q[..12]) == c && Loop(n - 1, r, q[12..]) == o
    ensures Loop(n, r, q) == o.After([c])
  {
  }

  lemma FirstSub(subs: seq<Sub>, t: seq<Byte>)
    requires subs != [] && forall s :: s in subs ==> s.Valid()
    ensures subs[0] in subs
    ensures var q := EncodeSubs(subs) + t;
            |q| >= 12 && q[..12] == EncodeSub(subs[0]) && q[12..] == EncodeSubs(subs[1..]) + t
  {
    assert EncodeSubs(subs) == EncodeSub(subs[0]) + EncodeSubs(subs[1..]);
    Parts(EncodeSub(subs[0]), EncodeSubs(subs[1..]), t);
  }

  lemma Parts(a: seq<Byte>, b: seq<Byte>, t: seq<Byte>)
    ensures (a + b + t)[..|a|] == a && (a + b + t)[|a|..] == b + t
  {
    assert a + b + t == a + (b + t);
  }

  /** The decoder draws what the standard's encoding means, reads it to the end and no further, and is ready
      for the next rectangle: exactly for pictures of fewer than 2^31 sub-rectangles. */
  lemma DecodesEncodingExactly(r: Rect, background: seq<Byte>, subs: seq<Sub>, t: seq<Byte>)
    requires |background| == 4 && |subs| < 0x1_0000_0000 && forall s :: s in subs ==> s.Valid()
    ensures Decode(0, r, Encode(background, subs) + t) == Outcome(0, t, Draw(r, background, subs), Done)
            <==> |subs| < 0x8000_0000
  {
    HeaderOf(background, subs, t);
    if |subs| < 0x8000_0000 {
      LoopDecodes(r, subs, t);
    }
  }

  lemma HeaderOf(background: seq<Byte>, subs: seq<Sub>, t: seq<Byte>)
    requires |background| == 4 && |subs| < 0x1_0000_0000 && forall s :: s in subs ==> s.Valid()
    ensures var q := Encode(background, subs) + t;
            && |q| >= 8 && q[4..8] == background && q[8..] == EncodeSubs(subs) + t
            && S32(q[..4]) == if |subs| < 0x8000_0000 then |subs| else |subs| - 0x1_0000_0000
  {
    var q := Encode(background, subs) + t;
    assert q == Put32(|subs|) + background + (EncodeSubs(subs) + t);
    assert q[..4] == Put32(|subs|);
    Put32Signed(|subs|);
  }

  /** From 2^31 sub-rectangles on the count is read as a negative number: only the background is drawn, and
      the next RRE rectangle is taken for complete without being read. */
  lemma LargeCountsAreLost(r: Rect, background: seq<Byte>, subs: seq<Sub>, t: seq<Byte>, r': Rect)
    requires |background| == 4 && |subs| < 0x1_0000_0000 && forall s :: s in subs ==> s.Valid()
    requires |subs| >= 0x8000_0000
    ensures var o := Decode(0, r, Encode(background, subs) + t);
            && o == Outcome(|subs| - 0x1_0000_0000, EncodeSubs(subs) + t, Draw(r, background, []), Done)
            && Decode(o.state, r', o.rest) == Outcome(o.state, o.rest, [], Done)
  {
    HeaderOf(background, subs, t);
  }

  // ---- The object -----------------------------------------------------------------------------------

  class RREDecoder {
    var subrects: int

    constructor ()
      ensures subrects == 0
    {
      subrects := 0;
    }

    method DecodeRect(r: Rect, sock: W.Websock, display: DisplayPort) returns (done: bool)
      requires sock.Valid()
      modifies this, sock`rQi, display`calls
      ensures sock.Valid()
      ensures var o := Decode(old(subrects), r, old(sock.Unread()));
              && subrects == o.state && sock.Unread() == o.rest
              && display.calls == old(display.calls) + o.calls
              && done == o.verdict.Done? && !o.verdict.Fail?
    {
      ghost var all := Decode(subrects, r, sock.Unread());
      if subrects == 0 {
        var wait := sock.Lacks(4 + 4);
        if wait {
          return false;
        }
        DecodeBackground(r, sock, display);
      }
      done := DecodeSubRects(r, sock, display);
    }

    /** The count and the background, once their eight bytes are there. */
    method DecodeBackground(r: Rect, sock: W.Websock, display: DisplayPort)
      requires sock.Valid() && |sock.Unread()| >= 8
      modifies this, sock`rQi, display`calls
      ensures sock.Valid() && sock.Unread() == old(sock.Unread())[8..]
      ensures subrects == S32(old(sock.Unread())[..4])
      ensures display.calls == old(display.calls) + [FillRect(r.x, r.y, r.w, r.h, old(sock.Unread())[4..8], Received)]
    {
      ghost var q := sock.Unread();
      subrects := sock.Shift32();
      var color := sock.ShiftBytes(4);
      assert q[4..][..4] == q[4..8] && q[4..][4..] == q[8..];
      display.FillView(r.x, r.y, r.w, r.h, color);
    }

    method DecodeSubRects(r: Rect, sock: W.Websock, display: DisplayPort) returns (done: bool)
      requires sock.Valid()
      modifies this, sock`rQi, display`calls
      ensures sock.Valid()
      ensures var o := Loop(old(subrects), r, old(sock.Unread()));
              && subrects == o.state && sock.Unread() == o.rest
              && display.calls == old(display.calls) + o.calls
              && done == o.verdict.Done? && !o.verdict.Fail?
    {
      ghost var all := Loop(subrects, r, sock.Unread()).After(display.calls);
      while subrects > 0
        invariant sock.Valid()
        invariant Loop(subrects, r, sock.Unread()).After(display.calls) == all
        decreases subrects
      {
        var wait := sock.Lacks(4 + 8);
        if wait {
          return false;
        }
        LoopStep(subrects, r, sock.Unread(), display.calls);
        DecodeSubRect(r, sock, display);
        subrects := subrects - 1;
      }
      return true;
    }

    /** The body of that loop, once its twelve bytes are there. */
    method DecodeSubRect(r: Rect, sock: W.Websock, display: DisplayPort)
      requires sock.Valid() && |sock.Unread()| >= 12
      modifies sock`rQi, display`calls
      ensures sock.Valid() && sock.Unread() == old(sock.Unread())[12..]
      ensures display.calls == old(display.calls) + [SubRect(r, old(sock.Unread())[..12])]
    {
      SubRectFields(r, sock.Unread());
      var color := sock.ShiftBytes(4);
      var sx := sock.Shift16();
      var sy := sock.Shift16();
      var swidth := sock.Shift16();
      var sheight := sock.Shift16();
      display.FillView(r.x + sx, r.y + sy, swidth, sheight, color);
    }
  }

  lemma SubRectFields(r: Rect, q: seq<Byte>)
    requires |q| >= 12
    ensures var q4, q6, q8, q10 := q[4..], q[4..][2..], q[4..][2..][2..], q[4..][2..][2..][2..];
            && q10[2..] == q[12..]
            && SubRect(r, q[..12]) ==
              FillRect(r.x + U16(q4[..2]), r.y + U16(q6[..2]), U16(q8[..2]), U16(q10[..2]), q[..4], Received)
  {
    var b := q[..12];
    assert b[4..6] == q[4..][..2] && b[6..8] == q[4..][2..][..2];
    assert b[8..10] == q[4..][2..][2..][..2] && b[10..12] == q[4..][2..][2..][2..][..2];
    assert b[..4] == q[..4];
  }

  lemma LoopStep(n: int, r: Rect, q: seq<Byte>, before: seq<Call>)
    requires n > 0 && |q| >= 12
    ensures Loop(n, r, q).After(before) == Loop(n - 1, r, q[12..]).After(before + [SubRect(r, q[..12])])
  {
    var o := Loop(n - 1, r, q[12..]);
    assert before + ([SubRect(r, q[..12])] + o.calls) == (before + [SubRect(r, q[..12])]) + o.calls;
  }
}
