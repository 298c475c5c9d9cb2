/**
 What all rectangle decoders have in common.  A decoder is called with the unread bytes; it issues display
 calls and reports that the rectangle is complete, that more bytes are needed, or that the data is illegal.
 When bytes are missing it keeps its place in its own fields and is called again later.
 */
module Decoding {
  import opened Bytes

  /** A rectangle of the framebuffer, as in the header of an update. */
  datatype Rect = Rect(x: nat, y: nat, w: nat, h: nat)

  /** Where the bytes of a call are: in storage of the decoder's own, at its start; or within the receive buffer.
      A fill from there is a view that shows what the buffer holds when it is executed, and a blit from there has
      its data behind the start of the buffer. */
  datatype Origin = Own | Received

  /** The calls a decoder, or the update loop, makes on the display; `UpdateRequest` goes to the server. */
  datatype Call =
    | FillRect(x: nat, y: nat, w: nat, h: nat, color: seq<Byte>, from: Origin)
    | BlitImage(x: nat, y: nat, w: nat, h: nat, data: seq<Byte>, from: Origin)
    | ImageRect(x: nat, y: nat, w: nat, h: nat, jpeg: seq<Byte>)
    | CopyImage(oldX: nat, oldY: nat, x: nat, y: nat, w: nat, h: nat)
    | Flip
    | UpdateRequest

  datatype Verdict = Done | Wait | Fail

  /** The outcome of one decoder call: its state, the bytes it left unread, the calls it made. */
  datatype Outcome<+S> = Outcome(state: S, rest: seq<Byte>, calls: seq<Call>, verdict: Verdict)
  {
    function After(before: seq<Call>): Outcome<S> {
      this.(calls := before + calls)
    }

    /** Bytes that arrive later stay unread. */
    function Then(more: seq<Byte>): Outcome<S> {
      this.(rest := rest + more)
    }
  }

  /** Being called again: `first` is the outcome on the bytes so far, `again` the outcome of the next call
      after `more` bytes arrived, `whole` the outcome of one call on all bytes. */
  ghost predicate Resumes<S>(first: Outcome<S>, again: Outcome<S>, whole: Outcome<S>, more: seq<Byte>) {
    if first.verdict.Wait? then whole == again.After(first.calls) else whole == first.Then(more)
  }

  /** Resumption survives calls made before. */
  lemma ResumesAfter<S>(first: Outcome<S>, again: Outcome<S>, whole: Outcome<S>, more: seq<Byte>, before: seq<Call>)
    requires Resumes(first, again, whole, more)
    ensures Resumes(first.After(before), again, whole.After(before), more)
  {
    assert (before + first.calls) + again.calls == before + (first.calls + again.calls);
  }

  /** Waiting without having made a call, with the state and the bytes untouched, resumes trivially. */
  lemma ResumesAtOnce<S>(first: Outcome<S>, whole: Outcome<S>, more: seq<Byte>)
    requires first.verdict.Wait? && first.calls == []
    ensures Resumes(first, whole, whole, more)
  {
    assert [] + whole.calls == whole.calls;
  }

  lemma Shorter(q: seq<Byte>, more: seq<Byte>, n: nat)
    requires n <= |q|
    ensures (q + more)[n..] == q[n..] + more && (q + more)[..n] == q[..n]
  {
  }

  lemma Middle<T>(a: seq<T>, b: seq<T>, c: seq<T>)
    ensures (a + b + c)[|a|..|a| + |b|] == b
  {
    var left := (a + b + c)[|a|..|a| + |b|];
    forall k | 0 <= k < |b|
      ensures left[k] == b[k]
    {
    }
    assert left == b;
  }

  lemma Slice<T>(a: seq<T>, start: nat, end: nat, i: nat, j: nat)
    requires i <= j && start + j <= end <= |a|
    ensures a[start..end][i..j] == a[start + i..start + j]
  {
    var left, right := a[start..end][i..j], a[start + i..start + j];
    forall k | 0 <= k < j - i
      ensures left[k] == right[k]
    {
    }
    assert left == right;
  }

  /** The display as the decoders see it: a sink for calls. */
  class DisplayPort {
    var calls: seq<Call>

    constructor ()
      ensures calls == []
    {
      calls := [];
    }

    method Issue(c: Call)
      modifies this`calls
      ensures calls == old(calls) + [c]
    {
      calls := calls + [c];
    }

    /** `fillRect` with a colour that is a view of the receive buffer. */
    method FillView(x: nat, y: nat, w: nat, h: nat, color: ByteView)
      requires color.Fits()
      modifies this`calls
      ensures calls == old(calls) + [FillRect(x, y, w, h, color.Seen(), Received)]
    {
      calls := calls + [FillRect(x, y, w, h, color.Seen(), Received)];
    }

    /** `blitImage` with its buffer and its offset. */
    method Blit(x: nat, y: nat, w: nat, h: nat, arr: array<Byte>, offset: nat)
      requires offset + 4 * (w * h) <= arr.Length
      modifies this`calls
      ensures calls == old(calls) +
                [BlitImage(x, y, w, h, arr[offset..offset + 4 * (w * h)], if offset == 0 then Own else Received)]
    {
      calls := calls +
        [BlitImage(x, y, w, h, arr[offset..offset + 4 * (w * h)], if offset == 0 then Own else Received)];
    }
  }
}
