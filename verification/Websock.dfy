/**
 The receive queue of `html/static/js/core/websock.js`: a buffer with a read and a write position that is
 compacted in place or replaced by a larger one.  To its users it is a plain byte FIFO, `Unread()`.
 */
module Websock {
  import opened Bytes

  const MAX_RQ_GROW_SIZE: nat := 40 * 1024 * 1024  // 40 MiB

  function Max(x: nat, y: nat): nat {
    if x > y then x else y
  }

  /** What `rQwait` reports; the source throws in the last case. */
  datatype Wait = Enough | NeedMore | CannotBackUp

  /** A JavaScript `b << (8 * k)` on 32-bit numbers. */
  function ShiftedByte(b: Byte, k: nat): int
    requires k < 4
  {
    if k == 0 then b
    else if k == 1 then (b as int) * 256
    else if k == 2 then (b as int) * 0x1_0000
    else if b < 128 then (b as int) * 0x100_0000
    else (b as int) * 0x100_0000 - 0x1_0000_0000
  }

  /** The sum of the bytes, the first one shifted highest: big-endian, signed when four bytes are read. */
  function Shifted(b: seq<Byte>): int
    requires |b| <= 4
  {
    if b == [] then 0 else ShiftedByte(b[0], |b| - 1) + Shifted(b[1..])
  }

  /** `res` is what the first `i` bytes contribute. */
  ghost predicate SumSoFar(bytes: seq<Byte>, i: nat, res: int)
    requires i <= |bytes| <= 4
  {
    res + Shifted(bytes[i..]) == Shifted(bytes)
  }

  lemma ShiftedStep(b: seq<Byte>, i: nat)
    requires i < |b| <= 4
    ensures Shifted(b[i..]) == ShiftedByte(b[i], |b| - i - 1) + Shifted(b[i+1..])
  {
    assert b[i..][1..] == b[i+1..];
  }

  lemma ShiftedIsBigEndian(b: seq<Byte>)
    requires |b| == 1 || |b| == 2 || |b| == 4
    ensures |b| == 1 ==> Shifted(b) == b[0]
    ensures |b| == 2 ==> Shifted(b) == U16(b)
    ensures |b| == 4 ==> Shifted(b) == S32(b)
  {
    assert b[0..] == b && b[|b|..] == [];
    ShiftedStep(b, 0);
    if |b| >= 2 {
      ShiftedStep(b, 1);
    }
    if |b| == 4 {
      ShiftedStep(b, 2);
      ShiftedStep(b, 3);
    }
  }

  class Websock {
    var rQ: array<Byte>
    var rQi: nat            // next read position
    var rQend: nat          // next write position, `_rQlen` in the source
    var rQbufferSize: nat

    ghost predicate Valid()
      reads this
    {
      rQ.Length == rQbufferSize <= MAX_RQ_GROW_SIZE && rQi <= rQend <= rQbufferSize
    }

    ghost function Unread(): seq<Byte>
      reads this, rQ
      requires Valid()
    {
      rQ[rQi..rQend]
    }

    constructor (size: nat)
      requires size <= MAX_RQ_GROW_SIZE
      ensures Valid() && fresh(rQ) && Unread() == [] && rQbufferSize == size
    {
      rQbufferSize := size;
      rQ := new Byte[size](_ => 0);
      rQi, rQend := 0, 0;
    }

    /** The getter `rQlen`. */
    function Available(): (n: nat)
      reads this, rQ
      requires Valid()
      ensures n == |Unread()|
    {
      rQend - rQi
    }

    method Peek8() returns (b: Byte)
      requires Valid() && |Unread()| >= 1
      ensures b == Unread()[0]
    {
      b := rQ[rQi];
    }

    method SkipBytes(n: nat)
      requires Valid() && n <= |Unread()|
      modifies this`rQi
      ensures Valid() && rQi == old(rQi) + n
      ensures Unread() == old(Unread())[n..]
    {
      rQi := rQi + n;
    }

    /** `_rQshift`: reads a number of up to four bytes. */
    method Shift(n: nat) returns (res: int)
      requires Valid() && n <= 4 && n <= |Unread()|
      modifies this`rQi
      ensures Valid() && rQi == old(rQi) + n
      ensures Unread() == old(Unread())[n..]
      ensures res == Shifted(old(Unread())[..n])
    {
      res := 0;
      ghost var bytes := Unread()[..n];
      assert bytes[0..] == bytes && bytes[n..] == [];
      var k := n;
      while k > 0
        invariant k <= n && rQi == old(rQi) + (n - k) && Valid()
        invariant SumSoFar(bytes, n - k, res)
      {
        ShiftedStep(bytes, n - k);
        assert bytes[n - k] == rQ[rQi];
        k := k - 1;
        res := res + ShiftedByte(rQ[rQi], k);
        rQi := rQi + 1;
      }
    }

    method Shift8() returns (b: Byte)
      requires Valid() && 1 <= |Unread()|
      modifies this`rQi
      ensures Valid() && rQi == old(rQi) + 1
      ensures Unread() == old(Unread())[1..]
      ensures b == old(Unread())[0]
    {
      ghost var before := Unread();
      var res := Shift(1);
      ShiftedIsBigEndian(before[..1]);
      b := res;
    }

    method Shift16() returns (n: nat)
      requires Valid() && 2 <= |Unread()|
      modifies this`rQi
      ensures Valid() && rQi == old(rQi) + 2
      ensures Unread() == old(Unread())[2..]
      ensures n == U16(old(Unread())[..2])
    {
      ghost var before := Unread();
      var res := Shift(2);
      ShiftedIsBigEndian(before[..2]);
      n := res;
    }

    /** Big-endian two's complement. */
    method Shift32() returns (n: int)
      requires Valid() && 4 <= |Unread()|
      modifies this`rQi
      ensures Valid() && rQi == old(rQi) + 4
      ensures Unread() == old(Unread())[4..]
      ensures n == S32(old(Unread())[..4])
    {
      ghost var before := Unread();
      n := Shift(4);
      ShiftedIsBigEndian(before[..4]);
    }

    /** `rQshiftBytes`: a view of the buffer, which shows the bytes until they are overwritten. */
    method ShiftBytes(len: nat) returns (v: ByteView)
      requires Valid() && len <= |Unread()|
      modifies this`rQi
      ensures Valid() && rQi == old(rQi) + len
      ensures v == ByteView(rQ, old(rQi), len) && v.Fits()
      ensures v.Seen() == old(Unread())[..len] && Unread() == old(Unread())[len..]
    {
      rQi := rQi + len;
      v := ByteView(rQ, rQi - len, len);
    }

    /** `rQwait`: with too few bytes, hands the last `goback` bytes that were read back to the queue. */
    method RQwait(num: nat, goback: nat) returns (w: Wait)
      requires Valid()
      modifies this`rQi
      ensures Valid()
      ensures w.Enough? <==> |old(Unread())| >= num
      ensures w.CannotBackUp? <==> |old(Unread())| < num && old(rQi) < goback
      ensures !w.NeedMore? ==> rQi == old(rQi)
      ensures w.NeedMore? ==> rQi == old(rQi) - goback && Unread() == rQ[old(rQi) - goback..old(rQi)] + old(Unread())
    {
      if Available() < num {
        if goback > 0 {
          if rQi < goback {
            return CannotBackUp;
          }
          rQi := rQi - goback;
        }
        return NeedMore;
      }
      return Enough;
    }

    /** `rQwait` without a `goback`: are there too few bytes? */
    method Lacks(num: nat) returns (wait: bool)
      requires Valid()
      ensures wait <==> |Unread()| < num
    {
      wait := Available() < num;
    }

    /** `_expandCompactRQ`: makes room for `minFit` bytes, moving the unread ones to the front.  It throws,
        here by returning false, exactly when unread and new bytes together exceed the maximal size. */
    method ExpandCompact(minFit: nat) returns (ok: bool)
      requires Valid()
      modifies this, rQ
      ensures ok <==> |old(Unread())| + minFit <= MAX_RQ_GROW_SIZE
      ensures ok ==> Valid() && Unread() == old(Unread()) && rQi == 0 && rQend + minFit <= rQbufferSize
      ensures ok ==> old(rQbufferSize) <= rQbufferSize && (rQ == old(rQ) || fresh(rQ))
      ensures !ok ==> rQbufferSize == MAX_RQ_GROW_SIZE && rQ == old(rQ) && rQ[..] == old(rQ[..])
      ensures !ok ==> rQi == old(rQi) && rQend == old(rQend)
    {
      var requiredBufferSize := (rQend - rQi + minFit) * 8;
      var resizeNeeded := rQbufferSize < requiredBufferSize;
      if resizeNeeded {
        rQbufferSize := Max(rQbufferSize * 2, requiredBufferSize);
      }
      if rQbufferSize > MAX_RQ_GROW_SIZE {
        rQbufferSize := MAX_RQ_GROW_SIZE;
        if rQbufferSize - (rQend - rQi) < minFit {
          return false;
        }
      }
      if resizeNeeded {
        var larger := new Byte[rQbufferSize](_ => 0);
        Move(larger);
      } else {
        Move(rQ);  // copyWithin: source and target may overlap
      }
      return true;
    }

    /** Moves the unread bytes to the front of `target`, which becomes the buffer. */
    method Move(target: array<Byte>)
      requires target.Length == rQbufferSize <= MAX_RQ_GROW_SIZE
      requires rQi <= rQend <= rQ.Length && rQend - rQi <= target.Length
      modifies this`rQ, this`rQi, this`rQend, target
      ensures Valid() && rQ == target && rQi == 0 && rQend == old(rQend - rQi)
      ensures Unread() == old(rQ[rQi..rQend])
    {
      ghost var unread := rQ[rQi..rQend];
      var n := rQend - rQi;
      forall k | 0 <= k < n {
        target[k] := rQ[rQi + k];
      }
      rQ := target;
      rQend := n;
      rQi := 0;
      assert rQ[0..n] == unread;
    }

    /** `_DecodeMessage`: appends a message to the unread bytes. */
    method DecodeMessage(data: seq<Byte>) returns (ok: bool)
      requires Valid()
      modifies this, rQ
      ensures ok <==> |old(Unread())| + |data| <= MAX_RQ_GROW_SIZE
      ensures ok ==> Valid() && Unread() == old(Unread()) + data && (rQ == old(rQ) || fresh(rQ))
      ensures |data| <= old(rQbufferSize - rQend) ==>
                ok && rQ == old(rQ) && rQi == old(rQi) && rQ[..old(rQend)] == old(rQ[..rQend])
      ensures !ok ==> rQbufferSize == MAX_RQ_GROW_SIZE && rQ == old(rQ) && rQ[..] == old(rQ[..])
      ensures !ok ==> rQi == old(rQi) && rQend == old(rQend)
    {
      if |data| > rQbufferSize - rQend {
        ok := ExpandCompact(|data|);
        if !ok {
          return false;
        }
      }
      ghost var unread := rQ[rQi..rQend];
      forall k | 0 <= k < |data| {
        rQ[rQend + k] := data[k];
      }
      rQend := rQend + |data|;
      assert rQ[rQi..rQend] == unread + data;
      return true;
    }

    /** The end of `_recvMessage`: a drained queue starts over. */
    method ResetIfDrained()
      requires Valid()
      modifies this`rQi, this`rQend
      ensures Valid() && Unread() == old(Unread())
      ensures Unread() == [] ==> rQi == 0 && rQend == 0
    {
      if rQend == rQi {
        rQend := 0;
        rQi := 0;
      }
    }
  }

  /** A view into a queue that is read to its end: the next message, when it is long enough and there is room for it,
      is what the view shows from then on. */
  method ViewIsOverwritten(sock: Websock, v: ByteView, data: seq<Byte>)
    requires sock.Valid() && sock.Unread() == [] && v.buffer == sock.rQ && v.Fits()
    requires v.at + v.len <= |data| <= sock.rQbufferSize
    modifies sock, sock.rQ
    ensures v.Fits() && v.Seen() == data[v.at..v.at + v.len]
  {
    sock.ResetIfDrained();
    var ok := sock.DecodeMessage(data);
    assert sock.Unread() == data;
    assert v.Seen() == sock.Unread()[v.at..v.at + v.len];
  }
}
