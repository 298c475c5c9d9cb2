/**
 The Base64 codec of `html/static/js/core/base64.js` (section 4 of RFC 4648).  Bytes and six-bit groups are
 numbers; the two tables of the source are given by their ranges.
 */
module Base64 {
  import opened Bytes
  import opened Wrappers

  const PAD := '='

  /** The two tables of the codec: six bits to a character, and a character code below 128 back. */
  datatype Tables = Tables(toChar: int -> char, toBinary: int -> int)
  {
    ghost predicate Valid() {
      && (forall i :: 0 <= i < 64 ==> toChar(i) != PAD && Group(toChar(i)) == i)
      && (forall code :: 0 <= code < 128 ==> -1 <= toBinary(code) < 64)
      && Group(PAD) == 0
    }

    /** `toBinaryTable[charCode & 0x7f]`: the six bits a character stands for, or -1. */
    function Group(ch: char): int {
      toBinary(ch as int % 128)
    }
  }

  /** `toBase64Table`, without its last entry, the padding character. */
  function StandardChar(i: int): char {
    if 0 <= i < 26 then 'A' + i as char
    else if 26 <= i < 52 then 'a' + (i - 26) as char
    else if 52 <= i < 62 then '0' + (i - 52) as char
    else if i == 62 then '+'
    else '/'
  }

  /** `toBinaryTable`. */
  function StandardBinary(code: int): int {
    if code == 43 then 62
    else if code == 47 then 63
    else if 48 <= code <= 57 then code + 4
    else if code == 61 then 0
    else if 65 <= code <= 90 then code - 65
    else if 97 <= code <= 122 then code - 71
    else -1
  }

  const STANDARD := Tables((i: int) => StandardChar(i), (code: int) => StandardBinary(code))

  lemma StandardTablesAreValid()
    ensures STANDARD.Valid()
  {
    forall i | 0 <= i < 64
      ensures StandardChar(i) != PAD && StandardBinary(StandardChar(i) as int % 128) == i
    {
    }
  }

  // ---- Encoding -------------------------------------------------------------------------------------

  /** Three bytes become four characters; one or two bytes at the end are padded. */
  function Encoded(al: Tables, d: seq<Byte>): string {
    if |d| == 0 then []
    else if |d| == 1 then [al.toChar(First(d[0])), al.toChar(Second(d[0], 0)), PAD, PAD]
    else if |d| == 2 then [al.toChar(First(d[0])), al.toChar(Second(d[0], d[1])), al.toChar(Third(d[1], 0)), PAD]
    else Quad(al, d[0], d[1], d[2]) + Encoded(al, d[3..])
  }

  /** The four six-bit groups of three bytes. */
  function First(d0: Byte): (g: nat)
    ensures g < 64
  {
    d0 / 4
  }

  function Second(d0: Byte, d1: Byte): (g: nat)
    ensures g < 64
  {
    d0 % 4 * 16 + d1 / 16
  }

  function Third(d1: Byte, d2: Byte): (g: nat)
    ensures g < 64
  {
    d1 % 16 * 4 + d2 / 64
  }

  function Fourth(d2: Byte): (g: nat)
    ensures g < 64
  {
    d2 % 64
  }

  function Quad(al: Tables, d0: Byte, d1: Byte, d2: Byte): (q: string)
    ensures |q| == 4
  {
    [al.toChar(First(d0)), al.toChar(Second(d0, d1)), al.toChar(Third(d1, d2)), al.toChar(Fourth(d2))]
  }

  method Encode(al: Tables, data: seq<Byte>) returns (result: string)
    ensures result == Encoded(al, data)
  {
    result := "";
    var lengthpad := |data| % 3;
    var i := 0;
    ghost var all, thirds, k := Encoded(al, data), |data| / 3, 0;
    assert data[0..] == data;
    while i < |data| - 2
      invariant i == 3 * k && k <= thirds && |data| == 3 * thirds + lengthpad
      invariant Continues(al, result, data, i, all)
    {
      ghost var before := result;
      result := EncodeQuad(al, result, data[i], data[i + 1], data[i + 2]);
      assert result[..|result|-4] == before;
      i := i + 3;
      k := k + 1;
      ContinuesQuad(al, data, i - 3, result, all);
    }

    assert i == |data| - lengthpad;
    var tail := EncodeTail(al, data, |data| - lengthpad);
    result := result + tail;
  }

  /** The body of the loop: three bytes become four characters. */
  method EncodeQuad(al: Tables, sofar: string, d0: Byte, d1: Byte, d2: Byte) returns (result: string)
    ensures result == sofar + Quad(al, d0, d1, d2)
  {
    result := sofar + [al.toChar(First(d0))];
    result := result + [al.toChar(Second(d0, d1))];
    result := result + [al.toChar(Third(d1, d2))];
    result := result + [al.toChar(Fourth(d2))];
  }

  /** The remaining one or two bytes, padded to four characters. */
  method EncodeTail(al: Tables, data: seq<Byte>, j: nat) returns (tail: string)
    requires j <= |data| < j + 3
    ensures tail == Encoded(al, data[j..])
  {
    EncodedTail(al, data, j);
    tail := "";
    if |data| - j == 2 {
      tail := tail + [al.toChar(First(data[j]))];
      tail := tail + [al.toChar(Second(data[j], data[j + 1]))];
      tail := tail + [al.toChar(Third(data[j + 1], 0))];
      tail := tail + [PAD];
    } else if |data| - j == 1 {
      tail := tail + [al.toChar(First(data[j]))];
      tail := tail + [al.toChar(Second(data[j], 0))];
      tail := tail + [PAD];
      tail := tail + [PAD];
    }
  }

  /** What was encoded so far goes on with the encoding of the remaining bytes. */
  ghost predicate Continues(al: Tables, sofar: string, data: seq<Byte>, i: nat, all: string)
    requires i <= |data|
  {
    sofar + Encoded(al, data[i..]) == all
  }

  lemma ContinuesQuad(al: Tables, data: seq<Byte>, i: nat, result: string, all: string)
    requires i + 3 <= |data| && |result| >= 4
    requires result[|result|-4..] == Quad(al, data[i], data[i + 1], data[i + 2])
    requires Continues(al, result[..|result|-4], data, i, all)
    ensures Continues(al, result, data, i + 3, all)
  {
    EncodedStep(al, data, i);
    Reassociate(result[..|result|-4], result[|result|-4..], Encoded(al, data[i + 3..]));
    assert result == result[..|result|-4] + result[|result|-4..];
  }

  lemma Reassociate(s: string, q: string, t: string)
    ensures s + q + t == s + (q + t)
  {
  }

  lemma EncodedTail(al: Tables, data: seq<Byte>, j: nat)
    requires j <= |data|
    ensures |data| - j == 0 ==> Encoded(al, data[j..]) == []
    ensures |data| - j == 1 ==>
            Encoded(al, data[j..]) == [al.toChar(First(data[j])), al.toChar(Second(data[j], 0)), PAD, PAD]
    ensures |data| - j == 2 ==>
              Encoded(al, data[j..]) ==
              [al.toChar(First(data[j])), al.toChar(Second(data[j], data[j + 1])), al.toChar(Third(data[j + 1], 0)),
                PAD]
  {
  }

  lemma EncodedStep(al: Tables, data: seq<Byte>, i: nat)
    requires i + 3 <= |data|
    ensures Encoded(al, data[i..]) == Quad(al, data[i], data[i + 1], data[i + 2]) + Encoded(al, data[i + 3..])
  {
    assert data[i..][3..] == data[i + 3..];
  }

  // ---- Decoding -------------------------------------------------------------------------------------

  /** What is left of the bits read so far. */
  datatype Bits = Bits(left: nat, data: nat)
  {
    predicate Valid() {
      (left == 0 && data < 1) || (left == 2 && data < 4) || (left == 4 && data < 16) || (left == 6 && data < 64)
    }
  }

  /** One six-bit group: the new left-over bits and the byte it completed, if any. */
  function TakeGroup(b: Bits, c: nat, padding: bool): (r: (Bits, Option<Byte>))
    requires b.Valid() && c < 64
    ensures r.0.Valid() && r.0.left == (b.left + 6) % 8
  {
    var data := b.data * 64 + c;
    if b.left + 6 >= 8 then
      var left := b.left - 2;
      var p := if left == 0 then 1 else if left == 2 then 4 else 16;
      (Bits(left, data % p), if padding then None else Some(data / p % 256))
    else (Bits(6, data), None)
  }

  function Take(al: Tables, b: Bits, ch: char): (r: (Bits, Option<Byte>))
    requires al.Valid()
    requires b.Valid()
    ensures r.0.Valid()
    ensures r.0.left == if al.Group(ch) == -1 then b.left else (b.left + 6) % 8
  {
    if al.Group(ch) == -1 then (b, None) else TakeGroup(b, al.Group(ch), ch == PAD)
  }

  function Emit(o: Option<Byte>): seq<Byte> {
    if o.Some? then [o.value] else []
  }

  function Decoded(al: Tables, s: string, b: Bits): seq<Byte>
    requires al.Valid()
    requires b.Valid()
  {
    if s == [] then [] else Emit(Take(al, b, s[0]).1) + Decoded(al, s[1..], Take(al, b, s[0]).0)
  }

  function Rest(al: Tables, s: string, b: Bits): (r: Bits)
    requires al.Valid()
    requires b.Valid()
    ensures r.Valid()
  {
    if s == [] then b else Rest(al, s[1..], Take(al, b, s[0]).0)
  }

  const EMPTY := Bits(0, 0)

  /** The result length the source computes up front. */
  function ResultLength(data: string, offset: nat): int
    requires offset <= |data|
  {
    var found := IndexOf(data, PAD) - offset;
    var dataLength := if found < 0 then |data| - offset else found;
    dataLength / 4 * 3 + dataLength % 4 * 2 / 3
  }

  function IndexOf(s: string, ch: char): int {
    if s == [] then -1
    else if s[0] == ch then 0
    else
      var i := IndexOf(s[1..], ch);
      if i < 0 then -1 else i + 1
  }

  /** The bytes written, and the length of the array that was allocated for them. */
  datatype Output = Output(bytes: seq<Byte>, length: int)

  datatype Error = Corrupted

  method Decode(al: Tables, data: string, offset: nat) returns (r: Result<Output, Error>)
    requires al.Valid()
    requires offset <= |data|
    ensures r.Err? <==> Rest(al, data[offset..], EMPTY).left != 0
    ensures r.Ok? ==> r.value == Output(Decoded(al, data[offset..], EMPTY), ResultLength(data, offset))
  {
    var dataLength := IndexOf(data, PAD) - offset;
    if dataLength < 0 {
      dataLength := |data| - offset;
    }
    var resultLength := dataLength / 4 * 3 + dataLength % 4 * 2 / 3;
    var result: seq<Byte> := [];

    var leftbits: nat, leftdata: nat := 0, 0;
    var i := offset;
    while i < |data|
      invariant offset <= i <= |data| && Bits(leftbits, leftdata).Valid()
      invariant Pending(al, data, offset, i, result, Bits(leftbits, leftdata))
    {
      var done;
      PendingStep(al, data, offset, i, result, Bits(leftbits, leftdata));
      leftbits, leftdata, done := DecodeOne(al, leftbits, leftdata, data[i]);
      result := result + Emit(done);
      i := i + 1;
    }
    assert data[|data|..] == [];
    if leftbits != 0 {
      return Err(Corrupted);
    }
    return Ok(Output(result, resultLength));
  }

  /** After `i` characters, `result` and the left-over bits lead to the outcome for the whole input. */
  ghost predicate Pending(al: Tables, data: string, offset: nat, i: nat, result: seq<Byte>, b: Bits)
    requires al.Valid() && b.Valid() && offset <= i <= |data|
  {
    && result + Decoded(al, data[i..], b) == Decoded(al, data[offset..], EMPTY)
    && Rest(al, data[i..], b) == Rest(al, data[offset..], EMPTY)
  }

  lemma PendingStep(al: Tables, data: string, offset: nat, i: nat, result: seq<Byte>, b: Bits)
    requires al.Valid() && b.Valid() && offset <= i < |data| && Pending(al, data, offset, i, result, b)
    ensures var t := Take(al, b, data[i]); Pending(al, data, offset, i + 1, result + Emit(t.1), t.0)
  {
    var t := Take(al, b, data[i]);
    Unfold1(al, data, i, b);
    assert result + (Emit(t.1) + Decoded(al, data[i+1..], t.0)) == (result + Emit(t.1)) + Decoded(al, data[i+1..], t.0);
  }

  /** The body of the loop. */
  method DecodeOne(al: Tables, leftbits0: nat, leftdata0: nat, ch: char)
    returns (leftbits: nat, leftdata: nat, done: Option<Byte>)
    requires al.Valid() && Bits(leftbits0, leftdata0).Valid()
    ensures (Bits(leftbits, leftdata), done) == Take(al, Bits(leftbits0, leftdata0), ch)
  {
    leftbits, leftdata, done := leftbits0, leftdata0, None;
    var c := al.Group(ch);
    var padding := ch == PAD;
    if c == -1 {
      return;
    }
    leftdata := leftdata * 64 + c;
    leftbits := leftbits + 6;
    if leftbits >= 8 {
      leftbits := leftbits - 8;
      var p := if leftbits == 0 then 1 else if leftbits == 2 then 4 else 16;  // 1 << leftbits
      if !padding {
        done := Some(leftdata / p % 256);
      }
      leftdata := leftdata % p;
    }
  }

  // ---- Round trip -----------------------------------------------------------------------------------

  /** Quotient and remainder of the three powers of two the decoder divides by. */
  lemma Divide16(x: nat, q: nat, r: nat)
    requires x == 16 * q + r && r < 16
    ensures x / 16 == q && x % 16 == r
  {
  }

  lemma Divide4(x: nat, q: nat, r: nat)
    requires x == 4 * q + r && r < 4
    ensures x / 4 == q && x % 4 == r
  {
  }

  lemma TakesSecond(b: Bits, c: nat, q: Byte, h: nat)
    requires b.left == 6 && b.Valid() && c < 64 && h < 16 && b.data * 64 + c == 16 * q + h
    ensures TakeGroup(b, c, false) == (Bits(4, h), Some(q))
  {
    Divide16(b.data * 64 + c, q, h);
  }

  lemma SecondBack(d0: Byte, d1: Byte)
    ensures TakeGroup(Bits(6, First(d0)), Second(d0, d1), false) == (Bits(4, d1 / 16), Some(d0))
  {
    var q: nat, r: nat, h: nat := d0 / 4, d0 % 4, d1 / 16;
    SixteenTimes(d0, q, r, h);
    TakesSecond(Bits(6, q), r * 16 + h, d0, h);
  }

  lemma SixteenTimes(d: nat, q: nat, r: nat, h: nat)
    requires d == 4 * q + r
    ensures q * 64 + (r * 16 + h) == 16 * d + h
  {
  }

  lemma ThirdBack(d1: Byte, d2: Byte)
    ensures TakeGroup(Bits(4, d1 / 16), Third(d1, d2), false) == (Bits(2, d2 / 64), Some(d1))
  {
    assert d1 == 16 * (d1 / 16) + d1 % 16;
    Divide4(d1 / 16 * 64 + Third(d1, d2), d1, d2 / 64);
  }

  lemma FourthBack(d2: Byte)
    ensures TakeGroup(Bits(2, d2 / 64), Fourth(d2), false) == (EMPTY, Some(d2))
  {
    assert d2 / 64 * 64 + Fourth(d2) == d2;
  }

  lemma FirstBack(d0: Byte)
    ensures TakeGroup(EMPTY, First(d0), false) == (Bits(6, First(d0)), None)
  {
  }

  /** Four characters that came from three bytes give the three bytes back and leave nothing over. */
  lemma QuadBack(al: Tables, d0: Byte, d1: Byte, d2: Byte)
    requires al.Valid()
    ensures var q := Quad(al, d0, d1, d2);
            var b1 := Take(al, EMPTY, q[0]);
            var b2 := Take(al, b1.0, q[1]);
            var b3 := Take(al, b2.0, q[2]);
            var b4 := Take(al, b3.0, q[3]);
            b1.1 == None && b2.1 == Some(d0) && b3.1 == Some(d1) && b4.1 == Some(d2) && b4.0 == EMPTY
  {
    FirstBack(d0);
    SecondBack(d0, d1);
    ThirdBack(d1, d2);
    FourthBack(d2);
  }

  lemma {:induction false} Unfold4(al: Tables, s: string, b: Bits)
    requires al.Valid()
    requires b.Valid() && |s| >= 4
    ensures var b1 := Take(al, b, s[0]);
            var b2 := Take(al, b1.0, s[1]);
            var b3 := Take(al, b2.0, s[2]);
            var b4 := Take(al, b3.0, s[3]);
            && Decoded(al, s[0..], b) == Emit(b1.1) +
              (Emit(b2.1) + (Emit(b3.1) + (Emit(b4.1) + Decoded(al, s[4..], b4.0))))
            && Rest(al, s[0..], b) == Rest(al, s[4..], b4.0)
  {
    var b1 := Take(al, b, s[0]);
    var b2 := Take(al, b1.0, s[1]);
    var b3 := Take(al, b2.0, s[2]);
    var b4 := Take(al, b3.0, s[3]);
    Unfold1(al, s, 0, b);
    Unfold1(al, s, 1, b1.0);
    Unfold1(al, s, 2, b2.0);
    Unfold1(al, s, 3, b3.0);
  }

  lemma Unfold1(al: Tables, s: string, i: nat, b: Bits)
    requires al.Valid()
    requires b.Valid() && i < |s|
    ensures var t := Take(al, b, s[i]);
            Decoded(al, s[i..], b) == Emit(t.1) + Decoded(al, s[i+1..], t.0)
              && Rest(al, s[i..], b) == Rest(al, s[i+1..], t.0)
  {
    assert s[i..][1..] == s[i+1..];
  }

  lemma QuadRoundTrip(al: Tables, d0: Byte, d1: Byte, d2: Byte, t: string)
    requires al.Valid()
    ensures Decoded(al, Quad(al, d0, d1, d2) + t, EMPTY) == [d0, d1, d2] + Decoded(al, t, EMPTY)
    ensures Rest(al, Quad(al, d0, d1, d2) + t, EMPTY) == Rest(al, t, EMPTY)
  {
    var s := Quad(al, d0, d1, d2) + t;
    assert s[0..] == s && s[4..] == t;
    Unfold4(al, s, EMPTY);
    QuadBack(al, d0, d1, d2);
  }

  lemma TailRoundTrip(al: Tables, d: seq<Byte>)
    requires al.Valid() && (|d| == 1 || |d| == 2)
    ensures Decoded(al, Encoded(al, d), EMPTY) == d && Rest(al, Encoded(al, d), EMPTY) == EMPTY
  {
    var s := Encoded(al, d);
    assert s[0..] == s && s[4..] == [];
    Unfold4(al, s, EMPTY);
    TailBack(al, d);
  }

  /** `decode(encode(d))` is `d`, without an error. */
  lemma {:induction false} RoundTrip(al: Tables, d: seq<Byte>)
    requires al.Valid()
    ensures Decoded(al, Encoded(al, d), EMPTY) == d && Rest(al, Encoded(al, d), EMPTY) == EMPTY
  {
    if |d| >= 3 {
      QuadRoundTrip(al, d[0], d[1], d[2], Encoded(al, d[3..]));
      RoundTrip(al, d[3..]);
      assert d == [d[0], d[1], d[2]] + d[3..];
    } else if |d| > 0 {
      TailRoundTrip(al, d);
    }
  }

  lemma TailBack(al: Tables, d: seq<Byte>)
    requires al.Valid()
    requires |d| == 1 || |d| == 2
    ensures var s := Encoded(al, d);
            var b1 := Take(al, EMPTY, s[0]);
            var b2 := Take(al, b1.0, s[1]);
            var b3 := Take(al, b2.0, s[2]);
            var b4 := Take(al, b3.0, s[3]);
            Emit(b1.1) + (Emit(b2.1) + (Emit(b3.1) + Emit(b4.1))) == d && b4.0 == EMPTY
  {
    FirstBack(d[0]);
    if |d| == 1 {
      SecondBack(d[0], 0);
    } else {
      SecondBack(d[0], d[1]);
      ThirdBack(d[1], 0);
    }
  }

  /** The length computed up front is exact for encoded data. */
  lemma LengthIsExact(al: Tables, d: seq<Byte>)
    requires al.Valid()
    ensures ResultLength(Encoded(al, d), 0) == |d|
  {
    EncodedLength(al, d);
    PadPosition(al, d);
    LengthFormula(|d|);
  }

  /** The length of an encoding, and where its padding starts. */
  function EncodedSize(n: nat): nat {
    if n == 0 then 0 else if n <= 3 then 4 else 4 + EncodedSize(n - 3)
  }

  function PadAt(n: nat): int {
    if n == 0 then -1 else if n <= 2 then n + 1
    else if PadAt(n - 3) < 0 then -1 else 4 + PadAt(n - 3)
  }

  lemma {:induction false} LengthFormula(n: nat)
    ensures PadAt(n) < 0 ==> EncodedSize(n) / 4 * 3 + EncodedSize(n) % 4 * 2 / 3 == n && EncodedSize(n) % 4 == 0
    ensures PadAt(n) >= 0 ==> PadAt(n) / 4 * 3 + PadAt(n) % 4 * 2 / 3 == n
  {
    if n >= 3 {
      LengthFormula(n - 3);
      DivideStep(EncodedSize(n - 3));
      if PadAt(n - 3) >= 0 {
        DivideStep(PadAt(n - 3));
      }
    }
  }

  lemma DivideStep(x: nat)
    ensures (x + 4) / 4 == x / 4 + 1 && (x + 4) % 4 == x % 4
  {
  }

  lemma {:induction false} EncodedLength(al: Tables, d: seq<Byte>)
    ensures |Encoded(al, d)| == EncodedSize(|d|)
  {
    if |d| >= 3 {
      EncodedLength(al, d[3..]);
    }
  }

  lemma {:induction false} PadPosition(al: Tables, d: seq<Byte>)
    requires al.Valid()
    ensures IndexOf(Encoded(al, d), PAD) == PadAt(|d|)
  {
    if |d| >= 3 {
      PadPosition(al, d[3..]);
      assert PAD !in Quad(al, d[0], d[1], d[2]);
      IndexAfter(Quad(al, d[0], d[1], d[2]), Encoded(al, d[3..]));
    } else if |d| > 0 {
      PadPositionTail(al, d);
    }
  }

  lemma PadPositionTail(al: Tables, d: seq<Byte>)
    requires al.Valid() && (|d| == 1 || |d| == 2)
    ensures IndexOf(Encoded(al, d), PAD) == |d| + 1
  {
    var s := Encoded(al, d);
    var front := s[..|d| + 1];
    assert PAD !in front && s[|d| + 1..][0] == PAD;
    IndexAfter(front, s[|d| + 1..]);
    assert s == front + s[|d| + 1..];
  }

  lemma {:induction false} IndexAfter(s: string, t: string)
    requires PAD !in s
    ensures IndexOf(s + t, PAD) == if IndexOf(t, PAD) < 0 then -1 else |s| + IndexOf(t, PAD)
  {
    if s == [] {
      assert s + t == t;
    } else {
      assert (s + t)[1..] == s[1..] + t;
      IndexAfter(s[1..], t);
    }
  }

  /** The codec as a whole: decoding what was encoded raises no error, writes the bytes back, and fills the
      array it allocated exactly. */
  lemma DecodeEncode(al: Tables, d: seq<Byte>)
    requires al.Valid()
    ensures var s := Encoded(al, d);
            && Rest(al, s[0..], EMPTY).left == 0
            && Output(Decoded(al, s[0..], EMPTY), ResultLength(s, 0)) == Output(d, |d|)
  {
    assert Encoded(al, d)[0..] == Encoded(al, d);
    RoundTrip(al, d);
    LengthIsExact(al, d);
  }

  // ---- Which inputs are accepted --------------------------------------------------------------------

  /** The characters that count, padding included. */
  function Legal(al: Tables, s: string): string {
    if s == [] then [] else (if al.Group(s[0]) == -1 then [] else [s[0]]) + Legal(al, s[1..])
  }

  /** Illegal characters and white space change neither the bytes nor the bits that are left over, wherever they are. */
  lemma {:induction false} IllegalIsSkipped(al: Tables, s: string, b: Bits)
    requires al.Valid()
    requires b.Valid()
    ensures Decoded(al, Legal(al, s), b) == Decoded(al, s, b) && Rest(al, Legal(al, s), b) == Rest(al, s, b)
  {
    if s != [] {
      var b' := Take(al, b, s[0]).0;
      IllegalIsSkipped(al, s[1..], b');
      if al.Group(s[0]) == -1 {
        assert Legal(al, s) == Legal(al, s[1..]);
      } else {
        assert Legal(al, s)[0] == s[0] && Legal(al, s)[1..] == Legal(al, s[1..]);
      }
    }
  }

  /** Decoding fails exactly when the number of counting characters is not a multiple of four. */
  lemma CorruptedExactly(al: Tables, s: string)
    requires al.Valid()
    ensures Rest(al, s, EMPTY).left != 0 <==> |Legal(al, s)| % 4 != 0
  {
    LeftOver(al, s, EMPTY);
    var q, r := |Legal(al, s)| / 4, |Legal(al, s)| % 4;
    assert 6 * |Legal(al, s)| == 8 * (3 * q) + 6 * r;
  }

  lemma {:induction false} LeftOver(al: Tables, s: string, b: Bits)
    requires al.Valid()
    requires b.Valid()
    ensures Rest(al, s, b).left == (b.left + 6 * |Legal(al, s)|) % 8
  {
    if s != [] {
      LeftOver(al, s[1..], Take(al, b, s[0]).0);
      ModStep(b.left, |Legal(al, s[1..])|);
    }
  }

  lemma ModStep(x: nat, n: nat)
    ensures ((x + 6) % 8 + 6 * n) % 8 == (x + 6 * (n + 1)) % 8
  {
    var y := (x + 6) % 8 + 6 * n;
    Divide8(x + 6 * (n + 1), (x + 6) / 8 + y / 8, y % 8);
  }

  lemma Divide8(x: nat, q: nat, r: nat)
    requires x == 8 * q + r && r < 8
    ensures x % 8 == r
  {
  }

  // ---- The length of the result ---------------------------------------------------------------------

  /** A byte is written by every character that counts and is no padding, but for the first of each four. */
  function Writing(l: string, k: nat): nat {
    if l == [] then 0 else (if k % 4 != 0 && l[0] != PAD then 1 else 0) + Writing(l[1..], k + 1)
  }

  lemma {:induction false} BytesWritten(al: Tables, s: string, b: Bits, k: nat)
    requires al.Valid() && b.Valid() && b.left == 6 * k % 8
    ensures |Decoded(al, s, b)| == Writing(Legal(al, s), k)
  {
    if s != [] {
      var t := Take(al, b, s[0]);
      assert |Decoded(al, s, b)| == |Emit(t.1)| + |Decoded(al, s[1..], t.0)|;
      if al.Group(s[0]) == -1 {
        assert Legal(al, s) == Legal(al, s[1..]);
        BytesWritten(al, s[1..], t.0, k);
      } else {
        NextLeft(k);
        assert t.1.Some? <==> k % 4 != 0 && s[0] != PAD;
        BytesWritten(al, s[1..], t.0, k + 1);
        assert Legal(al, s)[0] == s[0] && Legal(al, s)[1..] == Legal(al, s[1..]);
      }
    }
  }

  lemma NextLeft(k: nat)
    ensures 6 * (k + 1) % 8 == (6 * k % 8 + 6) % 8
    ensures 6 * k % 8 >= 2 <==> k % 4 != 0
  {
    var q, r := k / 4, k % 4;
    LeftAt(k, q, r);
    if r == 3 {
      LeftAt(k + 1, q + 1, 0);
    } else {
      LeftAt(k + 1, q, r + 1);
    }
  }

  lemma LeftAt(k: nat, q: nat, r: nat)
    requires k == 4 * q + r && r < 4
    ensures 6 * k % 8 == if r == 0 then 0 else 8 - 2 * r
  {
    assert 6 * k == 8 * (3 * q) + 6 * r;
    if r == 0 {
      Divide8(6 * k, 3 * q, 0);
    } else {
      Divide8(6 * k, 3 * q + r - 1, 8 - 2 * r);
    }
  }

  /** The bytes in `n` characters. */
  function Capacity(n: nat): nat {
    n / 4 * 3 + n % 4 * 2 / 3
  }

  lemma Steps(n: nat)
    ensures Capacity(n + 1) == Capacity(n) + if n % 4 == 0 then 0 else 1
  {
  }

  lemma {:induction false} WritingAll(l: string, k: nat)
    requires PAD !in l
    ensures Writing(l, k) == Capacity(k + |l|) - Capacity(k)
    decreases |l|
  {
    if l != [] {
      Steps(k);
      WritingAll(l[1..], k + 1);
    }
  }

  lemma {:induction false} WritingNone(l: string, k: nat)
    requires forall ch :: ch in l ==> ch == PAD
    ensures Writing(l, k) == 0
    decreases |l|
  {
    if l != [] {
      assert l[0] in l && forall ch :: ch in l[1..] ==> ch in l;
      WritingNone(l[1..], k + 1);
    }
  }

  lemma {:induction false} WritingBoth(l: string, l': string, k: nat)
    ensures Writing(l + l', k) == Writing(l, k) + Writing(l', k + |l|)
    decreases |l|
  {
    if l == [] {
      assert l + l' == l';
    } else {
      assert (l + l')[1..] == l[1..] + l';
      WritingBoth(l[1..], l', k + 1);
    }
  }

  lemma {:induction false} LegalBoth(al: Tables, s: string, t: string)
    ensures Legal(al, s + t) == Legal(al, s) + Legal(al, t)
  {
    if s == [] {
      assert s + t == t;
    } else {
      assert (s + t)[1..] == s[1..] + t;
      LegalBoth(al, s[1..], t);
    }
  }

  lemma {:induction false} LegalOnly(al: Tables, s: string)
    ensures |Legal(al, s)| <= |s| && forall ch :: ch in Legal(al, s) ==> ch in s
  {
    if s != [] {
      LegalOnly(al, s[1..]);
    }
  }

  lemma {:induction false} FirstIndex(s: string, ch: char)
    ensures IndexOf(s, ch) < |s|
    ensures IndexOf(s, ch) < 0 ==> ch !in s
    ensures IndexOf(s, ch) >= 0 ==> s[IndexOf(s, ch)] == ch && ch !in s[..IndexOf(s, ch)]
  {
    if s != [] && s[0] != ch {
      FirstIndex(s[1..], ch);
      var i := IndexOf(s, ch);
      if i >= 0 {
        assert s[..i] == [s[0]] + s[1..][..i - 1];
      }
    }
  }

  /** All is padding but for the first of each four, counted from `k` characters before. */
  predicate OnlyFirsts(l: string, k: nat) {
    forall i :: 0 <= i < |l| && (k + i) % 4 != 0 ==> l[i] == PAD
  }

  lemma {:induction false} WritingNoneExactly(l: string, k: nat)
    ensures Writing(l, k) == 0 <==> OnlyFirsts(l, k)
    decreases |l|
  {
    if l != [] {
      WritingNoneExactly(l[1..], k + 1);
      assert forall i :: 0 < i < |l| ==> l[i] == l[1..][i - 1] && k + i == k + 1 + (i - 1);
      if OnlyFirsts(l, k) {
        assert forall i :: 0 <= i < |l[1..]| ==> l[1..][i] == l[i + 1] && (k + 1 + i) == k + (i + 1);
      }
    }
  }

  /** What comes before the padding. */
  function Body(s: string): (b: string)
    ensures |b| <= |s|
  {
    var i := IndexOf(s, PAD);
    if 0 <= i <= |s| then s[..i] else s
  }

  /** The bytes that legal characters behind the first padding still write: none when only padding counts there. */
  function Late(al: Tables, s: string): nat {
    Writing(Legal(al, s[|Body(s)|..]), |Legal(al, Body(s))|)
  }

  lemma WritingParts(l: string, l': string)
    requires PAD !in l
    ensures Writing(l + l', 0) == Capacity(|l|) + Writing(l', |l|)
  {
    WritingBoth(l, l', 0);
    WritingAll(l, 0);
  }

  /** The bytes of any input. */
  lemma BodyAndLate(al: Tables, s: string)
    requires al.Valid()
    ensures |Decoded(al, s, EMPTY)| == Capacity(|Legal(al, Body(s))|) + Late(al, s)
    ensures (forall ch :: ch in Legal(al, s[|Body(s)|..]) ==> ch == PAD) ==> Late(al, s) == 0
  {
    var body, pads := Body(s), s[|Body(s)|..];
    BytesWritten(al, s, EMPTY, 0);
    FirstIndex(s, PAD);
    assert s == body + pads;
    LegalBoth(al, body, pads);
    LegalOnly(al, body);
    WritingParts(Legal(al, body), Legal(al, pads));
    if forall ch :: ch in Legal(al, pads) ==> ch == PAD {
      WritingNone(Legal(al, pads), |Legal(al, body)|);
    }
  }

  /** No bytes are written behind the first padding exactly if each legal character there is padding, or the first of
      four, counted from the first legal character of the input. */
  lemma LateExactly(al: Tables, s: string)
    ensures Late(al, s) == 0 <==> OnlyFirsts(Legal(al, s[|Body(s)|..]), |Legal(al, Body(s))|)
  {
    WritingNoneExactly(Legal(al, s[|Body(s)|..]), |Legal(al, Body(s))|);
  }

  /** The number of characters from which the source computes the length. */
  function DataLength(data: string, offset: nat): (n: nat)
    requires offset <= |data|
  {
    var found := IndexOf(data, PAD) - offset;
    if found < 0 then |data| - offset else found
  }

  lemma SameCapacity(m: nat, n: nat)
    requires m <= n
    ensures Capacity(n) == Capacity(m) <==> n == m || (n == m + 1 && m % 4 == 0)
  {
    Steps(m);
    if n > m + 1 {
      Steps(m + 1);
      Grows(m + 2, n);
    }
  }

  lemma {:induction false} Grows(m: nat, n: nat)
    requires m <= n
    ensures Capacity(m) <= Capacity(n)
    decreases n
  {
    if m < n {
      Grows(m, n - 1);
      Steps(n - 1);
    }
  }

  /** The padding that counts for the length is the first in all the data; after the offset it is that of the rest. */
  lemma {:induction false} DropFirst(data: string, offset: nat)
    requires offset <= |data|
    ensures DataLength(data, offset) == if IndexOf(data, PAD) >= offset then |Body(data[offset..])| else |data| - offset
    ensures |Body(data[offset..])| <= DataLength(data, offset)
  {
    var head, s := data[..offset], data[offset..];
    FirstIndex(data, PAD);
    FirstIndex(s, PAD);
    if IndexOf(data, PAD) >= offset {
      assert PAD !in head by {
        assert forall i :: 0 <= i < offset ==> head[i] == data[..IndexOf(data, PAD)][i];
      }
      assert data == head + s;
      IndexAfter(head, s);
    }
  }

  /** The array that the source allocates has exactly the length of the bytes written if the characters it counts beyond
      the legal ones before the padding make room for exactly the bytes written behind the padding.  When none are
      written there, that is: every character it counts is legal and comes before the padding, or exactly one is not,
      and the legal ones are whole groups of four. */
  lemma AllocatedExactly(al: Tables, data: string, offset: nat)
    requires al.Valid() && offset <= |data|
    ensures var n, m, late := DataLength(data, offset), |Legal(al, Body(data[offset..]))|, Late(al, data[offset..]);
            && m <= n
            && (ResultLength(data, offset) == |Decoded(al, data[offset..], EMPTY)| <==>
              Capacity(n) == Capacity(m) + late)
            && (late == 0 ==> (Capacity(n) == Capacity(m) + late <==> n == m || (n == m + 1 && m % 4 == 0)))
  {
    var s := data[offset..];
    BodyAndLate(al, s);
    DropFirst(data, offset);
    LegalOnly(al, Body(s));
    SameCapacity(|Legal(al, Body(s))|, DataLength(data, offset));
  }

  /** Three bytes with two characters that do not count behind them, two line breaks for one: the bytes are back, in an
      array of length four. */
  lemma IllegalCounts(al: Tables, d0: Byte, d1: Byte, d2: Byte, x: char, y: char)
    requires al.Valid() && al.Group(x) == -1 && al.Group(y) == -1
    ensures var s := Quad(al, d0, d1, d2) + [x, y];
            Decoded(al, s, EMPTY) == [d0, d1, d2] && ResultLength(s, 0) == 4
  {
    var s, more := Quad(al, d0, d1, d2) + [x, y], [x, y];
    QuadRoundTrip(al, d0, d1, d2, more);
    assert Decoded(al, more[1..], EMPTY) == [] && Decoded(al, more, EMPTY) == [];
    assert PAD !in s;
    IndexAfter(s, []);
    assert s + [] == s;
  }

  lemma LineBreaksAreIllegal()
    ensures STANDARD.Valid() && STANDARD.Group('\n') == -1
  {
    StandardTablesAreValid();
  }

  /** With the tables of the source and two line breaks. */
  lemma LineBreaksCount(d0: Byte, d1: Byte, d2: Byte)
    ensures STANDARD.Valid()
    ensures var s := Quad(STANDARD, d0, d1, d2) + ['\n', '\n'];
            Decoded(STANDARD, s, EMPTY) == [d0, d1, d2] && ResultLength(s, 0) == 4
  {
    LineBreaksAreIllegal();
    IllegalCounts(STANDARD, d0, d1, d2, '\n', '\n');
  }
}
