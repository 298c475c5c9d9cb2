/**
 The block cipher of `html/static/js/core/des.js`.  JavaScript's 32-bit integers are bit vectors here, with
 `>>` as the logical shift that the source writes `>>>`.
 */
module Des {

  type Byte = bv8

  /** The eight combined substitution and permutation tables, each indexed by six bits. */
  datatype Boxes = Boxes(sp1: bv6 -> bv32, sp2: bv6 -> bv32, sp3: bv6 -> bv32, sp4: bv6 -> bv32,
                         sp5: bv6 -> bv32, sp6: bv6 -> bv32, sp7: bv6 -> bv32, sp8: bv6 -> bv32)

  datatype Halves = Halves(l: bv32, r: bv32)
  {
    function Swap(): Halves {
      Halves(r, l)
    }
  }

  // ---- Specification: a Feistel network between two permutations -------------------------------------

  function RotateLeft(x: bv32): bv32 {
    (x << 1) | (x >> 31)
  }

  function RotateRight(x: bv32): bv32 {
    (x << 31) | (x >> 1)
  }

  /** Exchanges bits of the left half with the bits of the right half four places lower: the two halves
      are flipped where they differ.  Likewise below. */
  function Swap4(h: Halves): Halves {
    var x := ((h.l >> 4) ^ h.r) & 0x0f0f0f0f;
    Halves(h.l ^ (x << 4), h.r ^ x)
  }

  function Swap16(h: Halves): Halves {
    var x := ((h.l >> 16) ^ h.r) & 0x0000ffff;
    Halves(h.l ^ (x << 16), h.r ^ x)
  }

  function Swap2(h: Halves): Halves {
    var x := ((h.r >> 2) ^ h.l) & 0x33333333;
    Halves(h.l ^ x, h.r ^ (x << 2))
  }

  function Swap8(h: Halves): Halves {
    var x := ((h.r >> 8) ^ h.l) & 0x00ff00ff;
    Halves(h.l ^ x, h.r ^ (x << 8))
  }

  function Swap0(h: Halves): Halves {
    var x := (h.l ^ h.r) & 0xaaaaaaaa;
    Halves(h.l ^ x, h.r ^ x)
  }

  function TurnRight(h: Halves): Halves {
    Halves(h.l, RotateLeft(h.r))
  }

  function TurnLeft(h: Halves): Halves {
    Halves(RotateLeft(h.l), h.r)
  }

  function UnturnRight(h: Halves): Halves {
    Halves(h.l, RotateRight(h.r))
  }

  function UnturnLeft(h: Halves): Halves {
    Halves(RotateRight(h.l), h.r)
  }

  /** The initial permutation, with both halves turned left by one for the sake of the rounds. */
  function Permute(h: Halves): Halves {
    TurnLeft(Swap0(TurnRight(Swap8(Swap2(Swap16(Swap4(h)))))))
  }

  /** The final permutation. */
  function Unpermute(h: Halves): Halves {
    Swap4(Swap16(Swap2(Swap8(UnturnRight(Swap0(UnturnLeft(h)))))))
  }

  lemma Swap4Twice(h: Halves)
    ensures Swap4(Swap4(h)) == h
  {
  }

  lemma Swap16Twice(h: Halves)
    ensures Swap16(Swap16(h)) == h
  {
  }

  lemma Swap2Twice(h: Halves)
    ensures Swap2(Swap2(h)) == h
  {
  }

  lemma Swap8Twice(h: Halves)
    ensures Swap8(Swap8(h)) == h
  {
  }

  lemma Swap0Twice(h: Halves)
    ensures Swap0(Swap0(h)) == h
  {
  }

  lemma RotationsUndone(x: bv32)
    ensures RotateRight(RotateLeft(x)) == x && RotateLeft(RotateRight(x)) == x
  {
  }

  lemma TurnsUndone(h: Halves)
    ensures UnturnRight(TurnRight(h)) == h && UnturnLeft(TurnLeft(h)) == h
    ensures TurnRight(UnturnRight(h)) == h && TurnLeft(UnturnLeft(h)) == h
  {
    RotationsUndone(h.l);
    RotationsUndone(h.r);
  }

  lemma UnpermutePermute(h: Halves)
    ensures Unpermute(Permute(h)) == h
  {
    var h1 := Swap4(h);
    var h2 := Swap16(h1);
    var h3 := Swap2(h2);
    var h4 := Swap8(h3);
    var h5 := TurnRight(h4);
    var h6 := Swap0(h5);
    TurnsUndone(h6);
    Swap0Twice(h5);
    TurnsUndone(h4);
    Swap8Twice(h3);
    Swap2Twice(h2);
    Swap16Twice(h1);
    Swap4Twice(h);
  }

  lemma PermuteUnpermute(h: Halves)
    ensures Permute(Unpermute(h)) == h
  {
    var h1 := UnturnLeft(h);
    var h2 := Swap0(h1);
    var h3 := UnturnRight(h2);
    var h4 := Swap8(h3);
    var h5 := Swap2(h4);
    var h6 := Swap16(h5);
    Swap4Twice(h6);
    Swap16Twice(h5);
    Swap2Twice(h4);
    Swap8Twice(h3);
    TurnsUndone(h2);
    Swap0Twice(h1);
    TurnsUndone(h);
  }

  /** The left half of the initial permutation of FIPS 46-3, bit by bit: its table starts 58, 50, 42, ... */
  function StandardLeft(h: Halves): bv32 {
    (((h.r >> 6) & 1) << 31) | (((h.r >> 14) & 1) << 30) | (((h.r >> 22) & 1) << 29) | (((h.r >> 30) & 1) << 28) |
    (((h.l >> 6) & 1) << 27) | (((h.l >> 14) & 1) << 26) | (((h.l >> 22) & 1) << 25) | (((h.l >> 30) & 1) << 24) |
    (((h.r >> 4) & 1) << 23) | (((h.r >> 12) & 1) << 22) | (((h.r >> 20) & 1) << 21) | (((h.r >> 28) & 1) << 20) |
    (((h.l >> 4) & 1) << 19) | (((h.l >> 12) & 1) << 18) | (((h.l >> 20) & 1) << 17) | (((h.l >> 28) & 1) << 16) |
    (((h.r >> 2) & 1) << 15) | (((h.r >> 10) & 1) << 14) | (((h.r >> 18) & 1) << 13) | (((h.r >> 26) & 1) << 12) |
    (((h.l >> 2) & 1) << 11) | (((h.l >> 10) & 1) << 10) | (((h.l >> 18) & 1) << 9) | (((h.l >> 26) & 1) << 8) |
    (((h.r >> 0) & 1) << 7) | (((h.r >> 8) & 1) << 6) | (((h.r >> 16) & 1) << 5) | (((h.r >> 24) & 1) << 4) |
    (((h.l >> 0) & 1) << 3) | (((h.l >> 8) & 1) << 2) | (((h.l >> 16) & 1) << 1) | (((h.l >> 24) & 1) << 0)
  }

  /** The right half: the table goes on 57, 49, 41, ... */
  function StandardRight(h: Halves): bv32 {
    (((h.r >> 7) & 1) << 31) | (((h.r >> 15) & 1) << 30) | (((h.r >> 23) & 1) << 29) | (((h.r >> 31) & 1) << 28) |
    (((h.l >> 7) & 1) << 27) | (((h.l >> 15) & 1) << 26) | (((h.l >> 23) & 1) << 25) | (((h.l >> 31) & 1) << 24) |
    (((h.r >> 5) & 1) << 23) | (((h.r >> 13) & 1) << 22) | (((h.r >> 21) & 1) << 21) | (((h.r >> 29) & 1) << 20) |
    (((h.l >> 5) & 1) << 19) | (((h.l >> 13) & 1) << 18) | (((h.l >> 21) & 1) << 17) | (((h.l >> 29) & 1) << 16) |
    (((h.r >> 3) & 1) << 15) | (((h.r >> 11) & 1) << 14) | (((h.r >> 19) & 1) << 13) | (((h.r >> 27) & 1) << 12) |
    (((h.l >> 3) & 1) << 11) | (((h.l >> 11) & 1) << 10) | (((h.l >> 19) & 1) << 9) | (((h.l >> 27) & 1) << 8) |
    (((h.r >> 1) & 1) << 7) | (((h.r >> 9) & 1) << 6) | (((h.r >> 17) & 1) << 5) | (((h.r >> 25) & 1) << 4) |
    (((h.l >> 1) & 1) << 3) | (((h.l >> 9) & 1) << 2) | (((h.l >> 17) & 1) << 1) | (((h.l >> 25) & 1) << 0)
  }

  /** The exchanges without arithmetic: which bits stay and which come from the other half. */
  function Wire4(h: Halves): Halves {
    Halves((h.l & 0x0f0f0f0f) | ((h.r & 0x0f0f0f0f) << 4),
           (h.r & 0xf0f0f0f0) | ((h.l >> 4) & 0x0f0f0f0f))
  }

  function Wire16(h: Halves): Halves {
    Halves((h.l & 0x0000ffff) | ((h.r & 0x0000ffff) << 16),
           (h.r & 0xffff0000) | ((h.l >> 16) & 0x0000ffff))
  }

  function Wire2(h: Halves): Halves {
    Halves((h.l & 0xcccccccc) | ((h.r >> 2) & 0x33333333),
           (h.r & 0x33333333) | ((h.l & 0x33333333) << 2))
  }

  function Wire8(h: Halves): Halves {
    Halves((h.l & 0xff00ff00) | ((h.r >> 8) & 0x00ff00ff),
           (h.r & 0x00ff00ff) | ((h.l & 0x00ff00ff) << 8))
  }

  function Wire0(h: Halves): Halves {
    Halves((h.l & 0x55555555) | (h.r & 0xaaaaaaaa), (h.r & 0x55555555) | (h.l & 0xaaaaaaaa))
  }

  lemma Swap4Left(h: Halves)
    ensures Swap4(h).l == Wire4(h).l
  {
  }

  lemma Swap4Right(h: Halves)
    ensures Swap4(h).r == Wire4(h).r
  {
  }

  lemma Swap4Wires(h: Halves)
    ensures Swap4(h) == Wire4(h)
  {
    Swap4Left(h);
    Swap4Right(h);
  }

  lemma Swap16Left(h: Halves)
    ensures Swap16(h).l == Wire16(h).l
  {
  }

  lemma Swap16Right(h: Halves)
    ensures Swap16(h).r == Wire16(h).r
  {
  }

  lemma Swap16Wires(h: Halves)
    ensures Swap16(h) == Wire16(h)
  {
    Swap16Left(h);
    Swap16Right(h);
  }

  lemma Swap2Left(h: Halves)
    ensures Swap2(h).l == Wire2(h).l
  {
  }

  lemma Swap2Right(h: Halves)
    ensures Swap2(h).r == Wire2(h).r
  {
  }

  lemma Swap2Wires(h: Halves)
    ensures Swap2(h) == Wire2(h)
  {
    Swap2Left(h);
    Swap2Right(h);
  }

  lemma Swap8Left(h: Halves)
    ensures Swap8(h).l == Wire8(h).l
  {
  }

  lemma Swap8Right(h: Halves)
    ensures Swap8(h).r == Wire8(h).r
  {
  }

  lemma Swap8Wires(h: Halves)
    ensures Swap8(h) == Wire8(h)
  {
    Swap8Left(h);
    Swap8Right(h);
  }

  lemma Swap0Left(h: Halves)
    ensures Swap0(h).l == Wire0(h).l
  {
  }

  lemma Swap0Right(h: Halves)
    ensures Swap0(h).r == Wire0(h).r
  {
  }

  lemma Swap0Wires(h: Halves)
    ensures Swap0(h) == Wire0(h)
  {
    Swap0Left(h);
    Swap0Right(h);
  }

  function Wired(h: Halves): Halves {
    TurnLeft(Wire0(TurnRight(Wire8(Wire2(Wire16(Wire4(h)))))))
  }

  lemma WiredIsStandardLeft(h: Halves)
    ensures Wired(h).l == RotateLeft(StandardLeft(h))
  {
  }

  lemma WiredIsStandardRight(h: Halves)
    ensures Wired(h).r == RotateLeft(StandardRight(h))
  {
  }

  lemma PermuteIsWired(h: Halves)
    ensures Permute(h) == Wired(h)
  {
    var h1 := Swap4(h);
    var h2 := Swap16(h1);
    var h3 := Swap2(h2);
    var h4 := Swap8(h3);
    Swap4Wires(h);
    Swap16Wires(h1);
    Swap2Wires(h2);
    Swap8Wires(h3);
    Swap0Wires(TurnRight(h4));
  }

  /** The swaps of the source are the standard's initial permutation, each half turned left by one. */
  lemma PermuteIsStandard(h: Halves)
    ensures Permute(h) == Halves(RotateLeft(StandardLeft(h)), RotateLeft(StandardRight(h)))
  {
    PermuteIsWired(h);
    WiredIsStandardLeft(h);
    WiredIsStandardRight(h);
  }

  // ---- Rounds ---------------------------------------------------------------------------------------

  datatype RoundKey = RoundKey(k0: bv32, k1: bv32)

  function Index(x: bv32): bv6 {
    (x & 0x3f) as bv6
  }

  function Odd(sp: Boxes, x: bv32): bv32 {
    sp.sp7(Index(x)) | sp.sp5(Index(x >> 8)) | sp.sp3(Index(x >> 16)) | sp.sp1(Index(x >> 24))
  }

  function Even(sp: Boxes, sofar: bv32, x: bv32): bv32 {
    sofar | sp.sp8(Index(x)) | sp.sp6(Index(x >> 8)) | sp.sp4(Index(x >> 16)) | sp.sp2(Index(x >> 24))
  }

  /** What a round mixes into one half, from the other half and the round's two subkey words: the odd boxes
      look at the half turned right by four bits, the even ones at the half as it is. */
  function Mix(sp: Boxes, half: bv32, k: RoundKey): bv32 {
    Even(sp, Odd(sp, Keyed(TurnFour(half), k.k0)), Keyed(half, k.k1))
  }

  function Keyed(half: bv32, k: bv32): bv32 {
    half ^ k
  }

  function TurnFour(half: bv32): bv32 {
    (half << 28) | (half >> 4)
  }

  /** One round of a Feistel network. */
  function Round(sp: Boxes, k: RoundKey, h: Halves): Halves {
    Halves(h.r, Keyed(h.l, Mix(sp, h.r, k)))
  }

  function Rounds(sp: Boxes, ks: seq<RoundKey>, h: Halves): Halves
    decreases |ks|
  {
    if ks == [] then h else Rounds(sp, ks[1..], Round(sp, ks[0], h))
  }

  function Reverse(ks: seq<RoundKey>): seq<RoundKey> {
    if ks == [] then [] else Reverse(ks[1..]) + [ks[0]]
  }

  lemma KeyedTwice(a: bv32, x: bv32)
    ensures Keyed(Keyed(a, x), x) == a
  {
  }

  lemma RoundBack(sp: Boxes, k: RoundKey, h: Halves)
    ensures Round(sp, k, Round(sp, k, h).Swap()) == h.Swap()
  {
    var m := Mix(sp, h.r, k);
    KeyedTwice(h.l, m);
  }

  lemma {:induction false} RoundsAppend(sp: Boxes, ks: seq<RoundKey>, js: seq<RoundKey>, h: Halves)
    ensures Rounds(sp, ks + js, h) == Rounds(sp, js, Rounds(sp, ks, h))
    decreases |ks|
  {
    if ks == [] {
      assert ks + js == js;
    } else {
      assert (ks + js)[1..] == ks[1..] + js;
      RoundsAppend(sp, ks[1..], js, Round(sp, ks[0], h));
    }
  }

  /** The rounds with the keys in reverse order, on exchanged halves, run the network backwards. */
  lemma {:induction false} RoundsBack(sp: Boxes, ks: seq<RoundKey>, h: Halves)
    ensures Rounds(sp, Reverse(ks), Rounds(sp, ks, h).Swap()) == h.Swap()
    decreases |ks|
  {
    if ks != [] {
      var h' := Round(sp, ks[0], h);
      RoundsBack(sp, ks[1..], h');
      RoundsAppend(sp, Reverse(ks[1..]), [ks[0]], Rounds(sp, ks, h).Swap());
      RoundBack(sp, ks[0], h);
      OneRound(sp, ks[0], h'.Swap());
    }
  }

  lemma OneRound(sp: Boxes, k: RoundKey, h: Halves)
    ensures Rounds(sp, [k], h) == Round(sp, k, h)
  {
    assert [k][1..] == [];
  }

  // ---- Blocks of eight bytes ------------------------------------------------------------------------

  function Word(b0: Byte, b1: Byte, b2: Byte, b3: Byte): bv32 {
    ((b0 as bv32) << 24) | ((b1 as bv32) << 16) | ((b2 as bv32) << 8) | (b3 as bv32)
  }

  function ByteOf(x: bv32, shift: bv6): Byte
    requires shift <= 24
  {
    ((x >> shift) & 0xff) as bv8
  }

  function Pack(b: seq<Byte>): Halves
    requires |b| == 8
  {
    Halves(Word(b[0], b[1], b[2], b[3]), Word(b[4], b[5], b[6], b[7]))
  }

  function Spread(h: Halves): seq<Byte> {
    [ByteOf(h.l, 24), ByteOf(h.l, 16), ByteOf(h.l, 8), ByteOf(h.l, 0),
     ByteOf(h.r, 24), ByteOf(h.r, 16), ByteOf(h.r, 8), ByteOf(h.r, 0)]
  }

  /** How far byte `i` of a word is shifted: 8 * (3 - i). */
  function Shift(i: nat): (n: bv6)
    requires i < 4
    ensures n <= 24
  {
    if i == 0 then 24 else if i == 1 then 16 else if i == 2 then 8 else 0
  }

  lemma SpreadAt(h: Halves, i: nat)
    requires i < 8
    ensures Spread(h)[i] == ByteOf(if i / 4 == 0 then h.l else h.r, Shift(i % 4))
  {
  }

  lemma WordBytes(b0: Byte, b1: Byte, b2: Byte, b3: Byte)
    ensures var x := Word(b0, b1, b2, b3);
            ByteOf(x, 24) == b0 && ByteOf(x, 16) == b1 && ByteOf(x, 8) == b2 && ByteOf(x, 0) == b3
  {
  }

  lemma BytesWord(x: bv32)
    ensures Word(ByteOf(x, 24), ByteOf(x, 16), ByteOf(x, 8), ByteOf(x, 0)) == x
  {
  }

  lemma SpreadPack(b: seq<Byte>)
    requires |b| == 8
    ensures Spread(Pack(b)) == b
  {
    WordBytes(b[0], b[1], b[2], b[3]);
    WordBytes(b[4], b[5], b[6], b[7]);
  }

  lemma PackSpread(h: Halves)
    ensures Pack(Spread(h)) == h
  {
    BytesWord(h.l);
    BytesWord(h.r);
  }

  // ---- The cipher -----------------------------------------------------------------------------------

  /** Encryption of one block: permute, sixteen rounds, exchange the halves, permute back. */
  function Encrypted(sp: Boxes, ks: seq<RoundKey>, text: seq<Byte>): (b: seq<Byte>)
    requires |text| == 8
    ensures |b| == 8
  {
    Spread(Unpermute(Rounds(sp, ks, Permute(Pack(text))).Swap()))
  }

  /** Deciphering: the same cipher with the round keys in reverse order undoes an encryption. */
  lemma Deciphering(sp: Boxes, ks: seq<RoundKey>, text: seq<Byte>)
    requires |text| == 8
    ensures Encrypted(sp, Reverse(ks), Encrypted(sp, ks, text)) == text
  {
    var start := Permute(Pack(text));
    var end := Rounds(sp, ks, start).Swap();
    PackSpread(Unpermute(end));
    PermuteUnpermute(end);
    RoundsBack(sp, ks, start);
    UnpermutePermute(Pack(text));
    SpreadPack(text);
  }

  /** Different blocks have different encryptions. */
  lemma EncryptionIsInjective(sp: Boxes, ks: seq<RoundKey>, t: seq<Byte>, u: seq<Byte>)
    requires |t| == 8 && |u| == 8 && Encrypted(sp, ks, t) == Encrypted(sp, ks, u)
    ensures t == u
  {
    Deciphering(sp, ks, t);
    Deciphering(sp, ks, u);
  }

  // ---- The object -----------------------------------------------------------------------------------

  /** The words of the key array, in pairs. */
  function RoundKeys(keys: seq<bv32>): seq<RoundKey>
    requires |keys| % 2 == 0
    decreases |keys|
  {
    if keys == [] then [] else [RoundKey(keys[0], keys[1])] + RoundKeys(keys[2..])
  }

  lemma {:induction false} RoundKeysAt(keys: seq<bv32>, i: nat)
    requires |keys| % 2 == 0 && 2 * i + 1 < |keys|
    ensures |RoundKeys(keys)| == |keys| / 2 && RoundKeys(keys)[i] == RoundKey(keys[2 * i], keys[2 * i + 1])
    decreases i, |keys|
  {
    if i > 0 {
      RoundKeysAt(keys[2..], i - 1);
    } else if |keys| > 2 {
      RoundKeysLength(keys[2..]);
    }
  }

  lemma {:induction false} RoundKeysLength(keys: seq<bv32>)
    requires |keys| % 2 == 0
    ensures |RoundKeys(keys)| == |keys| / 2
    decreases |keys|
  {
    if keys != [] {
      RoundKeysLength(keys[2..]);
    }
  }

  /** The key array for deciphering: the pairs in reverse order, each pair as it is. */
  function ReversedPairs(keys: seq<bv32>): (r: seq<bv32>)
    requires |keys| % 2 == 0
    ensures |r| == |keys|
    decreases |keys|
  {
    if keys == [] then [] else ReversedPairs(keys[2..]) + keys[..2]
  }

  lemma {:induction false} RoundKeysAppend(keys: seq<bv32>, pair: seq<bv32>)
    requires |keys| % 2 == 0 && |pair| == 2
    ensures RoundKeys(keys + pair) == RoundKeys(keys) + [RoundKey(pair[0], pair[1])]
    decreases |keys|
  {
    if keys == [] {
      assert keys + pair == pair && pair[2..] == [];
    } else {
      assert (keys + pair)[2..] == keys[2..] + pair;
      RoundKeysAppend(keys[2..], pair);
    }
  }

  lemma {:induction false} ReversedRoundKeys(keys: seq<bv32>)
    requires |keys| % 2 == 0
    ensures RoundKeys(ReversedPairs(keys)) == Reverse(RoundKeys(keys))
    decreases |keys|
  {
    if keys != [] {
      ReversedRoundKeys(keys[2..]);
      RoundKeysAppend(ReversedPairs(keys[2..]), keys[..2]);
    }
  }

  /** Deciphering with the object: one whose key array has its pairs reversed undoes what the other enciphered. */
  lemma DecipheringWithKeys(sp: Boxes, keys: seq<bv32>, text: seq<Byte>)
    requires |keys| == 32 && |text| == 8
    ensures Encrypted(sp, RoundKeys(ReversedPairs(keys)), Encrypted(sp, RoundKeys(keys), text)) == text
  {
    ReversedRoundKeys(keys);
    Deciphering(sp, RoundKeys(keys), text);
  }

  lemma {:induction false} LastRound(sp: Boxes, ks: seq<RoundKey>, i: nat, h: Halves)
    requires i < |ks|
    ensures Rounds(sp, ks[..i+1], h) == Round(sp, ks[i], Rounds(sp, ks[..i], h))
  {
    assert ks[..i+1] == ks[..i] + [ks[i]];
    RoundsAppend(sp, ks[..i], [ks[i]], h);
    OneRound(sp, ks[i], Rounds(sp, ks[..i], h));
  }

  /** One pass of the source's loop is two rounds; the halves are back in their places afterwards. */
  lemma OnePass(sp: Boxes, keys: seq<bv32>, i: nat, start: Halves, l: bv32, r: bv32)
    requires |keys| == 32 && i < 8 && |RoundKeys(keys)| == 16
    requires Rounds(sp, RoundKeys(keys)[..2 * i], start) == Halves(l, r)
    ensures var k, k' := RoundKey(keys[4 * i], keys[4 * i + 1]), RoundKey(keys[4 * i + 2], keys[4 * i + 3]);
            var l' := Keyed(l, Mix(sp, r, k));
            Rounds(sp, RoundKeys(keys)[..2 * i + 2], start) == Halves(l', Keyed(r, Mix(sp, l', k')))
  {
    RoundKeysAt(keys, 2 * i);
    RoundKeysAt(keys, 2 * i + 1);
    LastRound(sp, RoundKeys(keys), 2 * i, start);
    LastRound(sp, RoundKeys(keys), 2 * i + 1, start);
  }

  class DES {
    const sp: Boxes
    const keys: seq<bv32>

    constructor (sp: Boxes, keys: seq<bv32>)
      requires |keys| == 32
      ensures this.sp == sp && this.keys == keys
    {
      this.sp, this.keys := sp, keys;
    }

    method Enc8(text: seq<Byte>) returns (b: seq<Byte>)
      requires |keys| == 32 && |text| == 8
      ensures b == Encrypted(sp, RoundKeys(keys), text)
    {
      var h := Pack(text);
      h := InitialPermutation(h);
      h := AllRounds(h);
      h := FinalPermutation(h);
      b := SpreadBytes(h);
    }

    /** Eight passes of two rounds each; a pass changes both halves in place instead of exchanging them. */
    method AllRounds(start: Halves) returns (h: Halves)
      requires |keys| == 32
      ensures h == Rounds(sp, RoundKeys(keys), start)
    {
      h := start;
      ghost var ks := RoundKeys(keys);
      RoundKeysLength(keys);
      var i, keysi := 0, 0;
      while i < 8
        invariant 0 <= i <= 8 && keysi == 4 * i
        invariant Rounds(sp, ks[..2 * i], start) == h
      {
        OnePass(sp, keys, i, start, h.l, h.r);
        var fval := HalfRound(h.r, keys[keysi], keys[keysi + 1]);
        h := h.(l := Keyed(h.l, fval));
        fval := HalfRound(h.l, keys[keysi + 2], keys[keysi + 3]);
        h := h.(r := Keyed(h.r, fval));
        keysi := keysi + 4;
        i := i + 1;
      }
      assert ks[..16] == ks;
    }

    /** The closing loop: byte `i` is cut out of word `i / 4`. */
    static method SpreadBytes(h: Halves) returns (b: seq<Byte>)
      ensures b == Spread(h)
    {
      ghost var goal := Spread(h);
      b := [];
      var i := 0;
      while i < 8
        invariant 0 <= i <= 8
        invariant b == goal[..i]
      {
        SpreadAt(h, i);
        var next := ByteOf(if i / 4 == 0 then h.l else h.r, Shift(i % 4));
        b := b + [next];
        i := i + 1;
      }
    }

    method HalfRound(half: bv32, k0: bv32, k1: bv32) returns (fval: bv32)
      ensures fval == Mix(sp, half, RoundKey(k0, k1))
    {
      var x := TurnFour(half);
      x := Keyed(x, k0);
      fval := OddBoxes(x);
      x := Keyed(half, k1);
      fval := EvenBoxes(fval, x);
    }

    method OddBoxes(x: bv32) returns (fval: bv32)
      ensures fval == Odd(sp, x)
    {
      fval := sp.sp7(Index(x));
      fval := fval | sp.sp5(Index(x >> 8));
      fval := fval | sp.sp3(Index(x >> 16));
      fval := fval | sp.sp1(Index(x >> 24));
    }

    method EvenBoxes(sofar: bv32, x: bv32) returns (fval: bv32)
      ensures fval == Even(sp, sofar, x)
    {
      fval := sofar | sp.sp8(Index(x));
      fval := fval | sp.sp6(Index(x >> 8));
      fval := fval | sp.sp4(Index(x >> 16));
      fval := fval | sp.sp2(Index(x >> 24));
    }

    static method InitialPermutation(h0: Halves) returns (h: Halves)
      ensures h == Permute(h0)
    {
      h := Swap4(h0);
      h := Swap16(h);
      h := Swap2(h);
      h := Swap8(h);
      h := TurnRight(h);
      h := Swap0(h);
      h := TurnLeft(h);
    }

    /** The source works on `l` and `r` the other way round, and spreads `[r, l]`. */
    static method FinalPermutation(h0: Halves) returns (h: Halves)
      ensures h == Unpermute(h0.Swap())
    {
      h := h0.Swap();
      h := UnturnLeft(h);
      h := Swap0(h);
      h := UnturnRight(h);
      h := Swap8(h);
      h := Swap2(h);
      h := Swap16(h);
      h := Swap4(h);
    }
  }
}
