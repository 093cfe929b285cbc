/**
 The CRC-64 of crc64.c and the slice-by-8 engine of crcspeed.c.

 The reference is the bit-by-bit register of `_crc64`. The engine works on the mirrored
 register, eight bytes at a time, with tables filled from the reference. The proof rests on
 the mirrored byte step `Advance` being linear over exclusive-or, so that eight steps of a
 word split into one table entry for each of its bytes.
 */
module Crc64 {

  /** A 64-bit register. The wrapper keeps bit-level reasoning inside the lemmas that need it. */
  datatype Word = Word(v: bv64)

  const POLY := Word(0xad93d23594c935a9)
  const MIRRORED_POLY := Word(0x95ac9329ac4bc9b5)

  function XorOf(a: bv64, b: bv64): bv64 { a ^ b }
  function Xor(a: Word, b: Word): Word { Word(XorOf(a.v, b.v)) }
  function Shl1Of(a: bv64): bv64 { a << 1 }
  function Shr1Of(a: bv64): bv64 { a >> 1 }
  function Shl1(a: Word): Word { Word(Shl1Of(a.v)) }
  function Shr1(a: Word): Word { Word(Shr1Of(a.v)) }
  function Shl8Of(a: bv64): bv64 { a << 8 }
  function Shr8Of(a: bv64): bv64 { a >> 8 }
  function Shl8(a: Word): Word { Word(Shl8Of(a.v)) }
  function Shr8(a: Word): Word { Word(Shr8Of(a.v)) }
  predicate TopBit(a: Word) { a.v & 0x8000000000000000 != 0 }
  predicate LowBit(a: Word) { a.v & 1 == 1 }
  function LowByte(a: Word): bv8 { (a.v & 0xff) as bv8 }
  function TopByte(a: Word): bv8 { (a.v >> 56) as bv8 }
  function Widen(b: bv8): Word { Word(b as bv64) }

  // ------------------------------------------------------------------ the reference

  /** One bit of input pushed into the register of `_crc64`. */
  function BitStep(crc: Word, bit: bool): Word {
    if TopBit(crc) != bit then Xor(Shl1(crc), POLY) else Shl1(crc)
  }

  /** The lowest `n` bits of `c`, least significant first. */
  function BitSteps(crc: Word, c: bv8, n: nat): Word
    decreases n
  {
    if n == 0 then crc else BitSteps(BitStep(crc, c & 1 == 1), c >> 1, n - 1)
  }

  /** The register after a whole buffer. */
  function Register(crc: Word, data: seq<bv8>): Word {
    if |data| == 0 then crc
    else BitSteps(Register(crc, data[..|data| - 1]), data[|data| - 1], 8)
  }

  /** The portable branch of `rev8`. */
  function SwapBytesOf(a: bv64): bv64 {
    var b := ((a >> 8) & 0x00ff00ff00ff00ff) | ((a & 0x00ff00ff00ff00ff) << 8);
    var c := ((b >> 16) & 0x0000ffff0000ffff) | ((b & 0x0000ffff0000ffff) << 16);
    (c >> 32) | (c << 32)
  }

  function SwapBytes(w: Word): Word { Word(SwapBytesOf(w.v)) }

  /** All 64 bits in reverse order. */
  function MirrorOf(x: bv64): bv64 {
    var a := ((x >> 1) & 0x5555555555555555) | ((x & 0x5555555555555555) << 1);
    var b := ((a >> 2) & 0x3333333333333333) | ((a & 0x3333333333333333) << 2);
    var c := ((b >> 4) & 0x0f0f0f0f0f0f0f0f) | ((b & 0x0f0f0f0f0f0f0f0f) << 4);
    SwapBytesOf(c)
  }

  function Mirror(w: Word): Word { Word(MirrorOf(w.v)) }

  function BitIn(x: bv64, i: bv64): bv64
    requires i < 64
  {
    (x >> i) & 1
  }

  lemma {:induction false} MirrorReversesBits(x: bv64, i: bv64)
    requires i < 64
    ensures BitIn(MirrorOf(x), 63 - i) == BitIn(x, i)
  {
  }

  function Iterate<S>(f: S -> S, s: S, n: nat): S
    decreases n
  {
    if n == 0 then s else Iterate(f, f(s), n - 1)
  }

  /** `n` applications of `f` amount to one of `g`. */
  ghost predicate Amounts<S(!new)>(f: S -> S, n: nat, g: S -> S) {
    forall s :: Iterate(f, s, n) == g(s)
  }

  lemma {:induction false} IterateSum<S>(f: S -> S, s: S, m: nat, n: nat)
    ensures Iterate(f, s, m + n) == Iterate(f, Iterate(f, s, m), n)
    decreases m
  {
    if m > 0 { IterateSum(f, f(s), m - 1, n); }
  }

  lemma {:induction false} AmountsTwice<S(!new)>(f: S -> S, n: nat, g: S -> S, h: S -> S)
    requires Amounts(f, n, g) && forall s :: g(g(s)) == h(s)
    ensures Amounts(f, 2 * n, h)
  {
    forall s ensures Iterate(f, s, 2 * n) == h(s) { IterateSum(f, s, n, n); }
  }

  /** `(r << 1) | (d & 1)` */
  function Append(r: Word, d: Word): Word { Word((r.v << 1) | (d.v & 1)) }

  /** One turn of the loop of `crc_reflect`, on the bits still to come and the result so far. */
  function Turn(s: (Word, Word)): (Word, Word) { (Shr1(s.0), Append(s.1, s.0)) }
  function Turn2(s: (Word, Word)): (Word, Word) { Turn(Turn(s)) }
  function Turn4(s: (Word, Word)): (Word, Word) { Turn2(Turn2(s)) }
  function Turn8(s: (Word, Word)): (Word, Word) { Turn4(Turn4(s)) }
  function Turn16(s: (Word, Word)): (Word, Word) { Turn8(Turn8(s)) }
  function Turn32(s: (Word, Word)): (Word, Word) { Turn16(Turn16(s)) }
  function Turn64(s: (Word, Word)): (Word, Word) { Turn32(Turn32(s)) }

  function Shr4Of(a: bv64): bv64 { a >> 4 }

  function JoinNibble(r: bv64, d: bv64): bv64 {
    (r << 4) | ((d & 1) << 3) | ((d & 2) << 1) | ((d >> 1) & 2) | ((d >> 3) & 1)
  }

  function JoinByte(r: bv64, d: bv64): bv64 {
    (r << 8) | ((d & 1) << 7) | ((d & 2) << 5) | ((d & 4) << 3) | ((d & 8) << 1)
    | ((d >> 1) & 8) | ((d >> 3) & 4) | ((d >> 5) & 2) | ((d >> 7) & 1)
  }

  function TakeNibble(s: (Word, Word)): (Word, Word) {
    (Word(Shr4Of(s.0.v)), Word(JoinNibble(s.1.v, s.0.v)))
  }

  function TakeByte(s: (Word, Word)): (Word, Word) {
    (Shr8(s.0), Word(JoinByte(s.1.v, s.0.v)))
  }

  lemma {:induction false} Turn4TakesNibble(s: (Word, Word))
    ensures Turn4(s) == TakeNibble(s)
  {
    assert Turn4(s).0 == TakeNibble(s).0;
  }

  lemma {:induction false} JoinTwice(r: bv64, d: bv64)
    ensures JoinNibble(JoinNibble(r, d), Shr4Of(d)) == JoinByte(r, d)
  {
  }

  lemma {:induction false} ShiftTwice(d: bv64)
    ensures Shr4Of(Shr4Of(d)) == Shr8Of(d)
  {
  }

  lemma {:induction false} NibblesMakeByte(s: (Word, Word))
    ensures TakeNibble(TakeNibble(s)) == TakeByte(s)
  {
    hide JoinNibble, JoinByte, Shr4Of, Shr8Of;
    JoinTwice(s.1.v, s.0.v);
    ShiftTwice(s.0.v);
  }

  lemma {:induction false} Turn8TakesByte(s: (Word, Word))
    ensures Turn8(s) == TakeByte(s)
  {
    hide Turn4, TakeNibble, TakeByte;
    Turn4TakesNibble(s);
    Turn4TakesNibble(TakeNibble(s));
    NibblesMakeByte(s);
  }

  lemma {:induction false} EightBytesMirror(x: Word)
    ensures TakeByte(TakeByte(TakeByte(TakeByte(TakeByte(TakeByte(TakeByte(TakeByte((x, Word(0)))))))))).1 == Mirror(x)
  {
  }

  lemma {:induction false} Turn64Mirrors(x: Word)
    ensures Turn64((x, Word(0))).1 == Mirror(x)
  {
    hide Turn8, TakeByte, Mirror;
    var s0 := (x, Word(0));
    var s1 := TakeByte(s0); Turn8TakesByte(s0);
    var s2 := TakeByte(s1); Turn8TakesByte(s1);
    var s3 := TakeByte(s2); Turn8TakesByte(s2);
    var s4 := TakeByte(s3); Turn8TakesByte(s3);
    var s5 := TakeByte(s4); Turn8TakesByte(s4);
    var s6 := TakeByte(s5); Turn8TakesByte(s5);
    var s7 := TakeByte(s6); Turn8TakesByte(s6);
    Turn8TakesByte(s7);
    EightBytesMirror(x);
  }

  lemma {:induction false} SixtyFourTurns()
    ensures Amounts(Turn, 64, Turn64)
  {
    hide Shr1, Append;
    assert Amounts(Turn, 1, Turn);
    AmountsTwice(Turn, 1, Turn, Turn2);
    AmountsTwice(Turn, 2, Turn2, Turn4);
    AmountsTwice(Turn, 4, Turn4, Turn8);
    AmountsTwice(Turn, 8, Turn8, Turn16);
    AmountsTwice(Turn, 16, Turn16, Turn32);
    AmountsTwice(Turn, 32, Turn32, Turn64);
  }

  /** `crc_reflect` over 64 bits. */
  method CrcReflect(x: Word) returns (ret: Word)
    ensures ret == Mirror(x)
  {
    hide Mirror, Turn64, Shr1, Append;
    ghost var goal := Iterate(Turn, (x, Word(0)), 64);
    var data := x;
    ret := Append(Word(0), data);
    for i := 1 to 64
      invariant Iterate(Turn, (Shr1(data), ret), 64 - i) == goal
    {
      data := Shr1(data);
      ret := Append(ret, data);
    }
    SixtyFourTurns();
    Turn64Mirrors(x);
  }

  /** The walking one of the inner loop stands on bit `n`, and `rest` starts at that bit. */
  predicate MaskAt(c: bv8, i: bv8, n: nat, rest: bv8) {
    match n
    case 0 => i == 1 && rest == c
    case 1 => i == 2 && rest == c >> 1
    case 2 => i == 4 && rest == c >> 2
    case 3 => i == 8 && rest == c >> 3
    case 4 => i == 16 && rest == c >> 4
    case 5 => i == 32 && rest == c >> 5
    case 6 => i == 64 && rest == c >> 6
    case 7 => i == 128 && rest == c >> 7
    case _ => true
  }

  lemma {:induction false} MaskStarts(c: bv8)
    ensures MaskAt(c, 1, 0, c)
  {
  }

  lemma {:induction false} MaskMoves(c: bv8, i: bv8, n: nat, rest: bv8)
    requires n < 8 && MaskAt(c, i, n, rest)
    ensures (c & i != 0) == (rest & 1 == 1)
    ensures MaskAt(c, i << 1, n + 1, rest >> 1)
  {
  }

  /** `_crc64`, bit by bit. */
  method CrcBitwise(crc0: Word, data: seq<bv8>) returns (r: Word)
    ensures r == Mirror(Register(crc0, data))
  {
    hide Mirror, MaskAt, TopBit, Shl1, Xor;
    var crc := crc0;
    for offset := 0 to |data|
      invariant crc == Register(crc0, data[..offset])
    {
      var c := data[offset];
      ghost var rest, goal := c, BitSteps(crc, c, 8);
      var i: bv8 := 0x01;
      MaskStarts(c);
      for n := 0 to 8
        invariant BitSteps(crc, rest, 8 - n) == goal
        invariant MaskAt(c, i, n, rest)
      {
        MaskMoves(c, i, n, rest);
        var bit := TopBit(crc);
        if c & i != 0 { bit := !bit; }
        crc := Shl1(crc);
        if bit { crc := Xor(crc, POLY); }
        i, rest := i << 1, rest >> 1;
      }
      assert data[..offset + 1][..offset] == data[..offset];
    }
    assert data[..|data|] == data;
    r := CrcReflect(crc);
  }

  // ------------------------------------------------------------------ the mirrored register

  /** A zero bit pushed into the mirrored register. */
  function Halve(r: Word): Word {
    if LowBit(r) then Xor(Shr1(r), MIRRORED_POLY) else Shr1(r)
  }

  function Halve2(r: Word): Word { Halve(Halve(r)) }
  function Halve4(r: Word): Word { Halve2(Halve2(r)) }

  /** A zero byte pushed into the mirrored register. */
  function Advance(r: Word): Word { Halve4(Halve4(r)) }

  /** The mirrored register after a whole buffer. */
  function Digest(r: Word, data: seq<bv8>): Word {
    if |data| == 0 then r
    else Advance(Xor(Digest(r, data[..|data| - 1]), Widen(data[|data| - 1])))
  }

  lemma {:induction false} MirrorXorOf(x: bv64, y: bv64)
    ensures MirrorOf(XorOf(x, y)) == XorOf(MirrorOf(x), MirrorOf(y))
  {
  }

  lemma {:induction false} MirrorXor(x: Word, y: Word)
    ensures Mirror(Xor(x, y)) == Xor(Mirror(x), Mirror(y))
  {
    hide MirrorOf, XorOf;
    MirrorXorOf(x.v, y.v);
  }

  lemma {:induction false} MirrorTwiceOf(x: bv64)
    ensures MirrorOf(MirrorOf(x)) == x
  {
  }

  /** Every word is the mirror image of one. */
  lemma {:induction false} MirrorTwice(x: Word)
    ensures Mirror(Mirror(x)) == x
  {
    hide MirrorOf;
    MirrorTwiceOf(x.v);
  }

  lemma {:induction false} MirrorPoly()
    ensures Mirror(POLY) == MIRRORED_POLY
  {
  }

  lemma {:induction false} MirrorShiftBits(x: bv64)
    ensures MirrorOf(x << 1) == MirrorOf(x) >> 1
  {
  }

  lemma {:induction false} MirrorShiftOf(x: bv64)
    ensures MirrorOf(Shl1Of(x)) == Shr1Of(MirrorOf(x))
  {
    hide MirrorOf;
    MirrorShiftBits(x);
  }

  lemma {:induction false} MirrorShift(x: Word)
    ensures Mirror(Shl1(x)) == Shr1(Mirror(x))
  {
    hide MirrorOf, Shl1Of, Shr1Of;
    MirrorShiftOf(x.v);
  }

  lemma {:induction false} MirrorLowBit(x: Word)
    ensures LowBit(Mirror(x)) == TopBit(x)
  {
  }

  lemma {:induction false} HalveMixes(m: Word, c: bv8)
    ensures Halve(Xor(m, Widen(c))) ==
            Xor(if LowBit(m) != (c & 1 == 1) then Xor(Shr1(m), MIRRORED_POLY) else Shr1(m), Widen(c >> 1))
  {
  }

  lemma {:induction false} MirrorStep(crc: Word, c: bv8)
    ensures Xor(Mirror(BitStep(crc, c & 1 == 1)), Widen(c >> 1)) == Halve(Xor(Mirror(crc), Widen(c)))
  {
    hide Mirror, Halve, Xor, Shr1, Shl1, LowBit, TopBit, Widen;
    MirrorShift(crc);
    MirrorLowBit(crc);
    MirrorXor(Shl1(crc), POLY);
    MirrorPoly();
    HalveMixes(Mirror(crc), c);
  }

  function Drop(c: bv8, n: nat): bv8
    decreases n
  {
    if n == 0 then c else Drop(c >> 1, n - 1)
  }

  lemma {:induction false} MirrorSteps(crc: Word, c: bv8, n: nat)
    ensures Xor(Mirror(BitSteps(crc, c, n)), Widen(Drop(c, n))) == Iterate(Halve, Xor(Mirror(crc), Widen(c)), n)
    decreases n
  {
    hide Mirror, Halve, BitStep, Xor, Widen;
    if n > 0 {
      MirrorStep(crc, c);
      MirrorSteps(BitStep(crc, c & 1 == 1), c >> 1, n - 1);
    }
  }

  lemma {:induction false} EightHalves()
    ensures Amounts(Halve, 8, Advance)
  {
    hide Halve;
    assert Amounts(Halve, 1, Halve);
    AmountsTwice(Halve, 1, Halve, Halve2);
    AmountsTwice(Halve, 2, Halve2, Halve4);
    AmountsTwice(Halve, 4, Halve4, Advance);
  }

  lemma {:induction false} DropAll(c: bv8)
    ensures Drop(c, 8) == 0
  {
    assert Drop(c, 8) == Drop(c >> 2, 6) == Drop(c >> 4, 4) == Drop(c >> 6, 2);
  }

  lemma {:induction false} XorZero(a: Word)
    ensures Xor(a, Widen(0)) == a && Xor(a, Word(0)) == a && Xor(Word(0), a) == a && Widen(0) == Word(0)
  {
  }

  lemma {:induction false} MirrorByte(crc: Word, c: bv8)
    ensures Mirror(BitSteps(crc, c, 8)) == Advance(Xor(Mirror(crc), Widen(c)))
  {
    hide Mirror, Halve, BitStep, Advance, Drop, BitSteps, Xor, Widen;
    MirrorSteps(crc, c, 8);
    DropAll(c);
    XorZero(Mirror(BitSteps(crc, c, 8)));
    EightHalves();
  }

  /** The mirrored register runs in step with the reference. */
  lemma {:induction false} DigestIsReference(crc: Word, data: seq<bv8>)
    ensures Digest(Mirror(crc), data) == Mirror(Register(crc, data))
  {
    hide Mirror, Advance, BitSteps, Xor, Widen;
    if |data| > 0 {
      var front, last := data[..|data| - 1], data[|data| - 1];
      DigestIsReference(crc, front);
      MirrorByte(Register(crc, front), last);
    }
  }

  /** Two pieces in a row digest like their concatenation. */
  lemma {:induction false} DigestConcat(r: Word, a: seq<bv8>, b: seq<bv8>)
    ensures Digest(r, a + b) == Digest(Digest(r, a), b)
  {
    hide Advance, Xor, Widen;
    if |b| == 0 {
      assert a + b == a;
    } else {
      DigestConcat(r, a, b[..|b| - 1]);
      assert (a + b)[..|a + b| - 1] == a + b[..|b| - 1];
    }
  }

  // ------------------------------------------------------------------ linearity

  lemma {:induction false} XorOfIs(a: bv64, b: bv64)
    ensures XorOf(a, b) == a ^ b
  {
  }

  lemma {:induction false} XorOfRegroups(a: bv64, b: bv64, c: bv64)
    ensures XorOf(a ^ b, c) == XorOf(a, b ^ c)
  {
  }

  lemma {:induction false} XorOfAssociates(a: bv64, b: bv64, c: bv64)
    ensures XorOf(XorOf(a, b), c) == XorOf(a, XorOf(b, c))
  {
    hide XorOf;
    XorOfIs(a, b);
    XorOfIs(b, c);
    XorOfRegroups(a, b, c);
  }

  lemma {:induction false} XorAssociates(a: Word, b: Word, c: Word)
    ensures Xor(Xor(a, b), c) == Xor(a, Xor(b, c))
  {
    hide XorOf;
    XorOfAssociates(a.v, b.v, c.v);
  }

  lemma {:induction false} XorCommutes(a: Word, b: Word)
    ensures Xor(a, b) == Xor(b, a)
  {
  }

  lemma {:induction false} XorCancels(a: Word)
    ensures Xor(a, a) == Word(0)
  {
  }

  /** `Xor` regroups and cancels as needed when `c` meets `a`, `b` or both. */
  lemma {:induction false} XorLaws(a: Word, b: Word, c: Word)
    ensures Xor(Xor(a, b), c) == Xor(a, Xor(b, c)) == Xor(Xor(a, c), b)
    ensures Xor(Xor(a, c), Xor(b, c)) == Xor(a, b)
  {
    hide Xor;
    XorAssociates(a, b, c);
    XorAssociates(a, c, b);
    XorCommutes(b, c);
    XorAssociates(a, c, Xor(c, b));
    XorAssociates(c, c, b);
    XorCancels(c);
    XorZero(b);
  }

  lemma {:induction false} XorShift(a: Word, b: Word)
    ensures Shr1(Xor(a, b)) == Xor(Shr1(a), Shr1(b))
  {
  }

  lemma {:induction false} XorLowBit(a: Word, b: Word)
    ensures LowBit(Xor(a, b)) == (LowBit(a) != LowBit(b))
  {
  }

  lemma {:induction false} HalveLinear(a: Word, b: Word)
    ensures Halve(Xor(a, b)) == Xor(Halve(a), Halve(b))
  {
    hide Xor, Shr1, LowBit;
    XorShift(a, b);
    XorLowBit(a, b);
    XorLaws(Shr1(a), Shr1(b), MIRRORED_POLY);
  }

  lemma {:induction false} Halve4Linear(a: Word, b: Word)
    ensures Halve4(Xor(a, b)) == Xor(Halve4(a), Halve4(b))
  {
    hide Halve, Xor;
    HalveLinear(a, b);
    HalveLinear(Halve(a), Halve(b));
    HalveLinear(Halve2(a), Halve2(b));
    HalveLinear(Halve(Halve2(a)), Halve(Halve2(b)));
  }

  lemma {:induction false} AdvanceLinear(a: Word, b: Word)
    ensures Advance(Xor(a, b)) == Xor(Advance(a), Advance(b))
  {
    hide Halve4, Xor;
    Halve4Linear(a, b);
    Halve4Linear(Halve4(a), Halve4(b));
  }

  /** `k` zero bytes. */
  function Advances(r: Word, k: nat): Word {
    if k == 0 then r else Advance(Advances(r, k - 1))
  }

  lemma {:induction false} AdvancesLinear(a: Word, b: Word, k: nat)
    ensures Advances(Xor(a, b), k) == Xor(Advances(a, k), Advances(b, k))
  {
    hide Advance, Xor;
    if k > 0 {
      AdvancesLinear(a, b, k - 1);
      AdvanceLinear(Advances(a, k - 1), Advances(b, k - 1));
    }
  }

  lemma {:induction false} AdvancesFirst(r: Word, k: nat)
    ensures Advances(r, k + 1) == Advances(Advance(r), k)
  {
    hide Advance;
    if k > 0 { AdvancesFirst(r, k - 1); }
  }

  lemma {:induction false} HalveEven(x: bv64)
    requires x & 1 == 0
    ensures Halve(Word(x)) == Word(x >> 1)
  {
  }

  lemma {:induction false} Halve2Even(x: bv64)
    requires x & 3 == 0
    ensures Halve2(Word(x)) == Word(x >> 2)
  {
    hide Halve;
    HalveEven(x);
    HalveEven(x >> 1);
  }

  lemma {:induction false} Halve4Even(x: bv64)
    requires x & 15 == 0
    ensures Halve4(Word(x)) == Word(x >> 4)
  {
    hide Halve2;
    Halve2Even(x);
    Halve2Even(x >> 2);
  }

  predicate LowByteClear(x: bv64) { x & 255 == 0 }

  /** A word whose low byte is clear is only shifted. */
  lemma {:induction false} AdvanceEven(x: bv64)
    requires LowByteClear(x)
    ensures Advance(Word(x)) == Word(Shr8Of(x))
  {
    hide Halve4;
    Halve4Even(x);
    Halve4Even(x >> 4);
  }

  lemma {:induction false} ShiftsClear(x: bv64)
    ensures LowByteClear(Shl8Of(Shr8Of(x)))
  {
  }

  lemma {:induction false} ShiftsReturn(x: bv64)
    ensures Shr8Of(Shl8Of(Shr8Of(x))) == Shr8Of(x)
  {
  }

  lemma {:induction false} AdvanceShifts(w: Word)
    ensures Advance(Shl8(Shr8(w))) == Shr8(w)
  {
    hide Advance, Shl8Of, Shr8Of, LowByteClear;
    ShiftsClear(w.v);
    ShiftsReturn(w.v);
    AdvanceEven(Shl8Of(Shr8Of(w.v)));
  }

  lemma {:induction false} LowByteApart(w: Word)
    ensures w == Xor(Widen(LowByte(w)), Shl8(Shr8(w)))
  {
  }

  lemma {:induction false} SplitLowByte(w: Word, k: nat)
    ensures Advances(w, k + 1) == Xor(Advances(Widen(LowByte(w)), k + 1), Advances(Shr8(w), k))
  {
    hide Advance, Xor, Widen, LowByte, Shl8, Shr8;
    AdvanceShifts(w);
    LowByteApart(w);
    AdvancesLinear(Widen(LowByte(w)), Shl8(Shr8(w)), k + 1);
    AdvancesFirst(Shl8(Shr8(w)), k);
  }

  // ------------------------------------------------------------------ words of eight bytes

  function JoinOf(b: bv8, w: bv64): bv64 { (w << 8) | (b as bv64) }
  function Join(b: bv8, w: Word): Word { Word(JoinOf(b, w.v)) }

  /** Up to eight bytes as a little-endian machine loads them. */
  function LoadLittle(d: seq<bv8>): Word {
    if |d| == 0 then Word(0) else Join(d[0], LoadLittle(d[1..]))
  }

  /** Up to eight bytes as a big-endian machine loads them. */
  function LoadBig(d: seq<bv8>): Word {
    if |d| == 0 then Word(0) else Join(d[|d| - 1], LoadBig(d[..|d| - 1]))
  }

  /** The value takes no more than `k` bytes. */
  predicate Fits(w: bv64, k: nat) {
    match k
    case 0 => w == 0
    case 1 => w <= 0xff
    case 2 => w <= 0xffff
    case 3 => w <= 0xffffff
    case 4 => w <= 0xffffffff
    case 5 => w <= 0xffffffffff
    case 6 => w <= 0xffffffffffff
    case 7 => w <= 0xffffffffffffff
    case _ => true
  }

  lemma {:induction false} JoinFits(b: bv8, w: bv64, k: nat)
    requires Fits(w, k)
    ensures Fits(JoinOf(b, w), k + 1)
  {
    if k < 8 { assert k in {0, 1, 2, 3, 4, 5, 6, 7}; }
  }

  lemma {:induction false} LoadFits(d: seq<bv8>)
    ensures Fits(LoadLittle(d).v, |d|)
  {
    hide Fits, JoinOf;
    if |d| == 0 {
      FitsZero();
    } else {
      LoadFits(d[1..]);
      JoinFits(d[0], LoadLittle(d[1..]).v, |d| - 1);
    }
  }

  lemma {:induction false} FitsZero()
    ensures Fits(0, 0)
  {
  }

  lemma {:induction false} FitsLeavesTop(w: bv64, k: nat)
    requires Fits(w, k) && k <= 7
    ensures Shr8Of(Shl8Of(w)) == w
  {
    assert k in {0, 1, 2, 3, 4, 5, 6, 7};
  }

  lemma {:induction false} JoinIsXor(b: bv8, w: Word)
    ensures Join(b, w) == Xor(Widen(b), Shl8(w))
  {
  }

  lemma {:induction false} ShlClears(x: bv64)
    ensures LowByteClear(Shl8Of(x))
  {
  }

  lemma {:induction false} AdvanceShifted(w: Word, k: nat)
    requires Fits(w.v, k) && k <= 7
    ensures Advance(Shl8(w)) == w
  {
    hide Advance, Shl8Of, Shr8Of, LowByteClear, Fits;
    ShlClears(w.v);
    FitsLeavesTop(w.v, k);
    AdvanceEven(Shl8Of(w.v));
  }

  /** The first byte of a word is absorbed and the others move up to meet the register. */
  lemma {:induction false} PeelByte(r: Word, b: bv8, w: Word, k: nat)
    requires Fits(w.v, k) && k <= 7
    ensures Advance(Xor(r, Join(b, w))) == Xor(Advance(Xor(r, Widen(b))), w)
  {
    hide Advance, Xor, Join, Widen, Shl8, Fits;
    JoinIsXor(b, w);
    XorAssociates(r, Widen(b), Shl8(w));
    AdvanceLinear(Xor(r, Widen(b)), Shl8(w));
    AdvanceShifted(w, k);
  }

  /** Bytes digested one by one, or loaded as one word and digested together. */
  lemma {:induction false} DigestTogether(r: Word, d: seq<bv8>)
    requires |d| <= 8
    ensures Digest(r, d) == Advances(Xor(r, LoadLittle(d)), |d|)
    decreases |d|
  {
    hide Advance, Xor, Join, Widen, Fits;
    if |d| == 0 {
      XorZero(r);
    } else {
      var rest := d[1..];
      DigestConcat(r, [d[0]], rest);
      assert d == [d[0]] + rest;
      assert [d[0]][..0] == [];
      DigestTogether(Advance(Xor(r, Widen(d[0]))), rest);
      LoadFits(rest);
      PeelByte(r, d[0], LoadLittle(rest), |rest|);
      AdvancesFirst(Xor(r, LoadLittle(d)), |rest|);
    }
  }

  // ------------------------------------------------------------------ the tables

  function ByteIn0(x: bv64): bv8 { (x & 0xff) as bv8 }
  function ByteIn1(x: bv64): bv8 { ((x >> 8) & 0xff) as bv8 }
  function ByteIn2(x: bv64): bv8 { ((x >> 16) & 0xff) as bv8 }
  function ByteIn3(x: bv64): bv8 { ((x >> 24) & 0xff) as bv8 }
  function ByteIn4(x: bv64): bv8 { ((x >> 32) & 0xff) as bv8 }
  function ByteIn5(x: bv64): bv8 { ((x >> 40) & 0xff) as bv8 }
  function ByteIn6(x: bv64): bv8 { ((x >> 48) & 0xff) as bv8 }
  function ByteIn7(x: bv64): bv8 { (x >> 56) as bv8 }

  /** Byte `k` of a word, counted from the least significant. */
  function ByteOf(w: Word, k: nat): bv8
    requires k < 8
  {
    match k
    case 0 => ByteIn0(w.v)
    case 1 => ByteIn1(w.v)
    case 2 => ByteIn2(w.v)
    case 3 => ByteIn3(w.v)
    case 4 => ByteIn4(w.v)
    case 5 => ByteIn5(w.v)
    case 6 => ByteIn6(w.v)
    case 7 => ByteIn7(w.v)
  }

  /** What slot `n` of row `k` holds: byte `n` followed by `k` zero bytes. */
  function Slot(k: nat, n: bv8): Word { Advances(Widen(n), k + 1) }

  /** The byte of a column. */
  function ByteAt(n: nat): bv8
    requires n < 256
  {
    n as bv8
  }

  /** The column of a byte. */
  function IndexOf(b: bv8): (n: nat)
    ensures n < 256
  {
    b as nat
  }

  lemma {:induction false} IndexAndBack(b: bv8)
    ensures ByteAt(IndexOf(b)) == b
  {
  }

  function Same(w: Word): Word { w }

  /** The tables of a little-endian machine (`form` is `Same`) or a big-endian one (`SwapBytes`). */
  ghost predicate IsTable(t: array2<Word>, form: Word -> Word)
    reads t
  {
    && t.Length0 == 8 && t.Length1 == 256
    && forall k, n | 0 <= k < 8 && 0 <= n < 256 :: t[k, n] == form(Slot(k, ByteAt(n)))
  }

  lemma {:induction false} ByteStep(r: Word, b: bv8)
    ensures Xor(Slot(0, LowByte(Xor(r, Widen(b)))), Shr8(r)) == Advance(Xor(r, Widen(b)))
  {
    hide Advance, Xor, Widen, LowByte, Shr8;
    SplitLowByte(Xor(r, Widen(b)), 0);
    HighBytesStay(r, b);
  }

  lemma {:induction false} HighBytesStay(r: Word, b: bv8)
    ensures Shr8(Xor(r, Widen(b))) == Shr8(r)
  {
  }

  lemma {:induction false} SlotGrows(k: nat, n: bv8)
    ensures Xor(Slot(0, LowByte(Slot(k, n))), Shr8(Slot(k, n))) == Slot(k + 1, n)
  {
    hide Advance, Xor, Widen, LowByte, Shr8;
    SplitLowByte(Slot(k, n), 0);
  }

  lemma {:induction false} LastByteAlone(w: Word)
    ensures Shr8(Shr8(Shr8(Shr8(Shr8(Shr8(Shr8(w))))))) == Widen(TopByte(w))
  {
  }

  /** Eight zero bytes, one table entry for each byte of the word. */
  function Gather(w: Word): Word {
    Xor(Slot(7, ByteOf(w, 0)), Xor(Slot(6, ByteOf(w, 1)), Xor(Slot(5, ByteOf(w, 2)), Xor(Slot(4, ByteOf(w, 3)),
    Xor(Slot(3, ByteOf(w, 4)), Xor(Slot(2, ByteOf(w, 5)), Xor(Slot(1, ByteOf(w, 6)), Slot(0, ByteOf(w, 7)))))))))
  }

  lemma {:induction false} SplitBytes(w: Word, k: nat)
    ensures Advances(w, k + 1) == Xor(Slot(k, LowByte(w)), Advances(Shr8(w), k))
  {
    hide Advance, Xor, Widen, LowByte, Shr8, Advances;
    SplitLowByte(w, k);
  }

  lemma {:induction false} BytesAre(w: Word)
    ensures ByteOf(w, 0) == LowByte(w) && ByteOf(w, 1) == LowByte(Shr8(w))
    ensures ByteOf(w, 2) == LowByte(Shr8(Shr8(w))) && ByteOf(w, 3) == LowByte(Shr8(Shr8(Shr8(w))))
    ensures ByteOf(w, 4) == LowByte(Shr8(Shr8(Shr8(Shr8(w)))))
    ensures ByteOf(w, 5) == LowByte(Shr8(Shr8(Shr8(Shr8(Shr8(w))))))
    ensures ByteOf(w, 6) == LowByte(Shr8(Shr8(Shr8(Shr8(Shr8(Shr8(w)))))))
    ensures ByteOf(w, 7) == TopByte(w)
  {
  }

  lemma {:induction false} GatherIsEightSteps(w: Word)
    ensures Gather(w) == Advances(w, 8)
  {
    hide Advance, Xor, Widen, LowByte, Shr8, TopByte, Advances, ByteOf;
    BytesAre(w);
    var w1 := Shr8(w);
    var w2 := Shr8(w1);
    var w3 := Shr8(w2);
    var w4 := Shr8(w3);
    var w5 := Shr8(w4);
    var w6 := Shr8(w5);
    SplitBytes(w, 7);
    SplitBytes(w1, 6);
    SplitBytes(w2, 5);
    SplitBytes(w3, 4);
    SplitBytes(w4, 3);
    SplitBytes(w5, 2);
    SplitBytes(w6, 1);
    LastByteAlone(w);
  }

  lemma {:induction false} MirrorZero()
    ensures Mirror(Word(0)) == Word(0)
  {
  }

  /** The reference run on one byte from zero fills the first row. */
  lemma {:induction false} FirstRow(v: bv8)
    ensures Mirror(Register(Word(0), [v])) == Slot(0, v)
  {
    hide Mirror, Advance, Xor, Widen, BitSteps;
    DigestIsReference(Word(0), [v]);
    MirrorZero();
    assert [v][..0] == [];
    XorZero(Widen(v));
    assert Advances(Widen(v), 0) == Widen(v);
  }

  /** `crcspeed64little_init`, with `_crc64` as the function it is given. */
  method LittleInit(t: array2<Word>)
    requires t.Length0 == 8 && t.Length1 == 256
    modifies t
    ensures IsTable(t, Same)
  {
    hide Mirror, Slot, Xor, Shr8, LowByte, Register, ByteAt, IndexOf;
    for n := 0 to 256
      invariant forall m | 0 <= m < n :: t[0, m] == Slot(0, ByteAt(m))
    {
      var v := ByteAt(n);
      var crc := CrcBitwise(Word(0), [v]);
      FirstRow(v);
      t[0, n] := crc;
    }
    for n := 0 to 256
      invariant forall m | 0 <= m < 256 :: t[0, m] == Slot(0, ByteAt(m))
      invariant forall k, m | 1 <= k < 8 && 0 <= m < n :: t[k, m] == Slot(k, ByteAt(m))
    {
      var crc := t[0, n];
      for k := 1 to 8
        invariant crc == Slot(k - 1, ByteAt(n))
        invariant forall m | 0 <= m < 256 :: t[0, m] == Slot(0, ByteAt(m))
        invariant forall j, m | 1 <= j < 8 && 0 <= m < n :: t[j, m] == Slot(j, ByteAt(m))
        invariant forall j | 1 <= j < k :: t[j, n] == Slot(j, ByteAt(n))
      {
        SlotGrows(k - 1, ByteAt(n));
        IndexAndBack(LowByte(crc));
        crc := Xor(t[0, IndexOf(LowByte(crc))], Shr8(crc));
        t[k, n] := crc;
      }
    }
  }

  /** `crcspeed64big_init`. */
  method BigInit(t: array2<Word>)
    requires t.Length0 == 8 && t.Length1 == 256
    modifies t
    ensures IsTable(t, SwapBytes)
  {
    hide SwapBytes, Slot, ByteAt;
    LittleInit(t);
    for k := 0 to 8
      invariant forall j, m | 0 <= j < k && 0 <= m < 256 :: t[j, m] == SwapBytes(Slot(j, ByteAt(m)))
      invariant forall j, m | k <= j < 8 && 0 <= m < 256 :: t[j, m] == Slot(j, ByteAt(m))
    {
      for n := 0 to 256
        invariant forall j, m | 0 <= j < k && 0 <= m < 256 :: t[j, m] == SwapBytes(Slot(j, ByteAt(m)))
        invariant forall m | 0 <= m < n :: t[k, m] == SwapBytes(Slot(k, ByteAt(m)))
        invariant forall m | n <= m < 256 :: t[k, m] == Slot(k, ByteAt(m))
        invariant forall j, m | k < j < 8 && 0 <= m < 256 :: t[j, m] == Slot(j, ByteAt(m))
      {
        t[k, n] := SwapBytes(t[k, n]);
      }
    }
  }

  // ------------------------------------------------------------------ the engines

  /** The entry a table holds for byte `b` in row `k`. */
  function Entry(t: array2<Word>, k: nat, b: bv8): Word
    requires t.Length0 == 8 && t.Length1 == 256 && k < 8
    reads t
  {
    t[k, IndexOf(b)]
  }

  lemma {:induction false} EntryIs(t: array2<Word>, form: Word -> Word, k: nat, b: bv8)
    requires IsTable(t, form) && k < 8
    ensures Entry(t, k, b) == form(Slot(k, b))
  {
    hide Slot, ByteAt, IndexOf;
    IndexAndBack(b);
  }

  /** `a ^ b ^ c ^ ...` as C groups it. */
  function Xor8(a: Word, b: Word, c: Word, d: Word, e: Word, f: Word, g: Word, h: Word): Word {
    Xor(Xor(Xor(Xor(Xor(Xor(Xor(a, b), c), d), e), f), g), h)
  }

  lemma {:induction false} Xor8Regroups(a: Word, b: Word, c: Word, d: Word, e: Word, f: Word, g: Word, h: Word)
    ensures Xor8(a, b, c, d, e, f, g, h) == Xor(a, Xor(b, Xor(c, Xor(d, Xor(e, Xor(f, Xor(g, h)))))))
  {
    hide Xor;
    var ab := Xor(a, b);
    var cd := Xor(c, d);
    var abc := Xor(ab, c);
    var abcd := Xor(abc, d);
    var abcde := Xor(abcd, e);
    var abcdef := Xor(abcde, f);
    XorAssociates(abcdef, g, h);
    XorAssociates(abcde, f, Xor(g, h));
    XorAssociates(abcd, e, Xor(f, Xor(g, h)));
    XorAssociates(abc, d, Xor(e, Xor(f, Xor(g, h))));
    XorAssociates(ab, c, Xor(d, Xor(e, Xor(f, Xor(g, h)))));
    XorAssociates(a, b, Xor(c, Xor(d, Xor(e, Xor(f, Xor(g, h))))));
  }

  lemma {:induction false} Xor8Mirrors(a: Word, b: Word, c: Word, d: Word, e: Word, f: Word, g: Word, h: Word)
    ensures Xor8(h, g, f, e, d, c, b, a) == Xor(a, Xor(b, Xor(c, Xor(d, Xor(e, Xor(f, Xor(g, h)))))))
  {
    hide Xor;
    XorCommutes(h, g);
    XorCommutes(Xor(h, g), f);
    XorCommutes(Xor(Xor(h, g), f), e);
    XorCommutes(Xor(Xor(Xor(h, g), f), e), d);
    XorCommutes(Xor(Xor(Xor(Xor(h, g), f), e), d), c);
    XorCommutes(Xor(Xor(Xor(Xor(Xor(h, g), f), e), d), c), b);
    XorCommutes(Xor(Xor(Xor(Xor(Xor(Xor(h, g), f), e), d), c), b), a);
  }

  /** A word of input, through the tables or byte by byte. */
  lemma {:induction false} WordStep(r: Word, data: seq<bv8>, i: nat)
    requires i + 8 <= |data|
    ensures Gather(Xor(Digest(r, data[..i]), LoadLittle(data[i..i + 8]))) == Digest(r, data[..i + 8])
  {
    hide Gather, Digest, Xor, LoadLittle, Advances;
    var front, word := data[..i], data[i..i + 8];
    assert data[..i + 8] == front + word;
    DigestConcat(r, front, word);
    DigestTogether(Digest(r, front), word);
    GatherIsEightSteps(Xor(Digest(r, front), LoadLittle(word)));
  }

  lemma {:induction false} OneByte(r: Word, data: seq<bv8>, i: nat)
    requires i < |data|
    ensures Digest(r, data[..i + 1]) == Advance(Xor(Digest(r, data[..i]), Widen(data[i])))
  {
    hide Advance, Xor, Widen;
    assert data[..i + 1][..i] == data[..i];
  }

  /** `crcspeed64little` on a buffer that starts at `address`. */
  method CrcLittle(t: array2<Word>, crc0: Word, data: seq<bv8>, address: nat) returns (crc: Word)
    requires IsTable(t, Same)
    ensures crc == Digest(crc0, data)
  {
    hide Advance, Xor, Widen, LowByte, Shr8, Slot, LoadLittle, Entry, ByteOf, Digest;
    crc := crc0;
    var next, len := 0, |data|;
    EmptyDigest(crc0, data);
    while len != 0 && (address + next) % 8 != 0
      invariant 0 <= len && 0 <= next && next + len == |data| && crc == Digest(crc0, data[..next])
    {
      crc := LittleByte(t, crc, data[next]);
      OneByte(crc0, data, next);
      next, len := next + 1, len - 1;
    }
    while len >= 8
      invariant 0 <= len && 0 <= next && next + len == |data| && crc == Digest(crc0, data[..next])
    {
      WordStep(crc0, data, next);
      crc := Xor(crc, LoadLittle(data[next..next + 8]));
      crc := LittleWord(t, crc);
      next, len := next + 8, len - 8;
    }
    while len != 0
      invariant 0 <= len && 0 <= next && next + len == |data| && crc == Digest(crc0, data[..next])
    {
      crc := LittleByte(t, crc, data[next]);
      OneByte(crc0, data, next);
      next, len := next + 1, len - 1;
    }
    assert data[..|data|] == data;
  }

  lemma {:induction false} EmptyDigest(r: Word, data: seq<bv8>)
    ensures Digest(r, data[..0]) == r
  {
  }

  method LittleByte(t: array2<Word>, crc: Word, b: bv8) returns (r: Word)
    requires IsTable(t, Same)
    ensures r == Advance(Xor(crc, Widen(b)))
  {
    hide Advance, Xor, Widen, LowByte, Shr8, Slot, Entry;
    EntryIs(t, Same, 0, LowByte(Xor(crc, Widen(b))));
    ByteStep(crc, b);
    r := Xor(Entry(t, 0, LowByte(Xor(crc, Widen(b)))), Shr8(crc));
  }

  method LittleWord(t: array2<Word>, crc: Word) returns (r: Word)
    requires IsTable(t, Same)
    ensures r == Gather(crc)
  {
    hide Xor, Slot, Entry, ByteOf;
    forall k: nat | k < 8 ensures Entry(t, 7 - k, ByteOf(crc, k)) == Slot(7 - k, ByteOf(crc, k)) {
      EntryIs(t, Same, 7 - k, ByteOf(crc, k));
    }
    r := Xor8(Entry(t, 7, ByteOf(crc, 0)), Entry(t, 6, ByteOf(crc, 1)), Entry(t, 5, ByteOf(crc, 2)),
              Entry(t, 4, ByteOf(crc, 3)), Entry(t, 3, ByteOf(crc, 4)), Entry(t, 2, ByteOf(crc, 5)),
              Entry(t, 1, ByteOf(crc, 6)), Entry(t, 0, ByteOf(crc, 7)));
    Xor8Regroups(Slot(7, ByteOf(crc, 0)), Slot(6, ByteOf(crc, 1)), Slot(5, ByteOf(crc, 2)), Slot(4, ByteOf(crc, 3)),
                 Slot(3, ByteOf(crc, 4)), Slot(2, ByteOf(crc, 5)), Slot(1, ByteOf(crc, 6)), Slot(0, ByteOf(crc, 7)));
  }

  lemma {:induction false} SwapXorOf(a: bv64, b: bv64)
    ensures SwapBytesOf(XorOf(a, b)) == XorOf(SwapBytesOf(a), SwapBytesOf(b))
  {
  }

  lemma {:induction false} SwapXor(a: Word, b: Word)
    ensures SwapBytes(Xor(a, b)) == Xor(SwapBytes(a), SwapBytes(b))
  {
    hide XorOf, SwapBytesOf;
    SwapXorOf(a.v, b.v);
  }

  lemma {:induction false} SwapShiftBits(x: bv64)
    ensures SwapBytesOf(x) << 8 == SwapBytesOf(x >> 8)
  {
  }

  lemma {:induction false} SwapShiftOf(x: bv64)
    ensures Shl8Of(SwapBytesOf(x)) == SwapBytesOf(Shr8Of(x))
  {
    hide SwapBytesOf;
    SwapShiftBits(x);
  }

  lemma {:induction false} SwapShift(w: Word)
    ensures Shl8(SwapBytes(w)) == SwapBytes(Shr8(w))
  {
    hide SwapBytesOf, Shl8Of, Shr8Of;
    SwapShiftOf(w.v);
  }

  lemma {:induction false} SwapTwice(w: Word)
    ensures SwapBytes(SwapBytes(w)) == w
  {
  }

  lemma {:induction false} SwapTopByte(w: Word)
    ensures TopByte(SwapBytes(w)) == LowByte(w)
  {
  }

  lemma {:induction false} LowByteXor(w: Word, b: bv8)
    ensures LowByte(Xor(w, Widen(b))) == LowByte(w) ^ b
  {
  }

  lemma {:induction false} SwappedByte0(x: bv64)
    ensures ByteIn0(SwapBytesOf(x)) == ByteIn7(x)
  {
  }

  lemma {:induction false} SwappedByte1(x: bv64)
    ensures ByteIn1(SwapBytesOf(x)) == ByteIn6(x)
  {
  }

  lemma {:induction false} SwappedByte2(x: bv64)
    ensures ByteIn2(SwapBytesOf(x)) == ByteIn5(x)
  {
  }

  lemma {:induction false} SwappedByte3(x: bv64)
    ensures ByteIn3(SwapBytesOf(x)) == ByteIn4(x)
  {
  }

  lemma {:induction false} SwappedByte4(x: bv64)
    ensures ByteIn4(SwapBytesOf(x)) == ByteIn3(x)
  {
  }

  lemma {:induction false} SwappedByte5(x: bv64)
    ensures ByteIn5(SwapBytesOf(x)) == ByteIn2(x)
  {
  }

  lemma {:induction false} SwappedByte6(x: bv64)
    ensures ByteIn6(SwapBytesOf(x)) == ByteIn1(x)
  {
  }

  lemma {:induction false} SwappedByte7(x: bv64)
    ensures ByteIn7(SwapBytesOf(x)) == ByteIn0(x)
  {
  }

  lemma {:induction false} SwappedByte(w: Word, k: nat)
    requires k < 8
    ensures ByteOf(SwapBytes(w), k) == ByteOf(w, 7 - k)
  {
    hide SwapBytesOf, ByteIn0, ByteIn1, ByteIn2, ByteIn3, ByteIn4, ByteIn5, ByteIn6, ByteIn7;
    match k
    case 0 => SwappedByte0(w.v);
    case 1 => SwappedByte1(w.v);
    case 2 => SwappedByte2(w.v);
    case 3 => SwappedByte3(w.v);
    case 4 => SwappedByte4(w.v);
    case 5 => SwappedByte5(w.v);
    case 6 => SwappedByte6(w.v);
    case 7 => SwappedByte7(w.v);
  }

  function Pack(b0: bv8, b1: bv8, b2: bv8, b3: bv8, b4: bv8, b5: bv8, b6: bv8, b7: bv8): bv64 {
    (b0 as bv64) | ((b1 as bv64) << 8) | ((b2 as bv64) << 16) | ((b3 as bv64) << 24)
    | ((b4 as bv64) << 32) | ((b5 as bv64) << 40) | ((b6 as bv64) << 48) | ((b7 as bv64) << 56)
  }

  lemma {:induction false} JoinsPack(b0: bv8, b1: bv8, b2: bv8, b3: bv8, b4: bv8, b5: bv8, b6: bv8, b7: bv8)
    ensures Join(b0, Join(b1, Join(b2, Join(b3, Join(b4, Join(b5, Join(b6, Join(b7, Word(0))))))))) ==
            Word(Pack(b0, b1, b2, b3, b4, b5, b6, b7))
  {
  }

  lemma {:induction false} PackSwaps(b0: bv8, b1: bv8, b2: bv8, b3: bv8, b4: bv8, b5: bv8, b6: bv8, b7: bv8)
    ensures SwapBytesOf(Pack(b0, b1, b2, b3, b4, b5, b6, b7)) == Pack(b7, b6, b5, b4, b3, b2, b1, b0)
  {
  }

  lemma {:induction false} EightBytesSwap(b0: bv8, b1: bv8, b2: bv8, b3: bv8, b4: bv8, b5: bv8, b6: bv8, b7: bv8)
    ensures SwapBytes(Join(b0, Join(b1, Join(b2, Join(b3, Join(b4, Join(b5, Join(b6, Join(b7, Word(0)))))))))) ==
            Join(b7, Join(b6, Join(b5, Join(b4, Join(b3, Join(b2, Join(b1, Join(b0, Word(0)))))))))
  {
    hide Join, Pack, SwapBytesOf;
    JoinsPack(b0, b1, b2, b3, b4, b5, b6, b7);
    JoinsPack(b7, b6, b5, b4, b3, b2, b1, b0);
    PackSwaps(b0, b1, b2, b3, b4, b5, b6, b7);
  }

  /** A big-endian machine loads the same eight bytes the other way round. */
  lemma {:induction false} LoadsSwap(d: seq<bv8>)
    requires |d| == 8
    ensures LoadBig(d) == SwapBytes(LoadLittle(d))
  {
    hide SwapBytes, Join;
    EightBytesSwap(d[0], d[1], d[2], d[3], d[4], d[5], d[6], d[7]);
    LoadLittleFour(d);
    LoadLittleFour(d[4..]);
    LoadBigFour(d);
    LoadBigFour(d[..4]);
  }

  lemma {:induction false} LoadLittleFour(d: seq<bv8>)
    requires |d| >= 4
    ensures LoadLittle(d) == Join(d[0], Join(d[1], Join(d[2], Join(d[3], LoadLittle(d[4..])))))
  {
    hide Join;
    assert d[1..][1..] == d[2..] && d[2..][1..] == d[3..] && d[3..][1..] == d[4..];
    assert LoadLittle(d[2..]) == Join(d[2], LoadLittle(d[3..]));
  }

  lemma {:induction false} LoadBigFour(d: seq<bv8>)
    requires |d| >= 4
    ensures var n := |d|;
      LoadBig(d) == Join(d[n - 1], Join(d[n - 2], Join(d[n - 3], Join(d[n - 4], LoadBig(d[..n - 4])))))
  {
    hide Join;
    var n := |d|;
    assert d[..n - 1][..n - 2] == d[..n - 2] && d[..n - 2][..n - 3] == d[..n - 3] && d[..n - 3][..n - 4] == d[..n - 4];
    assert LoadBig(d[..n - 2]) == Join(d[n - 3], LoadBig(d[..n - 3]));
  }

  method BigByte(t: array2<Word>, crc: Word, b: bv8, ghost little: Word) returns (r: Word)
    requires IsTable(t, SwapBytes) && crc == SwapBytes(little)
    ensures r == SwapBytes(Advance(Xor(little, Widen(b))))
  {
    hide Advance, Xor, Widen, LowByte, TopByte, Shl8, Shr8, Slot, Entry, SwapBytes;
    SwapTopByte(little);
    LowByteXor(little, b);
    EntryIs(t, SwapBytes, 0, TopByte(crc) ^ b);
    SwapShift(little);
    ByteStep(little, b);
    SwapXor(Slot(0, LowByte(Xor(little, Widen(b)))), Shr8(little));
    r := Xor(Entry(t, 0, TopByte(crc) ^ b), Shl8(crc));
  }

  lemma {:induction false} Swap8(a: Word, b: Word, c: Word, d: Word, e: Word, f: Word, g: Word, h: Word)
    ensures SwapBytes(Xor8(a, b, c, d, e, f, g, h)) ==
            Xor8(SwapBytes(a), SwapBytes(b), SwapBytes(c), SwapBytes(d), SwapBytes(e), SwapBytes(f), SwapBytes(g), SwapBytes(h))
  {
    hide Xor, SwapBytes;
    SwapXor(a, b);
    SwapXor(Xor(a, b), c);
    SwapXor(Xor(Xor(a, b), c), d);
    SwapXor(Xor(Xor(Xor(a, b), c), d), e);
    SwapXor(Xor(Xor(Xor(Xor(a, b), c), d), e), f);
    SwapXor(Xor(Xor(Xor(Xor(Xor(a, b), c), d), e), f), g);
    SwapXor(Xor(Xor(Xor(Xor(Xor(Xor(a, b), c), d), e), f), g), h);
  }

  method BigWord(t: array2<Word>, crc: Word, ghost little: Word) returns (r: Word)
    requires IsTable(t, SwapBytes) && crc == SwapBytes(little)
    ensures r == SwapBytes(Gather(little))
  {
    hide Xor, Slot, Entry, ByteOf, SwapBytes, Xor8;
    forall k: nat | k < 8 ensures Entry(t, k, ByteOf(crc, k)) == SwapBytes(Slot(k, ByteOf(little, 7 - k))) {
      SwappedByte(little, k);
      EntryIs(t, SwapBytes, k, ByteOf(crc, k));
    }
    r := Xor8(Entry(t, 0, ByteOf(crc, 0)), Entry(t, 1, ByteOf(crc, 1)), Entry(t, 2, ByteOf(crc, 2)),
              Entry(t, 3, ByteOf(crc, 3)), Entry(t, 4, ByteOf(crc, 4)), Entry(t, 5, ByteOf(crc, 5)),
              Entry(t, 6, ByteOf(crc, 6)), Entry(t, 7, ByteOf(crc, 7)));
    Swap8(Slot(0, ByteOf(little, 7)), Slot(1, ByteOf(little, 6)), Slot(2, ByteOf(little, 5)), Slot(3, ByteOf(little, 4)),
          Slot(4, ByteOf(little, 3)), Slot(5, ByteOf(little, 2)), Slot(6, ByteOf(little, 1)), Slot(7, ByteOf(little, 0)));
    Xor8Mirrors(Slot(7, ByteOf(little, 0)), Slot(6, ByteOf(little, 1)), Slot(5, ByteOf(little, 2)), Slot(4, ByteOf(little, 3)),
                Slot(3, ByteOf(little, 4)), Slot(2, ByteOf(little, 5)), Slot(1, ByteOf(little, 6)), Slot(0, ByteOf(little, 7)));
  }

  /** `crcspeed64big` on a buffer that starts at `address`. */
  method CrcBig(t: array2<Word>, crc0: Word, data: seq<bv8>, address: nat) returns (r: Word)
    requires IsTable(t, SwapBytes)
    ensures r == Digest(crc0, data)
  {
    hide Advance, Xor, Widen, LoadLittle, LoadBig, Digest, SwapBytes, Gather;
    var crc := SwapBytes(crc0);
    var next, len := 0, |data|;
    EmptyDigest(crc0, data);
    while len != 0 && (address + next) % 8 != 0
      invariant 0 <= len && 0 <= next && next + len == |data| && crc == SwapBytes(Digest(crc0, data[..next]))
    {
      crc := BigByte(t, crc, data[next], Digest(crc0, data[..next]));
      OneByte(crc0, data, next);
      next, len := next + 1, len - 1;
    }
    while len >= 8
      invariant 0 <= len && 0 <= next && next + len == |data| && crc == SwapBytes(Digest(crc0, data[..next]))
    {
      ghost var little := Digest(crc0, data[..next]);
      var word := data[next..next + 8];
      WordStep(crc0, data, next);
      LoadsSwap(word);
      SwapXor(little, LoadLittle(word));
      crc := Xor(crc, LoadBig(word));
      crc := BigWord(t, crc, Xor(little, LoadLittle(word)));
      next, len := next + 8, len - 8;
    }
    while len != 0
      invariant 0 <= len && 0 <= next && next + len == |data| && crc == SwapBytes(Digest(crc0, data[..next]))
    {
      crc := BigByte(t, crc, data[next], Digest(crc0, data[..next]));
      OneByte(crc0, data, next);
      next, len := next + 1, len - 1;
    }
    assert data[..|data|] == data;
    SwapTwice(Digest(crc0, data));
    r := SwapBytes(crc);
  }

  // ------------------------------------------------------------------ the public entry points

  /** `crc64_init`. */
  method CrcInit(t: array2<Word>, bigEndian: bool)
    requires t.Length0 == 8 && t.Length1 == 256
    modifies t
    ensures IsTable(t, if bigEndian then SwapBytes else Same)
  {
    if bigEndian { BigInit(t); } else { LittleInit(t); }
  }

  /** `crc64`: on either machine and at any alignment, the mirrored register of the reference. */
  method Crc64(t: array2<Word>, bigEndian: bool, c: Word, data: seq<bv8>, address: nat) returns (r: Word)
    requires IsTable(t, if bigEndian then SwapBytes else Same)
    ensures r == Digest(c, data)
    ensures r == Mirror(Register(Mirror(c), data))
  {
    hide Digest, Mirror, Register;
    if bigEndian {
      r := CrcBig(t, c, data, address);
    } else {
      r := CrcLittle(t, c, data, address);
    }
    MirrorTwice(c);
    DigestIsReference(Mirror(c), data);
  }

  // ------------------------------------------------------------------ the check value

  lemma FirstThree()
    ensures BitSteps(Word(0x0000000000000000), 0x31, 8) == Word(0x5f9cef95218e83bf)
    ensures BitSteps(Word(0x5f9cef95218e83bf), 0x32, 8) == Word(0x69b7195c8a26c087)
    ensures BitSteps(Word(0x69b7195c8a26c087), 0x33, 8) == Word(0x358d9e2281df3dab)
  {
  }

  lemma NextThree()
    ensures BitSteps(Word(0x358d9e2281df3dab), 0x34, 8) == Word(0x0f84a5b3ba3c9ac2)
    ensures BitSteps(Word(0x0f84a5b3ba3c9ac2), 0x35, 8) == Word(0xb07e39c4c8a1ae0f)
    ensures BitSteps(Word(0xb07e39c4c8a1ae0f), 0x36, 8) == Word(0xc092d54da49095c5)
  {
  }

  lemma LastThree()
    ensures BitSteps(Word(0xc092d54da49095c5), 0x37, 8) == Word(0xa2b58c246cb241e2)
    ensures BitSteps(Word(0xa2b58c246cb241e2), 0x38, 8) == Word(0x43b617a8cd043792)
    ensures BitSteps(Word(0x43b617a8cd043792), 0x39, 8) == Word(0x539b1d23289b6397)
  {
  }

  lemma RegisterOneMore(crc: Word, data: seq<bv8>, b: bv8)
    ensures Register(crc, data + [b]) == BitSteps(Register(crc, data), b, 8)
  {
    hide BitSteps;
    assert (data + [b])[..|data|] == data;
  }

  /** The polynomial is the one of the source: the bytes of "123456789" give the check value it names. */
  lemma CheckValue()
    ensures Mirror(Register(Mirror(Word(0)), [0x31, 0x32, 0x33, 0x34, 0x35, 0x36, 0x37, 0x38, 0x39])) == Word(0xe9c6d914c4b8d9ca)
  {
    hide BitSteps, Register;
    assert Mirror(Word(0)) == Word(0) && Mirror(Word(0x539b1d23289b6397)) == Word(0xe9c6d914c4b8d9ca);
    hide Mirror;
    FirstThree();
    NextThree();
    LastThree();
    RegisterNothing(Word(0));
    var d: seq<bv8> := [];
    RegisterOneMore(Word(0), d, 0x31);
    d := d + [0x31];
    RegisterOneMore(Word(0), d, 0x32);
    d := d + [0x32];
    RegisterOneMore(Word(0), d, 0x33);
    d := d + [0x33];
    RegisterOneMore(Word(0), d, 0x34);
    d := d + [0x34];
    RegisterOneMore(Word(0), d, 0x35);
    d := d + [0x35];
    RegisterOneMore(Word(0), d, 0x36);
    d := d + [0x36];
    RegisterOneMore(Word(0), d, 0x37);
    d := d + [0x37];
    RegisterOneMore(Word(0), d, 0x38);
    d := d + [0x38];
    RegisterOneMore(Word(0), d, 0x39);
    d := d + [0x39];
    assert d == [0x31, 0x32, 0x33, 0x34, 0x35, 0x36, 0x37, 0x38, 0x39];
  }

  lemma RegisterNothing(crc: Word)
    ensures Register(crc, []) == crc
  {
  }
}
