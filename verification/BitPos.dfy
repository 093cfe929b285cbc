/** Finding bits (bitops.c): the word-at-a-time search and the BITPOS command. */
module BitPos {
  import opened BitString
  import opened BitCount

  // ------------------------------------------------------------------ the last word

  function Shl8(w: bv64): bv64 { w << 8 }
  function Shr1(w: bv64): bv64 { w >> 1 }
  function Or8(w: bv64, b: bv8): bv64 { w | (b as bv64) }
  predicate Test(one: bv64, w: bv64) { one & w != 0 }

  /** Bytes loaded with the first as the most significant. */
  function WordOf(bytes: Str): bv64 {
    if |bytes| == 0 then 0 else Or8(Shl8(WordOf(bytes[..|bytes| - 1])), bytes[|bytes| - 1])
  }

  lemma WordStep(s: Str, n: nat)
    requires 0 < n <= |s|
    ensures WordOf(s[..n]) == Or8(Shl8(WordOf(s[..n - 1])), s[n - 1])
  {
    hide Shl8, Or8;
    assert s[..n][..n - 1] == s[..n - 1];
  }

  /** The top bit moved down `j` places. */
  function OneAt(j: nat): bv64 { if j == 0 then 0x8000000000000000 else Shr1(OneAt(j - 1)) }

  function TopMask(j: nat): bv64
    requires j < 8
  {
    match j
    case 0 => 0x8000000000000000
    case 1 => 0x4000000000000000
    case 2 => 0x2000000000000000
    case 3 => 0x1000000000000000
    case 4 => 0x0800000000000000
    case 5 => 0x0400000000000000
    case 6 => 0x0200000000000000
    case 7 => 0x0100000000000000
  }

  lemma {:induction false} TopOnes(j: nat)
    requires j < 8
    ensures OneAt(j) == TopMask(j)
  {
    if j > 0 { TopOnes(j - 1); }
  }

  function Shr8(w: bv64): bv64 { w >> 8 }

  lemma EightShifts(x: bv64)
    ensures Shr1(Shr1(Shr1(Shr1(Shr1(Shr1(Shr1(Shr1(x)))))))) == Shr8(x)
  {
  }

  lemma OneEightOn(j: nat)
    ensures OneAt(j + 8) == Shr8(OneAt(j))
  {
    hide Shr1, Shr8;
    assert OneAt(j + 8) == Shr1(OneAt(j + 7));
    assert OneAt(j + 7) == Shr1(OneAt(j + 6));
    assert OneAt(j + 6) == Shr1(OneAt(j + 5));
    assert OneAt(j + 5) == Shr1(OneAt(j + 4));
    assert OneAt(j + 4) == Shr1(OneAt(j + 3));
    assert OneAt(j + 3) == Shr1(OneAt(j + 2));
    assert OneAt(j + 2) == Shr1(OneAt(j + 1));
    assert OneAt(j + 1) == Shr1(OneAt(j));
    EightShifts(OneAt(j));
  }

  function Block(q: nat, x: bv64): bv64 { if q == 0 then x else Shr8(Block(q - 1, x)) }

  lemma {:induction false} OneInBlock(q: nat, r: nat)
    requires r < 8
    ensures OneAt(8 * q + r) == Block(q, TopMask(r))
  {
    hide OneAt, TopMask, Shr8;
    if q == 0 { TopOnes(r); } else { OneInBlock(q - 1, r); OneEightOn(8 * (q - 1) + r); }
  }

  predicate LowByteClear(x: bv64) { x & 0xFF == 0 }
  predicate TopByteOnly(x: bv64) { x & 0x00FFFFFFFFFFFFFF == 0 }

  function LowMask(r: nat): bv64
    requires r < 8
  {
    Mask(r) as bv64
  }

  function ShiftedBy(q: nat, x: bv64): bv64
    requires q < 8
  {
    match q
    case 0 => x
    case 1 => x >> 8
    case 2 => x >> 16
    case 3 => x >> 24
    case 4 => x >> 32
    case 5 => x >> 40
    case 6 => x >> 48
    case 7 => x >> 56
  }

  lemma ShiftStep(q: nat, x: bv64)
    requires 0 < q < 8
    ensures Shr8(ShiftedBy(q - 1, x)) == ShiftedBy(q, x)
  {
    match q {
      case 1 =>
      case 2 => assert (x >> 8) >> 8 == x >> 16;
      case 3 => assert (x >> 16) >> 8 == x >> 24;
      case 4 => assert (x >> 24) >> 8 == x >> 32;
      case 5 => assert (x >> 32) >> 8 == x >> 40;
      case 6 => assert (x >> 40) >> 8 == x >> 48;
      case 7 => assert (x >> 48) >> 8 == x >> 56;
    }
  }

  lemma {:induction false} BlockShifts(q: nat, x: bv64)
    requires q < 8
    ensures Block(q, x) == ShiftedBy(q, x)
  {
    if q > 0 {
      hide Shr8, ShiftedBy;
      BlockShifts(q - 1, x);
      ShiftStep(q, x);
    }
  }

  lemma ShiftedClear(q: nat, x: bv64)
    requires q < 7 && TopByteOnly(x)
    ensures LowByteClear(ShiftedBy(q, x))
  {
  }

  lemma TopMaskOnly(r: nat)
    requires r < 8
    ensures TopByteOnly(TopMask(r)) && ShiftedBy(7, TopMask(r)) == LowMask(r)
  {
  }

  lemma OneIsClear(j: nat)
    requires j < 56
    ensures LowByteClear(OneAt(j))
  {
    hide OneAt, TopMask, ShiftedBy, Block;
    OneInBlock(j / 8, j % 8);
    BlockShifts(j / 8, TopMask(j % 8));
    TopMaskOnly(j % 8);
    ShiftedClear(j / 8, TopMask(j % 8));
  }

  lemma OneInLow(r: nat)
    requires r < 8
    ensures OneAt(56 + r) == LowMask(r)
  {
    hide OneAt, TopMask, ShiftedBy, Block;
    OneInBlock(7, r);
    BlockShifts(7, TopMask(r));
    TopMaskOnly(r);
  }

  lemma LowTest(w: bv64, b: bv8, r: nat)
    requires r < 8
    ensures Test(LowMask(r), Or8(Shl8(w), b)) <==> Bit8(b, r)
  {
  }

  lemma HighTest(one: bv64, w: bv64, b: bv8)
    requires LowByteClear(one)
    ensures Test(one, Or8(Shl8(w), b)) <==> Test(Shr8(one), w)
  {
  }

  /** The bits of a word loaded from `n` bytes are the bits of the bytes, at its low end. */
  lemma {:induction false} WordTest(s: Str, j: nat)
    requires |s| <= 8 && 64 - 8 * |s| <= j < 64
    ensures Test(OneAt(j), WordOf(s)) <==> Bit(s, j - (64 - 8 * |s|))
    decreases |s|
  {
    hide Test, OneAt, Bit8, Shl8, Or8, Shr8, LowMask;
    var n := |s|;
    var front, b := s[..n - 1], s[n - 1];
    var i := j - (64 - 8 * n);
    if j >= 56 {
      OneInLow(j - 56);
      LowTest(WordOf(front), b, j - 56);
      assert i / 8 == n - 1 && i % 8 == j - 56;
    } else {
      OneIsClear(j);
      HighTest(OneAt(j), WordOf(front), b);
      OneEightOn(j);
      WordTest(front, j + 8);
      assert i / 8 < n - 1;
    }
  }

  // ------------------------------------------------------------------ redisBitpos

  /** `pos` is the first bit with the value; without one it is -1 for a set bit, and one past the end for a clear bit. */
  ghost predicate IsFirst(s: Str, bit: bool, pos: int) {
    && -1 <= pos <= 8 * |s|
    && (forall i | 0 <= i < 8 * |s| && (pos == -1 || i < pos) :: Bit(s, i) != bit)
    && (pos == -1 ==> bit)
    && (0 <= pos < 8 * |s| ==> Bit(s, pos) == bit)
    && (pos == 8 * |s| ==> !bit)
  }

  function SkipByte(bit: bool): bv8 { if bit then 0 else 0xFF }

  lemma SkippedByte(bit: bool, k: nat)
    requires k < 8
    ensures Bit8(SkipByte(bit), k) != bit
  {
  }

  /** No byte before `n` has the bit. */
  ghost predicate Skipped(s: Str, bit: bool, n: nat)
    requires n <= |s|
  {
    forall i | 0 <= i < n :: s[i] == SkipByte(bit)
  }

  lemma SkippedBits(s: Str, bit: bool, n: nat, i: nat)
    requires n <= |s| && Skipped(s, bit, n) && i < 8 * n
    ensures Bit(s, i) != bit
  {
    hide Bit8, SkipByte;
    SkippedByte(bit, i % 8);
    assert s[i / 8] == SkipByte(bit);
  }

  /** The bytes at `p`, padded with zeros to a word. */
  function Padded(s: Str, p: nat): Str
    requires p <= |s|
  {
    seq(8, i requires 0 <= i < 8 => if p + i < |s| then s[p + i] else 0)
  }

  lemma PaddedBits(s: Str, p: nat, j: nat)
    requires p <= |s| && j < 64
    ensures Bit(Padded(s, p), j) <==> Bit(s, 8 * p + j)
  {
    hide Bit8;
    assert (8 * p + j) / 8 == p + j / 8 && (8 * p + j) % 8 == j % 8;
    ZeroBits(j % 8);
  }

  lemma ZeroBits(k: nat)
    requires k < 8
    ensures !Bit8(0, k)
  {
  }

  lemma OrZero(w: bv64)
    ensures Or8(w, 0) == w
  {
  }

  lemma {:induction false} ZeroWord(j: nat)
    ensures !Test(OneAt(j), 0)
  {
    hide OneAt;
  }

  lemma OneNotZero(j: nat)
    requires j < 64
    ensures OneAt(j) != 0
  {
    hide OneAt, TopMask, ShiftedBy, Block;
    OneInBlock(j / 8, j % 8);
    BlockShifts(j / 8, TopMask(j % 8));
    MaskNotZero(j / 8, j % 8);
  }

  lemma MaskNotZero(q: nat, r: nat)
    requires q < 8 && r < 8
    ensures ShiftedBy(q, TopMask(r)) != 0
  {
  }

  /** The loading loop: the first byte becomes the most significant. */
  method LoadWord(s: Str, p: nat) returns (word: bv64)
    requires p <= |s|
    ensures word == WordOf(Padded(s, p))
  {
    hide Shl8, Or8;
    var c, count := p, |s| - p;
    word := 0;
    ghost var bytes := Padded(s, p);
    for j := 0 to 8
      invariant p <= c <= |s| && count == |s| - c && (c == p + j || (c == |s| && p + j >= |s|))
      invariant word == WordOf(bytes[..j])
    {
      word := Shl8(word);
      WordStep(bytes, j + 1);
      if count > 0 {
        word := Or8(word, s[c]);
        c, count := c + 1, count - 1;
      } else {
        OrZero(word);
      }
    }
    assert bytes[..8] == bytes;
  }

  /** The scanning loop. It stops at the bit and never runs out of `one`, so the panic behind it is unreachable. */
  method ScanWord(word: bv64, ghost bytes: Str, bit: bool) returns (j: nat)
    requires |bytes| == 8 && word == WordOf(bytes)
    requires exists k | 0 <= k < 64 :: Bit(bytes, k) == bit
    ensures j < 64 && Bit(bytes, j) == bit && forall i | 0 <= i < j :: Bit(bytes, i) != bit
  {
    hide Test, OneAt, WordOf, Bit, Shr1;
    var one: bv64 := OneAt(0);
    j := 0;
    ghost var k :| 0 <= k < 64 && Bit(bytes, k) == bit;
    WordTest(bytes, 0);
    OneNotZero(0);
    while one != 0 && Test(one, word) != bit
      invariant 0 <= j <= k && one == OneAt(j) && one != 0
      invariant Test(one, word) == Bit(bytes, j)
      invariant forall i | 0 <= i < j :: Bit(bytes, i) != bit
      decreases k - j
    {
      OneNext(j);
      one := Shr1(one);
      j := j + 1;
      WordTest(bytes, j);
      OneNotZero(j);
    }
  }

  lemma OneNext(j: nat)
    ensures Shr1(OneAt(j)) == OneAt(j + 1)
  {
    hide Shr1;
  }

  lemma ByteHasBit(b: bv8, bit: bool)
    requires b != SkipByte(bit)
    ensures exists k | 0 <= k < 8 :: Bit8(b, k) == bit
  {
    if bit {
      assert Bit8(b, 0) || Bit8(b, 1) || Bit8(b, 2) || Bit8(b, 3) || Bit8(b, 4) || Bit8(b, 5) || Bit8(b, 6) || Bit8(b, 7);
    } else {
      assert !Bit8(b, 0) || !Bit8(b, 1) || !Bit8(b, 2) || !Bit8(b, 3) || !Bit8(b, 4) || !Bit8(b, 5) || !Bit8(b, 6) || !Bit8(b, 7);
    }
  }

  lemma BytesHaveBit(s: Str, i: nat, bit: bool)
    requires i < |s| && s[i] != SkipByte(bit)
    ensures exists k | 8 * i <= k < 8 * i + 8 :: Bit(s, k) == bit
  {
    hide Bit8;
    ByteHasBit(s[i], bit);
    var k :| 0 <= k < 8 && Bit8(s[i], k) == bit;
    assert (8 * i + k) / 8 == i && (8 * i + k) % 8 == k;
    assert Bit(s, 8 * i + k) == bit;
  }

  lemma ZeroStep()
    ensures Or8(Shl8(0), 0) == 0
  {
  }

  lemma {:induction false} ZeroWordOf(s: Str)
    requires forall i | 0 <= i < |s| :: s[i] == 0
    ensures WordOf(s) == 0
  {
    if |s| > 0 {
      hide Or8, Shl8;
      ZeroWordOf(s[..|s| - 1]);
      ZeroStep();
    }
  }

  lemma WordHasBit(bytes: Str)
    requires |bytes| == 8 && WordOf(bytes) != 0
    ensures exists k | 0 <= k < 64 :: Bit(bytes, k)
  {
    hide WordOf, Bit;
    if i :| 0 <= i < 8 && bytes[i] != SkipByte(true) {
      BytesHaveBit(bytes, i, true);
    } else {
      ZeroWordOf(bytes);
    }
  }

  /** Where the search stands: every byte before `p` is skipped, and the word at `p` has the bit or is the last one. */
  lemma WordDecides(s: Str, bit: bool, p: nat)
    requires p <= |s| && (|s| - p < 8 || exists i | p <= i < p + 8 :: s[i] != SkipByte(bit))
    ensures var bytes := Padded(s, p);
      (bit && WordOf(bytes) == 0) || exists k | 0 <= k < 64 :: Bit(bytes, k) == bit
  {
    hide WordOf, Bit8, SkipByte;
    var bytes := Padded(s, p);
    if bit {
      if WordOf(bytes) != 0 { WordHasBit(bytes); }
    } else if i :| p <= i < |s| && i < p + 8 && s[i] != SkipByte(bit) {
      BytesHaveBit(bytes, i - p, bit);
      var k :| 8 * (i - p) <= k < 8 * (i - p) + 8 && Bit(bytes, k) == bit;
    } else {
      var j := |s| - p;
      ZeroBits(0);
      assert bytes[j] == 0;
      assert (8 * j) / 8 == j && (8 * j) % 8 == 0;
      assert !Bit(bytes, 8 * j);
    }
  }

  /** A zero word holds no set bit. */
  lemma NothingSet(s: Str, p: nat, i: nat)
    requires p <= |s| && WordOf(Padded(s, p)) == 0 && 8 * p <= i < 8 * p + 64
    ensures !Bit(s, i)
  {
    hide WordOf, Test, OneAt, Bit;
    WordTest(Padded(s, p), i - 8 * p);
    ZeroWord(i - 8 * p);
    PaddedBits(s, p, i - 8 * p);
  }

  lemma PastEnd(s: Str, i: nat)
    requires i >= 8 * |s|
    ensures !Bit(s, i)
  {
  }

  lemma NothingLeft(s: Str, p: nat)
    requires p <= |s| && WordOf(Padded(s, p)) == 0
    requires |s| - p < 8 || exists i | p <= i < p + 8 :: s[i] != SkipByte(true)
    ensures forall i | 8 * p <= i < 8 * |s| :: !Bit(s, i)
  {
    hide WordOf, Bit, SkipByte;
    forall i | 8 * p <= i < 8 * p + 64 ensures !Bit(s, i) { NothingSet(s, p, i); }
    if |s| - p >= 8 {
      var i :| p <= i < p + 8 && s[i] != SkipByte(true);
      BytesHaveBit(s, i, true);
      assert false;
    }
  }

  lemma Lands(s: Str, bit: bool, p: nat, j: nat)
    requires p <= |s| && j < 64 && (forall i | 0 <= i < 8 * p :: Bit(s, i) != bit)
    requires var bytes := Padded(s, p); Bit(bytes, j) == bit && forall i | 0 <= i < j :: Bit(bytes, i) != bit
    ensures IsFirst(s, bit, 8 * p + j)
  {
    hide Bit, Padded;
    forall i | 8 * p <= i < 8 * p + j ensures Bit(s, i) != bit { PaddedBits(s, p, i - 8 * p); }
    PaddedBits(s, p, j);
    var end := 8 * |s| - 8 * p;
    PastEnd(s, 8 * |s|);
    if bit && j >= end { PastEnd(s, 8 * p + j); }
  }

  /** `redisBitpos` on the bytes `s` at address `addr`. */
  method RedisBitpos(s: Str, addr: nat, bit: bool) returns (pos: int)
    ensures IsFirst(s, bit, pos)
  {
    hide WordOf, Bit, SkipByte;
    var skip := SkipByte(bit);
    var p, found := 0, false;
    while (addr + p) % 8 != 0 && p < |s|
      invariant 0 <= p <= |s| && !found && Skipped(s, bit, p)
      decreases |s| - p
    {
      if s[p] != skip {
        found := true;
        break;
      }
      p := p + 1;
    }
    if !found {
      var word := [skip, skip, skip, skip, skip, skip, skip, skip];
      while |s| - p >= 8
        invariant 0 <= p <= |s| && Skipped(s, bit, p)
      {
        if s[p..p + 8] != word { break; }
        assert forall i | p <= i < p + 8 :: s[i] == word[i - p];
        p := p + 8;
      }
    }
    assert |s| - p >= 8 ==> exists i | p <= i < p + 8 :: s[i] != SkipByte(bit) by {
      if |s| - p >= 8 && !found { NotAll(s[p..p + 8], skip); }
    }
    WordDecides(s, bit, p);
    forall i | 0 <= i < 8 * p ensures Bit(s, i) != bit { SkippedBits(s, bit, p, i); }
    var word := LoadWord(s, p);
    if bit && word == 0 {
      NothingLeft(s, p);
      return -1;
    }
    var j := ScanWord(word, Padded(s, p), bit);
    Lands(s, bit, p, j);
    return 8 * p + j;
  }

  lemma NotAll(t: Str, skip: bv8)
    requires |t| == 8 && t != [skip, skip, skip, skip, skip, skip, skip, skip]
    ensures exists i | 0 <= i < 8 :: t[i] != skip
  {
    assert t[0] != skip || t[1] != skip || t[2] != skip || t[3] != skip || t[4] != skip || t[5] != skip || t[6] != skip || t[7] != skip;
  }

  // ------------------------------------------------------------------ BITPOS

  /** The arguments after the bit: none, a start, or a range in bytes or in bits. */
  datatype Search = Everywhere | From(start: int) | Between(start: int, end: int, isBit: bool)

  /** The first and last bit of the range; it is empty when the first is past the last. */
  function BitBounds(s: Str, search: Search): (int, int) {
    match search
    case Everywhere => (0, 8 * |s| - 1)
    case From(start) => var (lo, hi) := Normalized(|s|, start, |s| - 1); (8 * lo, 8 * hi + 7)
    case Between(start, end, true) => Normalized(8 * |s|, start, end)
    case Between(start, end, false) => var (lo, hi) := Normalized(|s|, start, end); (8 * lo, 8 * hi + 7)
  }

  /**
   The least index in the range that holds the bit. Without one the answer is -1, except that a search for a clear bit
   with no end given finds the first index past the string.
   */
  ghost predicate Answers(s: Str, bit: bool, lo: int, hi: int, endGiven: bool, reply: int) {
    if lo > hi then reply == -1
    else if exists i | 0 <= i && lo <= i <= hi :: Bit(s, i) == bit then
      lo <= reply <= hi && 0 <= reply && Bit(s, reply) == bit && forall i | 0 <= i && lo <= i < reply :: Bit(s, i) != bit
    else reply == if bit || endGiven then -1 else hi + 1
  }

  /** The answer to BITPOS for these arguments. */
  ghost predicate Replies(s: Str, bit: bool, search: Search, reply: int) {
    var (lo, hi) := BitBounds(s, search);
    Answers(s, bit, lo, hi, search.Between?, reply)
  }

  /**
   The answer, bit by bit: the first bit of the range that is as asked for, and without one -1, or the end of the string
   for a clear bit if no end is given and the range is not empty.
   */
  lemma SearchMeans(s: Str, bit: bool, search: Search, reply: int)
    requires Replies(s, bit, search, reply)
    ensures
      var range := set i: nat | i < 8 * |s| && (!search.Everywhere? ==>
                             var isBit := search.Between? && search.isBit;
                             var u, tot := if isBit then i else i / 8, if isBit then 8 * |s| else |s|;
                             && search.start <= u && (search.start < 0 ==> tot + search.start <= u)
                             && (search.Between? ==> u <= search.end || (search.end < 0 && (u <= tot + search.end || u == 0))));
      if exists i | i in range :: Bit(s, i) == bit then
        0 <= reply && reply in range && Bit(s, reply) == bit && forall i | i in range && i < reply :: Bit(s, i) != bit
      else reply == if bit || search.Between? || range == {} then -1 else 8 * |s|
  {
    hide Bit, Answers;
    var range := set i: nat | i < 8 * |s| && (!search.Everywhere? ==>
                             var isBit := search.Between? && search.isBit;
                             var u, tot := if isBit then i else i / 8, if isBit then 8 * |s| else |s|;
                             && search.start <= u && (search.start < 0 ==> tot + search.start <= u)
                             && (search.Between? ==> u <= search.end || (search.end < 0 && (u <= tot + search.end || u == 0))));
    var (lo, hi) := BitBounds(s, search);
    assert forall i: nat :: i in range <==> lo <= i <= hi by { RangeIs(s, search); }
    AnswerIn(s, bit, lo, hi, search.Between?, reply, range);
  }

  lemma RangeIs(s: Str, search: Search)
    ensures var (lo, hi) := BitBounds(s, search);
      var range := set i: nat | i < 8 * |s| && (!search.Everywhere? ==>
                             var isBit := search.Between? && search.isBit;
                             var u, tot := if isBit then i else i / 8, if isBit then 8 * |s| else |s|;
                             && search.start <= u && (search.start < 0 ==> tot + search.start <= u)
                             && (search.Between? ==> u <= search.end || (search.end < 0 && (u <= tot + search.end || u == 0))));
      forall i: nat :: i in range <==> lo <= i <= hi
  {
  }

  lemma AnswerIn(s: Str, bit: bool, lo: int, hi: int, endGiven: bool, reply: int, range: set<nat>)
    requires Answers(s, bit, lo, hi, endGiven, reply) && (forall i: nat :: i in range <==> lo <= i <= hi) && (0 <= lo && (endGiven || hi == 8 * |s| - 1))
    ensures
      if exists i | i in range :: Bit(s, i) == bit then
        0 <= reply && reply in range && Bit(s, reply) == bit && forall i | i in range && i < reply :: Bit(s, i) != bit
      else reply == if bit || endGiven || range == {} then -1 else 8 * |s|
  {
    hide Bit;
    if lo <= hi { assert lo in range; }
  }

  /** BITPOS key bit 0 -1, in bytes and in bits, finds what BITPOS key bit finds within the string. */
  lemma SearchWhole(s: Str, bit: bool, isBit: bool, reply: int)
    requires Replies(s, bit, Between(0, -1, isBit), reply)
    ensures reply < 8 * |s| && (reply != -1 ==> Replies(s, bit, Everywhere, reply))
  {
    hide Bit;
  }

  lemma SearchFromStart(s: Str, bit: bool, reply: int)
    ensures Replies(s, bit, From(0), reply) <==> Replies(s, bit, Everywhere, reply)
  {
    hide Answers;
  }

  /** An index -k is the index length - k. */
  lemma SearchNegative(s: Str, bit: bool, k: int, other: int, isBit: bool, reply: int)
    requires 1 <= k <= if isBit then 8 * |s| else |s|
    ensures var tot := if isBit then 8 * |s| else |s|;
      && (Replies(s, bit, Between(-k, other, isBit), reply) <==> Replies(s, bit, Between(tot - k, other, isBit), reply))
      && (Replies(s, bit, Between(other, -k, isBit), reply) <==> Replies(s, bit, Between(other, tot - k, isBit), reply))
      && (!isBit ==> (Replies(s, bit, From(-k), reply) <==> Replies(s, bit, From(tot - k), reply)))
  {
    hide Answers;
  }

  /** Indexes outside the string stand for its ends. */
  lemma SearchFar(s: Str, bit: bool, index: int, other: int, isBit: bool, reply: int)
    ensures var tot := if isBit then 8 * |s| else |s|;
      && (index >= tot > 0 ==> (Replies(s, bit, Between(other, index, isBit), reply) <==> Replies(s, bit, Between(other, tot - 1, isBit), reply)))
      && (index < -tot ==> (Replies(s, bit, Between(index, other, isBit), reply) <==> Replies(s, bit, Between(0, other, isBit), reply)))
      && (index < -tot ==> (Replies(s, bit, Between(other, index, isBit), reply) <==> Replies(s, bit, Between(other, 0, isBit), reply)))
  {
    hide Answers;
  }

  /** Within the string the range is searched as it is written. */
  lemma SearchPlain(s: Str, bit: bool, lo: nat, hi: nat, isBit: bool, reply: int)
    requires lo <= hi < if isBit then 8 * |s| else |s|
    requires Replies(s, bit, Between(lo, hi, isBit), reply)
    ensures var a, b := if isBit then lo else 8 * lo, if isBit then hi else 8 * hi + 7;
      (reply == -1 && forall i: nat | a <= i <= b :: Bit(s, i) != bit)
      || (a <= reply <= b && Bit(s, reply) == bit && forall i: nat | a <= i < reply :: Bit(s, i) != bit)
  {
    hide Bit;
  }

  /** A piece of the string at byte `start` whose bits outside the range were set to the wrong value. */
  ghost predicate View(s: Str, bit: bool, lo: int, hi: int, start: nat, piece: Str) {
    forall j | 0 <= j < 8 * |piece| :: Bit(piece, j) == (if lo <= 8 * start + j <= hi then Bit(s, 8 * start + j) else !bit)
  }

  lemma PieceFound(s: Str, bit: bool, lo: int, hi: int, start: nat, piece: Str, pos: int)
    requires View(s, bit, lo, hi, start, piece) && IsFirst(piece, bit, pos) && pos != -1 && pos != 8 * |piece|
    ensures lo <= 8 * start + pos <= hi && Bit(s, 8 * start + pos) == bit
    ensures forall i | 8 * start <= i < 8 * start + pos && lo <= i :: Bit(s, i) != bit
  {
    hide Bit;
    forall i | 8 * start <= i < 8 * start + pos && lo <= i ensures Bit(s, i) != bit { assert Bit(piece, i - 8 * start) != bit; }
  }

  lemma PieceNone(s: Str, bit: bool, lo: int, hi: int, start: nat, piece: Str, pos: int)
    requires View(s, bit, lo, hi, start, piece) && IsFirst(piece, bit, pos) && (pos == -1 || pos == 8 * |piece|)
    ensures pos == if bit then -1 else 8 * |piece|
    ensures forall i | 8 * start <= i < 8 * (start + |piece|) && lo <= i <= hi :: Bit(s, i) != bit
  {
    hide Bit;
    forall i | 8 * start <= i < 8 * (start + |piece|) && lo <= i <= hi ensures Bit(s, i) != bit { assert Bit(piece, i - 8 * start) != bit; }
  }

  lemma SliceView(s: Str, bit: bool, lo: int, hi: int, start: nat, n: nat)
    requires start + n <= |s| && lo <= 8 * start && 8 * (start + n) - 1 <= hi
    ensures View(s, bit, lo, hi, start, s[start..start + n])
  {
    hide Bit8;
    var piece := s[start..start + n];
    forall j | 0 <= j < 8 * |piece| ensures Bit(piece, j) == Bit(s, 8 * start + j) {
      assert (8 * start + j) / 8 == start + j / 8 && (8 * start + j) % 8 == j % 8;
    }
  }

  // ------------------------------------------------------------------ the masked bytes

  /** The first byte with everything before the range set to the wrong value. */
  function MaskFirst(b: bv8, mask: bv8, bit: bool): bv8 { if bit then b & !mask else b | mask }

  lemma AndNotBit(b: bv8, m: bv8, j: nat)
    requires j < 8
    ensures Bit8(b & !m, j) <==> Bit8(b, j) && !Bit8(m, j)
  {
  }

  lemma OrBit(b: bv8, m: bv8, j: nat)
    requires j < 8
    ensures Bit8(b | m, j) <==> Bit8(b, j) || Bit8(m, j)
  {
  }

  lemma MaskedBit(b: bv8, mask: bv8, bit: bool, j: nat)
    requires j < 8
    ensures Bit8(MaskFirst(b, mask, bit), j) == if Bit8(mask, j) then !bit else Bit8(b, j)
  {
    hide Bit8;
    AndNotBit(b, mask, j);
    OrBit(b, mask, j);
  }

  lemma FirstMaskSays(k: nat, j: nat)
    requires k < 8 && j < 8
    ensures Bit8(FirstNegMask(k), j) <==> j < k
  {
    hide FirstNegMask;
    FirstMaskIs(k);
  }

  lemma LastMaskSays(k: nat, j: nat)
    requires k < 8 && j < 8
    ensures Bit8(LastNegMask(k), j) <==> j > k
  {
    hide LastNegMask;
    LastMaskIs(k);
  }

  lemma EdgeView(s: Str, bit: bool, lo: nat, hi: nat, a: nat, tmp: bv8)
    requires a < |s|
    requires forall j | 0 <= j < 8 :: Bit8(tmp, j) == (if lo <= 8 * a + j <= hi then Bit8(s[a], j) else !bit)
    ensures View(s, bit, lo, hi, a, [tmp])
  {
    hide Bit8;
    forall j | 0 <= j < 8 ensures Bit([tmp], j) == Bit8(tmp, j) && Bit(s, 8 * a + j) == Bit8(s[a], j) {
      assert j / 8 == 0 && j % 8 == j && (8 * a + j) / 8 == a && (8 * a + j) % 8 == j;
    }
  }

  /** The two masks of the range `lo` to `hi`, or none when the range is whole bytes. */
  ghost predicate Edges(lo: nat, hi: nat, first: bv8, last: bv8) {
    first == FirstNegMask(lo % 8) && last == LastNegMask(hi % 8)
  }

  lemma FirstEdge(s: Str, bit: bool, lo: nat, hi: nat, first: bv8, last: bv8)
    requires lo <= hi < 8 * |s| && Edges(lo, hi, first, last)
    ensures lo / 8 < |s|
    ensures
      var a := lo / 8;
      var tmp := MaskFirst(s[a], first, bit);
      var both := MaskFirst(tmp, last, bit);
      && (a < hi / 8 ==> View(s, bit, lo, hi, a, [tmp]))
      && (a == hi / 8 ==> View(s, bit, lo, hi, a, [both]) && (last == 0 ==> both == tmp))
  {
    hide Bit8, FirstNegMask, LastNegMask, MaskFirst, View;
    var a := lo / 8;
    var tmp := MaskFirst(s[a], first, bit);
    var both := MaskFirst(tmp, last, bit);
    forall j | 0 <= j < 8
      ensures Bit8(tmp, j) == (if lo <= 8 * a + j then Bit8(s[a], j) else !bit)
      ensures a == hi / 8 ==> Bit8(both, j) == (if lo <= 8 * a + j <= hi then Bit8(s[a], j) else !bit)
    {
      MaskedBit(s[a], first, bit, j);
      FirstMaskSays(lo % 8, j);
      MaskedBit(tmp, last, bit, j);
      LastMaskSays(hi % 8, j);
    }
    if a < hi / 8 { EdgeView(s, bit, lo, hi, a, tmp); } else { EdgeView(s, bit, lo, hi, a, both); }
    MaskNothing(tmp, bit);
  }

  lemma MaskNothing(b: bv8, bit: bool)
    ensures MaskFirst(b, 0, bit) == b
  {
  }

  lemma LastEdge(s: Str, bit: bool, lo: nat, hi: nat, first: bv8, last: bv8)
    requires lo <= hi < 8 * |s| && Edges(lo, hi, first, last) && lo <= 8 * (hi / 8)
    ensures var e := hi / 8; e < |s| && View(s, bit, lo, hi, e, [MaskFirst(s[e], last, bit)])
  {
    hide Bit8, FirstNegMask, LastNegMask, MaskFirst, View;
    var e := hi / 8;
    var tmp := MaskFirst(s[e], last, bit);
    forall j | 0 <= j < 8 ensures Bit8(tmp, j) == (if lo <= 8 * e + j <= hi then Bit8(s[e], j) else !bit) {
      MaskedBit(s[e], last, bit, j);
      LastMaskSays(hi % 8, j);
    }
    EdgeView(s, bit, lo, hi, e, tmp);
  }

  lemma MasksVanish(k: nat)
    requires k < 8
    ensures FirstNegMask(k) == 0 <==> k == 0
    ensures LastNegMask(k) == 0 <==> k == 7
  {
    hide FirstNegMask, LastNegMask;
    FirstMaskIs(k);
    LastMaskIs(k);
  }

  /** What holds at the label `result`: the first bit of the range, or none of the range and the whole rest skipped. */
  ghost predicate Found(s: Str, bit: bool, lo: nat, hi: nat, start: nat, bytes: nat, pos: int) {
    if pos != -1 && pos != 8 * bytes then
      && 0 <= pos && lo <= 8 * start + pos <= hi && Bit(s, 8 * start + pos) == bit
      && forall i | lo <= i < 8 * start + pos :: Bit(s, i) != bit
    else
      && pos == (if bit then -1 else 8 * bytes) && 8 * (start + bytes) > hi
      && forall i | lo <= i <= hi :: Bit(s, i) != bit
  }

  /** No bit of the range before `upto` has the value. */
  ghost predicate Clear(s: Str, bit: bool, lo: nat, hi: nat, upto: nat) {
    forall i | lo <= i < upto && i <= hi :: Bit(s, i) != bit
  }

  /** A stage that finds the bit ends the search; one that does not clears its piece. */
  lemma StageEnds(s: Str, bit: bool, lo: nat, hi: nat, start: nat, bytes: nat, piece: Str, pos: int)
    requires Clear(s, bit, lo, hi, 8 * start) && View(s, bit, lo, hi, start, piece) && IsFirst(piece, bit, pos) && |piece| <= bytes
    ensures -1 <= pos <= 8 * |piece|
    ensures pos != -1 && pos != 8 * |piece| ==> Found(s, bit, lo, hi, start, bytes, pos)
    ensures pos == -1 || pos == 8 * |piece| ==> Clear(s, bit, lo, hi, 8 * (start + |piece|)) && pos == if bit then -1 else 8 * |piece|
  {
    hide Bit, View;
    if pos != -1 && pos != 8 * |piece| {
      PieceFound(s, bit, lo, hi, start, piece, pos);
      assert pos != 8 * bytes;
    } else {
      PieceNone(s, bit, lo, hi, start, piece, pos);
    }
  }

  lemma AllCleared(s: Str, bit: bool, lo: nat, hi: nat, start: nat, bytes: nat, pos: int)
    requires Clear(s, bit, lo, hi, 8 * (start + bytes)) && 8 * (start + bytes) > hi && pos == if bit then -1 else 8 * bytes
    ensures Found(s, bit, lo, hi, start, bytes, pos)
  {
    hide Bit;
  }

  /** The three stages of `bitposCommand`: the masked first byte, whole bytes, the masked last byte. */
  method SearchRange(s: Str, addr: nat, bit: bool, start0: nat, end: nat, first: bv8, last: bv8, ghost lo: nat, ghost hi: nat)
    returns (start: nat, bytes: nat, pos: int)
    requires lo <= hi < 8 * |s| && Edges(lo, hi, first, last) && start0 == lo / 8 && end == hi / 8
    ensures start + bytes == end + 1 && Found(s, bit, lo, hi, start, bytes, pos)
  {
    hide Bit, FirstNegMask, LastNegMask, MaskFirst, View, IsFirst, Found, Clear;
    MasksVanish(lo % 8);
    MasksVanish(hi % 8);
    NothingBefore(s, bit, lo, hi);
    start := start0;
    bytes := end - start + 1;
    if first != 0 {
      FirstEdge(s, bit, lo, hi, first, last);
      var tmp := MaskFirst(s[start], first, bit);
      if last != 0 && bytes == 1 { tmp := MaskFirst(tmp, last, bit); }
      pos := RedisBitpos([tmp], 0, bit);
      StageEnds(s, bit, lo, hi, start, bytes, [tmp], pos);
      if bytes == 1 || (pos != -1 && pos != 8) {
        if pos == -1 || pos == 8 { AllCleared(s, bit, lo, hi, start, bytes, pos); }
        return;
      }
      start, bytes := start + 1, bytes - 1;
    }
    start, bytes, pos := SearchRest(s, addr, bit, start, bytes, end, first, last, lo, hi);
  }

  method SearchRest(s: Str, addr: nat, bit: bool, start0: nat, bytes0: nat, end: nat, first: bv8, last: bv8, ghost lo: nat, ghost hi: nat)
    returns (start: nat, bytes: nat, pos: int)
    requires lo <= hi < 8 * |s| && Edges(lo, hi, first, last) && end == hi / 8
    requires bytes0 > 0 && start0 + bytes0 == end + 1 && lo <= 8 * start0 && Clear(s, bit, lo, hi, 8 * start0)
    ensures start + bytes == end + 1 && Found(s, bit, lo, hi, start, bytes, pos)
  {
    hide Bit, FirstNegMask, LastNegMask, MaskFirst, View, IsFirst, Found, Clear;
    MasksVanish(hi % 8);
    start, bytes := start0, bytes0;
    var curbytes := bytes - (if last != 0 then 1 else 0);
    if curbytes > 0 {
      var piece := s[start..start + curbytes];
      SliceView(s, bit, lo, hi, start, curbytes);
      pos := RedisBitpos(piece, addr + start, bit);
      StageEnds(s, bit, lo, hi, start, bytes, piece, pos);
      if bytes == curbytes || (pos != -1 && pos != 8 * curbytes) {
        if pos == -1 || pos == 8 * curbytes { AllCleared(s, bit, lo, hi, start, bytes, pos); }
        return;
      }
      start, bytes := start + curbytes, bytes - curbytes;
    }
    LastEdge(s, bit, lo, hi, first, last);
    var tmp := MaskFirst(s[end], last, bit);
    pos := RedisBitpos([tmp], 0, bit);
    StageEnds(s, bit, lo, hi, start, bytes, [tmp], pos);
    if pos == -1 || pos == 8 { AllCleared(s, bit, lo, hi, start, bytes, pos); }
  }

  lemma NothingBefore(s: Str, bit: bool, lo: nat, hi: nat)
    ensures Clear(s, bit, lo, hi, 8 * (lo / 8))
  {
  }

  lemma FoundAnswers(s: Str, bit: bool, lo: nat, hi: nat, endGiven: bool, start: nat, bytes: nat, pos: int)
    requires lo <= hi && Found(s, bit, lo, hi, start, bytes, pos) && (endGiven || hi + 1 == 8 * (start + bytes))
    requires hi < 8 * (start + bytes)
    ensures Answers(s, bit, lo, hi, endGiven,
      if endGiven && !bit && pos == 8 * bytes then -1 else if pos != -1 then pos + 8 * start else pos)
  {
    hide Bit;
  }

  /** `bitposCommand` on an existing string at address `addr`. */
  method BitposCommand(s: Str, addr: nat, bit: bool, search: Search) returns (reply: int)
    ensures Replies(s, bit, search, reply)
    ensures
      var range := set i: nat | i < 8 * |s| && (!search.Everywhere? ==>
                             var isBit := search.Between? && search.isBit;
                             var u, tot := if isBit then i else i / 8, if isBit then 8 * |s| else |s|;
                             && search.start <= u && (search.start < 0 ==> tot + search.start <= u)
                             && (search.Between? ==> u <= search.end || (search.end < 0 && (u <= tot + search.end || u == 0))));
      if exists i | i in range :: Bit(s, i) == bit then
        0 <= reply && reply in range && Bit(s, reply) == bit && forall i | i in range && i < reply :: Bit(s, i) != bit
      else reply == if bit || search.Between? || range == {} then -1 else 8 * |s|
  {
    hide Bit, Normalized, FirstNegMask, LastNegMask, Found;
    var isBit := search.Between? && search.isBit;
    var start, end := 0, |s| - 1;
    match search {
      case Everywhere =>
      case From(start0) => start, end := NormalizeRange(|s|, start0, |s| - 1);
      case Between(start0, end0, _) => start, end := NormalizeRange(if isBit then 8 * |s| else |s|, start0, end0);
    }
    if start > end {
      reply := -1;
      SearchMeans(s, bit, search, reply);
      return;
    }
    var first: bv8, last: bv8 := 0, 0;
    ghost var lo, hi := if isBit then start else 8 * start, if isBit then end else 8 * end + 7;
    assert (lo, hi) == BitBounds(s, search);
    if isBit {
      first, last := FirstNegMask(start % 8), LastNegMask(end % 8);
      start, end := start / 8, end / 8;
    }
    MasksVanish(0);
    MasksVanish(7);
    var from, bytes, pos := SearchRange(s, addr, bit, start, end, first, last, lo, hi);
    FoundAnswers(s, bit, lo, hi, search.Between?, from, bytes, pos);
    reply := if search.Between? && !bit && pos == 8 * bytes then -1 else if pos != -1 then pos + 8 * from else pos;
    SearchMeans(s, bit, search, reply);
  }
}
