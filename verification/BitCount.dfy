/** Counting bits (bitops.c): the 28-bytes-at-a-time population count and the BITCOUNT command. */
module BitCount {
  import opened BitString

  // ------------------------------------------------------------------ 32-bit words

  function Int(x: bv32): int { x as int }
  function Wide(b: bv8): bv32 { b as bv32 }

  /** Four lanes of 8 bits side by side. */
  function Pack(a: bv32, b: bv32, c: bv32, d: bv32): bv32 { a | (b << 8) | (c << 16) | (d << 24) }

  /** Pairs, nibbles, then bytes: each byte of the result counts the bits of that byte. */
  function Pairs(x: bv32): bv32 { x - ((x >> 1) & 0x55555555) }
  function Nibbles(x: bv32): bv32 { (x & 0x33333333) + ((x >> 2) & 0x33333333) }
  function Lanes(x: bv32): bv32 { (x + (x >> 4)) & 0x0F0F0F0F }
  function Swar(x: bv32): bv32 { Lanes(Nibbles(Pairs(x))) }

  // ------------------------------------------------------------------ lanes do not meet

  /** The same, as a sum of the even and the odd bits. */
  function EvenPlusOdd(x: bv32): bv32 { (x & 0x55555555) + ((x >> 1) & 0x55555555) }

  lemma PairsAre(x: bv32)
    ensures Pairs(x) == EvenPlusOdd(x)
  {
  }

  lemma EvenPlusOddPack(a: bv32, b: bv32, c: bv32, d: bv32)
    requires a < 256 && b < 256 && c < 256 && d < 256
    ensures EvenPlusOdd(Pack(a, b, c, d)) == Pack(EvenPlusOdd(a), EvenPlusOdd(b), EvenPlusOdd(c), EvenPlusOdd(d))
  {
  }

  lemma PairsPack(a: bv32, b: bv32, c: bv32, d: bv32)
    requires a < 256 && b < 256 && c < 256 && d < 256
    ensures Pairs(Pack(a, b, c, d)) == Pack(Pairs(a), Pairs(b), Pairs(c), Pairs(d))
  {
    hide Pairs, EvenPlusOdd, Pack;
    PairsAre(Pack(a, b, c, d));
    PairsAre(a);
    PairsAre(b);
    PairsAre(c);
    PairsAre(d);
    EvenPlusOddPack(a, b, c, d);
  }

  lemma NibblesPack(a: bv32, b: bv32, c: bv32, d: bv32)
    requires a < 256 && b < 256 && c < 256 && d < 256
    ensures Nibbles(Pack(a, b, c, d)) == Pack(Nibbles(a), Nibbles(b), Nibbles(c), Nibbles(d))
  {
  }

  predicate Halves(x: bv32) { x & 0xFFFFFF88 == 0 }

  lemma LanesPack(a: bv32, b: bv32, c: bv32, d: bv32)
    requires Halves(a) && Halves(b) && Halves(c) && Halves(d)
    ensures Lanes(Pack(a, b, c, d)) == Pack(Lanes(a), Lanes(b), Lanes(c), Lanes(d))
  {
  }

  lemma ByteStages(b: bv8)
    ensures Wide(b) < 256 && Pairs(Wide(b)) < 256 && Halves(Nibbles(Pairs(Wide(b))))
  {
  }

  lemma ByteTally(b: bv8)
    ensures Int(Swar(Wide(b))) == Count8(b)
  {
  }

  lemma SwarPack(a: bv8, b: bv8, c: bv8, d: bv8)
    ensures Swar(Pack(Wide(a), Wide(b), Wide(c), Wide(d))) == Pack(Swar(Wide(a)), Swar(Wide(b)), Swar(Wide(c)), Swar(Wide(d)))
  {
    hide Pairs, Nibbles, Lanes, Pack, Wide, Halves;
    ByteStages(a);
    ByteStages(b);
    ByteStages(c);
    ByteStages(d);
    PairsPack(Wide(a), Wide(b), Wide(c), Wide(d));
    NibblesPack(Pairs(Wide(a)), Pairs(Wide(b)), Pairs(Wide(c)), Pairs(Wide(d)));
    LanesPack(Nibbles(Pairs(Wide(a))), Nibbles(Pairs(Wide(b))), Nibbles(Pairs(Wide(c))), Nibbles(Pairs(Wide(d))));
  }

  // ------------------------------------------------------------------ the value of a word

  predicate Tiny(x: bv32) { x & 0xFFFFFFF0 == 0 }

  lemma TallyIsTiny(b: bv8)
    ensures Tiny(Swar(Wide(b)))
  {
  }

  function Duo(a: bv32, b: bv32): bv32 { a | (b << 8) }
  function Join(lo: bv32, hi: bv32): bv32 { lo | (hi << 16) }
  predicate TinyDuo(x: bv32) { x & 0xFFFFF0F0 == 0 }

  lemma PackIsJoin(a: bv32, b: bv32, c: bv32, d: bv32)
    ensures Pack(a, b, c, d) == Join(Duo(a, b), Duo(c, d))
  {
  }

  lemma DuoValue(a: bv32, b: bv32)
    requires Tiny(a) && Tiny(b)
    ensures Int(Duo(a, b)) == Int(a) + 0x100 * Int(b)
  {
  }

  lemma DuoTiny(a: bv32, b: bv32)
    requires Tiny(a) && Tiny(b)
    ensures TinyDuo(Duo(a, b))
  {
  }

  lemma JoinValue(lo: bv32, hi: bv32)
    requires TinyDuo(lo) && TinyDuo(hi)
    ensures Int(Join(lo, hi)) == Int(lo) + 0x10000 * Int(hi)
  {
  }

  /** The population counts of four bytes, as the digits of a number in base 256. */
  lemma SwarValue(a: bv8, b: bv8, c: bv8, d: bv8)
    ensures Int(Swar(Pack(Wide(a), Wide(b), Wide(c), Wide(d))))
      == Count8(a) + 0x100 * Count8(b) + 0x10000 * Count8(c) + 0x1000000 * Count8(d)
  {
    hide Swar, Pack, Duo, Join, Int, Count8, Tiny, TinyDuo, Wide;
    SwarPack(a, b, c, d);
    ByteTally(a);
    ByteTally(b);
    ByteTally(c);
    ByteTally(d);
    TallyIsTiny(a);
    TallyIsTiny(b);
    TallyIsTiny(c);
    TallyIsTiny(d);
    var a', b', c', d' := Swar(Wide(a)), Swar(Wide(b)), Swar(Wide(c)), Swar(Wide(d));
    PackIsJoin(a', b', c', d');
    DuoValue(a', b');
    DuoValue(c', d');
    DuoTiny(a', b');
    DuoTiny(c', d');
    JoinValue(Duo(a', b'), Duo(c', d'));
  }

  // ------------------------------------------------------------------ 28 bytes

  const WRAP: int := 0x1_0000_0000

  /** uint32 arithmetic: the product puts the sum of all four digits into the top one. */
  function Gather(sum: int): int { (sum * 0x01010101) % WRAP / 0x1000000 }

  lemma TopDigit(low: int, top: int, high: int)
    requires 0 <= low < 0x1000000 && 0 <= top < 256
    ensures (low + 0x1000000 * top + WRAP * high) % WRAP / 0x1000000 == top
  {
    LowPart(low + 0x1000000 * top, high);
    TopPart(low, top);
  }

  lemma LowPart(r: int, high: int)
    requires 0 <= r < WRAP
    ensures (r + WRAP * high) % WRAP == r
  {
  }

  lemma TopPart(low: int, top: int)
    requires 0 <= low < 0x1000000
    ensures (low + 0x1000000 * top) / 0x1000000 == top
  {
  }

  /** Digits of at most 56 add up to at most 224: no digit carries into the next. */
  lemma GatherAdds(a: int, b: int, c: int, d: int)
    requires 0 <= a <= 56 && 0 <= b <= 56 && 0 <= c <= 56 && 0 <= d <= 56
    ensures var x := a + 0x100 * b + 0x10000 * c + 0x1000000 * d; 0 <= x < WRAP && Gather(x) == a + b + c + d
  {
    var x := a + 0x100 * b + 0x10000 * c + 0x1000000 * d;
    var low := a + 0x100 * (a + b) + 0x10000 * (a + b + c);
    var high := b + c + d + 0x100 * (c + d) + 0x10000 * d;
    TopDigit(low, a + b + c + d, high);
    assert x * 0x01010101 == low + 0x1000000 * (a + b + c + d) + WRAP * high;
  }

  function Word(s: Str, i: nat): bv32
    requires i + 4 <= |s|
  {
    Pack(Wide(s[i]), Wide(s[i + 1]), Wide(s[i + 2]), Wide(s[i + 3]))
  }

  function Tally(s: Str, i: nat): int
    requires i + 4 <= |s|
  {
    Int(Swar(Word(s, i)))
  }

  lemma Count8Small(b: bv8)
    ensures 0 <= Count8(b) <= 8
  {
    hide Bit8;
  }

  function Sum4(s: Str, i: nat): nat
    requires i + 4 <= |s|
  {
    Count8(s[i]) + Count8(s[i + 1]) + Count8(s[i + 2]) + Count8(s[i + 3])
  }

  /** A word's counts as digits, each at most 8, with the right sum. */
  lemma TallyDigits(s: Str, i: nat) returns (a: int, b: int, c: int, d: int)
    requires i + 4 <= |s|
    ensures 0 <= a <= 8 && 0 <= b <= 8 && 0 <= c <= 8 && 0 <= d <= 8
    ensures Tally(s, i) == a + 0x100 * b + 0x10000 * c + 0x1000000 * d && Sum4(s, i) == a + b + c + d
  {
    hide Swar, Pack, Int, Count8, Wide;
    a, b, c, d := Count8(s[i]), Count8(s[i + 1]), Count8(s[i + 2]), Count8(s[i + 3]);
    SwarValue(s[i], s[i + 1], s[i + 2], s[i + 3]);
    Count8Small(s[i]);
    Count8Small(s[i + 1]);
    Count8Small(s[i + 2]);
    Count8Small(s[i + 3]);
  }

  lemma CountWord(s: Str, i: nat)
    requires i + 4 <= |s|
    ensures Count(s, 8 * i, 8 * i + 32) == Sum4(s, i)
  {
    hide Count, Count8;
    CountByte(s, i);
    CountByte(s, i + 1);
    CountByte(s, i + 2);
    CountByte(s, i + 3);
    CountSplit(s, 8 * i, 8 * i + 8, 8 * i + 32);
    CountSplit(s, 8 * i + 8, 8 * i + 16, 8 * i + 32);
    CountSplit(s, 8 * i + 16, 8 * i + 24, 8 * i + 32);
  }

  lemma CountWords(s: Str, i: nat)
    requires i + 28 <= |s|
    ensures Count(s, 8 * i, 8 * i + 224) == Sum4(s, i) + Sum4(s, i + 4) + Sum4(s, i + 8) + Sum4(s, i + 12)
      + Sum4(s, i + 16) + Sum4(s, i + 20) + Sum4(s, i + 24)
  {
    hide Count, Sum4;
    CountWord(s, i);
    CountWord(s, i + 4);
    CountWord(s, i + 8);
    CountWord(s, i + 12);
    CountWord(s, i + 16);
    CountWord(s, i + 20);
    CountWord(s, i + 24);
    CountSplit(s, 8 * i, 8 * i + 32, 8 * i + 224);
    CountSplit(s, 8 * i + 32, 8 * i + 64, 8 * i + 224);
    CountSplit(s, 8 * i + 64, 8 * i + 96, 8 * i + 224);
    CountSplit(s, 8 * i + 96, 8 * i + 128, 8 * i + 224);
    CountSplit(s, 8 * i + 128, 8 * i + 160, 8 * i + 224);
    CountSplit(s, 8 * i + 160, 8 * i + 192, 8 * i + 224);
  }

  /** The 28-byte step counts the bits of its 28 bytes: seven words never overflow a lane. */
  lemma StepCounts(s: Str, i: nat)
    requires i + 28 <= |s|
    ensures var sum := Tally(s, i) + Tally(s, i + 4) + Tally(s, i + 8) + Tally(s, i + 12)
        + Tally(s, i + 16) + Tally(s, i + 20) + Tally(s, i + 24);
      0 <= sum < WRAP && Gather(sum) == Count(s, 8 * i, 8 * i + 224)
  {
    hide Tally, Sum4, Gather, Count;
    var a1, b1, c1, d1 := TallyDigits(s, i);
    var a2, b2, c2, d2 := TallyDigits(s, i + 4);
    var a3, b3, c3, d3 := TallyDigits(s, i + 8);
    var a4, b4, c4, d4 := TallyDigits(s, i + 12);
    var a5, b5, c5, d5 := TallyDigits(s, i + 16);
    var a6, b6, c6, d6 := TallyDigits(s, i + 20);
    var a7, b7, c7, d7 := TallyDigits(s, i + 24);
    GatherAdds(a1 + a2 + a3 + a4 + a5 + a6 + a7, b1 + b2 + b3 + b4 + b5 + b6 + b7,
               c1 + c2 + c3 + c4 + c5 + c6 + c7, d1 + d2 + d3 + d4 + d5 + d6 + d7);
    CountWords(s, i);
  }

  /** `redisPopcount` on the bytes `s` at address `addr`. */
  method RedisPopcount(s: Str, addr: nat) returns (bits: int)
    ensures bits == Count(s, 0, 8 * |s|)
  {
    hide Count, Count8, Gather, Tally;
    var p, count := 0, |s|;
    bits := 0;
    CountNone(s);
    while (addr + p) % 4 != 0 && count > 0
      invariant 0 <= p <= |s| && count == |s| - p && bits == Count(s, 0, 8 * p)
      decreases count
    {
      CountSplit(s, 0, 8 * p, 8 * p + 8);
      CountByte(s, p);
      bits := bits + Count8(s[p]);
      p, count := p + 1, count - 1;
    }
    while count >= 28
      invariant 0 <= p <= |s| && count == |s| - p && bits == Count(s, 0, 8 * p)
    {
      var aux1, aux2, aux3, aux4 := Tally(s, p), Tally(s, p + 4), Tally(s, p + 8), Tally(s, p + 12);
      var aux5, aux6, aux7 := Tally(s, p + 16), Tally(s, p + 20), Tally(s, p + 24);
      StepCounts(s, p);
      CountSplit(s, 0, 8 * p, 8 * p + 224);
      bits := bits + Gather((aux1 + aux2 + aux3 + aux4 + aux5 + aux6 + aux7) % WRAP);
      p, count := p + 28, count - 28;
    }
    while count > 0
      invariant 0 <= p <= |s| && count == |s| - p && bits == Count(s, 0, 8 * p)
    {
      CountSplit(s, 0, 8 * p, 8 * p + 8);
      CountByte(s, p);
      bits := bits + Count8(s[p]);
      p, count := p + 1, count - 1;
    }
  }

  lemma CountNone(s: Str)
    ensures Count(s, 0, 0) == 0
  {
  }

  // ------------------------------------------------------------------ edges

  lemma {:induction false} FirstMaskTo(b: bv8, k: nat, n: nat)
    requires k < 8 && n <= 8
    ensures CountTo(b & FirstNegMask(k), n) == CountTo(b, if n < k then n else k)
  {
    hide Bit8, FirstNegMask;
    if n > 0 {
      FirstMaskTo(b, k, n - 1);
      FirstMaskBit(b, k, n - 1);
    }
  }

  lemma {:induction false} LastMaskTo(b: bv8, k: nat, n: nat)
    requires k < 8 && n <= 8
    ensures CountTo(b & LastNegMask(k), n) == if n <= k + 1 then 0 else CountTo(b, n) - CountTo(b, k + 1)
  {
    hide Bit8, LastNegMask;
    if n > 0 {
      LastMaskTo(b, k, n - 1);
      LastMaskBit(b, k, n - 1);
    }
  }

  lemma FirstMaskCounts(b: bv8, k: nat)
    requires k < 8
    ensures Count8(b & FirstNegMask(k)) == CountTo(b, k)
  {
    FirstMaskTo(b, k, 8);
    CountToAll(b & FirstNegMask(k));
  }

  lemma LastMaskCounts(b: bv8, k: nat)
    requires k < 8
    ensures Count8(b & LastNegMask(k)) == Count8(b) - CountTo(b, k + 1)
  {
    LastMaskTo(b, k, 8);
    CountToAll(b & LastNegMask(k));
    CountToAll(b);
  }

  // ------------------------------------------------------------------ BITCOUNT

  /** The arguments after the key: none, or a range in bytes or in bits. */
  datatype Range = WholeString | Part(start: int, end: int, isBit: bool)

  /** How the commands read a range on `tot` units: negative indexes count from the end, and both ends are clamped. */
  function Normalized(tot: nat, start: int, end: int): (int, int) {
    var s := if start < 0 then tot + start else start;
    var e := if end < 0 then tot + end else end;
    var e1 := if e < 0 then 0 else e;
    (if s < 0 then 0 else s, if e1 >= tot then tot - 1 else e1)
  }

  /** The bits in the range. */
  function BitsIn(s: Str, range: Range): nat {
    match range
    case WholeString => Count(s, 0, 8 * |s|)
    case Part(start, end, isBit) =>
      if start < 0 && end < 0 && start > end then 0
      else
        var (lo, hi) := Normalized(if isBit then 8 * |s| else |s|, start, end);
        if lo > hi then 0 else if isBit then Count(s, lo, hi + 1) else Count(s, 8 * lo, 8 * hi + 8)
  }

  /** A range is in bits or in bytes: the unit that bit `i` lies in, and how many there are. */
  function Unit(isBit: bool, i: nat): nat { if isBit then i else i / 8 }
  function Units(s: Str, isBit: bool): nat { if isBit then 8 * |s| else |s| }

  /** Counting one by one is the size of the set of set bits. */
  lemma {:induction false} CountIsSize(s: Str, lo: nat, hi: nat)
    ensures Count(s, lo, hi) == |set i: nat | lo <= i < hi && Bit(s, i)|
  {
    hide Bit;
    if lo < hi {
      CountIsSize(s, lo, hi - 1);
      var before, all := set i: nat | lo <= i < hi - 1 && Bit(s, i), set i: nat | lo <= i < hi && Bit(s, i);
      assert all == before + if Bit(s, hi - 1) then {hi - 1} else {};
    } else {
      assert (set i: nat | lo <= i < hi && Bit(s, i)) == {};
    }
  }

  /**
   Whether bit `i` is in the range, by itself: its unit is not before the start and not past the end, where negative
   indexes stand back from the length, and an end that stands back too far is the first unit.
   */
  predicate Ranged(s: Str, range: Range, i: nat) {
    match range
    case WholeString => true
    case Part(start, end, isBit) =>
      var u, tot := Unit(isBit, i), Units(s, isBit);
      && !(start < 0 && end < 0 && start > end)
      && start <= u && (start < 0 ==> tot + start <= u)
      && (u <= end || (end < 0 && (u <= tot + end || u == 0)))
  }

  /** The bits counted, one by one. */
  lemma RangeMeans(s: Str, range: Range)
    ensures BitsIn(s, range) == |set i: nat | i < 8 * |s| && Bit(s, i) && Ranged(s, range, i)|
  {
    hide Bit, Count, Ranged, Normalized;
    match range
    case WholeString =>
      forall i: nat ensures Ranged(s, WholeString, i) { RangedWhole(s, i); }
      CountIsSize(s, 0, 8 * |s|);
      assert (set i: nat | i < 8 * |s| && Bit(s, i) && Ranged(s, range, i)) == set i: nat | 0 <= i < 8 * |s| && Bit(s, i);
    case Part(start, end, isBit) =>
      PartCounted(s, start, end, isBit);
      hide BitsIn, Unit, Units;
      var (lo, hi) := Normalized(Units(s, isBit), start, end);
      forall i: nat | i < 8 * |s| ensures Ranged(s, range, i) <==> !(start < 0 && end < 0 && start > end) && lo <= Unit(isBit, i) <= hi {
        RangedPart(s, start, end, isBit, i);
      }
      assert (set i: nat | i < 8 * |s| && Bit(s, i) && Ranged(s, range, i))
        == set i: nat | i < 8 * |s| && Bit(s, i) && !(start < 0 && end < 0 && start > end) && lo <= Unit(isBit, i) <= hi;
  }

  lemma RangedWhole(s: Str, i: nat)
    ensures Ranged(s, WholeString, i)
  {
  }

  lemma RangedPart(s: Str, start: int, end: int, isBit: bool, i: nat)
    requires i < 8 * |s|
    ensures var (lo, hi) := Normalized(Units(s, isBit), start, end);
      Ranged(s, Part(start, end, isBit), i) <==> !(start < 0 && end < 0 && start > end) && lo <= Unit(isBit, i) <= hi
  {
    UnitIn(Units(s, isBit), start, end, Unit(isBit, i));
  }

  lemma PartCounted(s: Str, start: int, end: int, isBit: bool)
    ensures var (lo, hi) := Normalized(Units(s, isBit), start, end);
      BitsIn(s, Part(start, end, isBit)) ==
      |set i: nat | i < 8 * |s| && Bit(s, i) && !(start < 0 && end < 0 && start > end) && lo <= Unit(isBit, i) <= hi|
  {
    hide Bit, Count;
    var tot := Units(s, isBit);
    var (lo, hi) := Normalized(tot, start, end);
    NormalizedBounds(tot, start, end);
    hide Normalized;
    var all := set i: nat | i < 8 * |s| && Bit(s, i) && !(start < 0 && end < 0 && start > end) && lo <= Unit(isBit, i) <= hi;
    if lo > hi || (start < 0 && end < 0 && start > end) {
      assert all == {};
    } else {
      var a, b := if isBit then lo else 8 * lo, if isBit then hi + 1 else 8 * hi + 8;
      CountIsSize(s, a, b);
      assert all == set i: nat | a <= i < b && Bit(s, i);
    }
  }

  /** One unit of the string. */
  lemma UnitIn(tot: nat, start: int, end: int, u: nat)
    requires u < tot
    ensures var (lo, hi) := Normalized(tot, start, end);
      lo <= u <= hi <==> (start <= u && (start < 0 ==> tot + start <= u) && (u <= end || (end < 0 && (u <= tot + end || u == 0))))
  {
  }

  lemma NormalizedBounds(tot: nat, start: int, end: int)
    ensures var (lo, hi) := Normalized(tot, start, end); 0 <= lo && hi < tot
  {
  }

  /** BITCOUNT key 0 -1, in bytes and in bits, is BITCOUNT key. */
  lemma WholeRange(s: Str, isBit: bool)
    ensures BitsIn(s, Part(0, -1, isBit)) == BitsIn(s, WholeString)
  {
    EmptyCount(s, 0);
  }

  /** An index -k is the index length - k. */
  lemma NegativeStart(s: Str, k: int, end: int, isBit: bool)
    requires 1 <= k <= (if isBit then 8 * |s| else |s|) && !(end < 0 && -k > end)
    ensures BitsIn(s, Part(-k, end, isBit)) == BitsIn(s, Part((if isBit then 8 * |s| else |s|) - k, end, isBit))
  {
  }

  lemma NegativeEnd(s: Str, start: int, k: int, isBit: bool)
    requires 1 <= k <= (if isBit then 8 * |s| else |s|) && !(start < 0 && start > -k)
    ensures BitsIn(s, Part(start, -k, isBit)) == BitsIn(s, Part(start, (if isBit then 8 * |s| else |s|) - k, isBit))
  {
  }

  /** Indexes outside the string stand for its ends. */
  lemma FarIndexes(s: Str, index: int, other: int, isBit: bool)
    ensures var tot := if isBit then 8 * |s| else |s|;
      && (index >= tot > 0 ==> BitsIn(s, Part(other, index, isBit)) == BitsIn(s, Part(other, tot - 1, isBit)))
      && (index < -tot && !(other < 0 && index > other) ==> BitsIn(s, Part(index, other, isBit)) == BitsIn(s, Part(0, other, isBit)))
      && (index < -tot && !(other < 0 && other > index) ==> BitsIn(s, Part(other, index, isBit)) == BitsIn(s, Part(other, 0, isBit)))
  {
    hide Count;
  }

  /** A range within the string is counted as it is written. */
  lemma PlainRange(s: Str, lo: nat, hi: nat, isBit: bool)
    requires lo <= hi < if isBit then 8 * |s| else |s|
    ensures BitsIn(s, Part(lo, hi, isBit)) == if isBit then Count(s, lo, hi + 1) else Count(s, 8 * lo, 8 * hi + 8)
  {
  }

  /** Whole bytes from `a` to `b` hold what the range holds and what the two edge masks take away, each once. */
  lemma EdgesSubtract(s: Str, lo: nat, hi: nat)
    requires lo <= hi < 8 * |s|
    ensures
      var a, b := lo / 8, hi / 8;
      b < |s| && Count(s, 8 * a, 8 * b + 8) == Count(s, lo, hi + 1) + Count8(s[a] & FirstNegMask(lo % 8)) + Count8(s[b] & LastNegMask(hi % 8))
  {
    hide Count, Count8, FirstNegMask, LastNegMask, CountTo;
    var a, b := lo / 8, hi / 8;
    CountSplit(s, 8 * a, lo, 8 * b + 8);
    CountSplit(s, lo, hi + 1, 8 * b + 8);
    CountInByte(s, a, lo % 8);
    FirstMaskCounts(s[a], lo % 8);
    CountSplit(s, 8 * b, hi + 1, 8 * b + 8);
    CountInByte(s, b, hi % 8 + 1);
    CountByte(s, b);
    LastMaskCounts(s[b], hi % 8);
    assert 8 * a + lo % 8 == lo && 8 * b + (hi % 8 + 1) == hi + 1;
  }

  lemma TwoBytes(x: bv8, y: bv8)
    ensures Count([x, y], 0, 16) == Count8(x) + Count8(y)
  {
    hide Count, Count8;
    CountByte([x, y], 0);
    CountByte([x, y], 1);
    CountSplit([x, y], 0, 8, 16);
  }

  lemma NoBits()
    ensures Count8(0) == 0
  {
  }

  /** The end of `bitcountCommand`: whole bytes, less the bits under the two edge masks. */
  method CountBytes(s: Str, addr: nat, start: nat, end: nat, firstNegMask: bv8, lastNegMask: bv8) returns (count: int)
    requires start <= end < |s|
    ensures count == Count(s, 8 * start, 8 * end + 8) - Count8(s[start] & firstNegMask) - Count8(s[end] & lastNegMask)
  {
    hide Count, Count8;
    count := RedisPopcount(s[start..end + 1], addr + start);
    CountSlice(s, start, end + 1, 8 * (end + 1 - start));
    assert 8 * start + 8 * (end + 1 - start) == 8 * end + 8;
    AndZero(s[start]);
    AndZero(s[end]);
    NoBits();
    if firstNegMask != 0 || lastNegMask != 0 {
      var first: bv8, last: bv8 := 0, 0;
      if firstNegMask != 0 { first := s[start] & firstNegMask; }
      if lastNegMask != 0 { last := s[end] & lastNegMask; }
      var edges := RedisPopcount([first, last], 0);
      TwoBytes(first, last);
      count := count - edges;
    }
  }

  /** The conversion of negative and large indexes, shared by BITCOUNT and BITPOS. */
  method NormalizeRange(totlen: nat, start0: int, end0: int) returns (start: int, end: int)
    ensures (start, end) == Normalized(totlen, start0, end0)
    ensures 0 <= start && -1 <= end < totlen
  {
    start, end := start0, end0;
    if start < 0 { start := totlen + start; }
    if end < 0 { end := totlen + end; }
    if start < 0 { start := 0; }
    if end < 0 { end := 0; }
    if end >= totlen { end := totlen - 1; }
  }

  /** `bitcountCommand` on a string at address `addr`. */
  method BitcountCommand(s: Str, addr: nat, range: Range) returns (reply: int)
    ensures reply == BitsIn(s, range)
    ensures reply == |set i: nat | i < 8 * |s| && Bit(s, i) && Ranged(s, range, i)|
  {
    hide Count, Count8, FirstNegMask, LastNegMask, Normalized, Bit, Ranged;
    RangeMeans(s, range);
    NoBits();
    if range.WholeString? {
      EmptyCount(s, 0);
      if |s| == 0 { return 0; }
      AndZero(s[0]);
      AndZero(s[|s| - 1]);
      reply := CountBytes(s, addr, 0, |s| - 1, 0, 0);
      return;
    }
    var start, end, totlen := range.start, range.end, |s|;
    if start < 0 && end < 0 && start > end { return 0; }
    if range.isBit { totlen := 8 * totlen; }
    start, end := NormalizeRange(totlen, start, end);
    if start > end { return 0; }
    if range.isBit {
      EdgesSubtract(s, start, end);
      reply := CountBytes(s, addr, start / 8, end / 8, FirstNegMask(start % 8), LastNegMask(end % 8));
    } else {
      AndZero(s[start]);
      AndZero(s[end]);
      reply := CountBytes(s, addr, start, end, 0, 0);
    }
  }

  lemma AndZero(b: bv8)
    ensures b & 0 == 0
  {
  }

  lemma EmptyCount(s: Str, i: nat)
    ensures Count(s, i, i) == 0
  {
  }
}
