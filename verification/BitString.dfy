/** Strings as bitmaps (bitops.c): bit 0 is the most significant bit of the first byte, and all bits past the end are 0. */
module BitString {

  type Str = seq<bv8>

  function Mask(k: nat): bv8
    requires k < 8
  {
    match k
    case 0 => 0x80
    case 1 => 0x40
    case 2 => 0x20
    case 3 => 0x10
    case 4 => 0x08
    case 5 => 0x04
    case 6 => 0x02
    case 7 => 0x01
  }

  predicate Bit8(b: bv8, k: nat)
    requires k < 8
  {
    b & Mask(k) != 0
  }

  predicate Bit(s: Str, i: nat) { i / 8 < |s| && Bit8(s[i / 8], i % 8) }

  function One(b: bool): nat { if b then 1 else 0 }

  /** How many of the bits from `lo` up to but not including `hi` are set. */
  function Count(s: Str, lo: nat, hi: nat): nat {
    if lo >= hi then 0 else Count(s, lo, hi - 1) + One(Bit(s, hi - 1))
  }

  function Count8(b: bv8): nat {
    One(Bit8(b, 0)) + One(Bit8(b, 1)) + One(Bit8(b, 2)) + One(Bit8(b, 3)) +
    One(Bit8(b, 4)) + One(Bit8(b, 5)) + One(Bit8(b, 6)) + One(Bit8(b, 7))
  }

  lemma {:induction false} CountSplit(s: Str, lo: nat, mid: nat, hi: nat)
    requires lo <= mid <= hi
    ensures Count(s, lo, hi) == Count(s, lo, mid) + Count(s, mid, hi)
  {
    hide Bit;
    if mid < hi { CountSplit(s, lo, mid, hi - 1); }
  }

  /** The bits of byte `i`, from the first up to but not including the k-th. */
  function CountTo(b: bv8, k: nat): nat
    requires k <= 8
  {
    if k == 0 then 0 else CountTo(b, k - 1) + One(Bit8(b, k - 1))
  }

  lemma {:induction false} CountInByte(s: Str, i: nat, k: nat)
    requires i < |s| && k <= 8
    ensures Count(s, 8 * i, 8 * i + k) == CountTo(s[i], k)
  {
    hide Bit8;
    if k > 0 {
      CountInByte(s, i, k - 1);
      assert (8 * i + k - 1) / 8 == i && (8 * i + k - 1) % 8 == k - 1;
    }
  }

  lemma CountToUnrolled(b: bv8)
    ensures CountTo(b, 0) == 0 && CountTo(b, 1) == One(Bit8(b, 0))
    ensures CountTo(b, 2) == CountTo(b, 1) + One(Bit8(b, 1)) && CountTo(b, 3) == CountTo(b, 2) + One(Bit8(b, 2))
    ensures CountTo(b, 4) == CountTo(b, 3) + One(Bit8(b, 3)) && CountTo(b, 5) == CountTo(b, 4) + One(Bit8(b, 4))
    ensures CountTo(b, 6) == CountTo(b, 5) + One(Bit8(b, 5)) && CountTo(b, 7) == CountTo(b, 6) + One(Bit8(b, 6))
    ensures CountTo(b, 8) == CountTo(b, 7) + One(Bit8(b, 7))
  {
    hide Bit8;
  }

  lemma CountToAll(b: bv8)
    ensures CountTo(b, 8) == Count8(b)
  {
    hide Bit8, CountTo;
    CountToUnrolled(b);
  }

  // ------------------------------------------------------------------ the masks of a bit range

  /** The bits of a range's first byte that lie before bit `k`: the complement of 2^(8-k) - 1, cut to a byte. */
  function FirstNegMask(k: nat): bv8
    requires k < 8
  {
    (!(((1 as bv16) << (8 - k)) - 1) & 0xFF) as bv8
  }

  /** The bits of a range's last byte that lie after bit `k`: 2^(7-k) - 1. */
  function LastNegMask(k: nat): bv8
    requires k < 8
  {
    ((1 as bv8) << (7 - k)) - 1
  }

  lemma FirstMaskIs(k: nat)
    requires k < 8
    ensures FirstNegMask(k) == match k case 0 => 0x00 case 1 => 0x80 case 2 => 0xC0 case 3 => 0xE0
                                 case 4 => 0xF0 case 5 => 0xF8 case 6 => 0xFC case 7 => 0xFE
  {
  }

  lemma LastMaskIs(k: nat)
    requires k < 8
    ensures LastNegMask(k) == match k case 0 => 0x7F case 1 => 0x3F case 2 => 0x1F case 3 => 0x0F
                                case 4 => 0x07 case 5 => 0x03 case 6 => 0x01 case 7 => 0x00
  {
  }

  lemma AndRegroups(a: bv8, b: bv8, c: bv8)
    ensures (a & b) & c == a & (b & c)
  {
  }

  lemma FirstMaskBit(b: bv8, k: nat, j: nat)
    requires k < 8 && j < 8
    ensures Bit8(b & FirstNegMask(k), j) <==> j < k && Bit8(b, j)
  {
    hide FirstNegMask;
    FirstMaskIs(k);
    AndRegroups(b, FirstNegMask(k), Mask(j));
    assert FirstNegMask(k) & Mask(j) == if j < k then Mask(j) else 0;
  }

  lemma LastMaskBit(b: bv8, k: nat, j: nat)
    requires k < 8 && j < 8
    ensures Bit8(b & LastNegMask(k), j) <==> j > k && Bit8(b, j)
  {
    hide LastNegMask;
    LastMaskIs(k);
    AndRegroups(b, LastNegMask(k), Mask(j));
    assert LastNegMask(k) & Mask(j) == if j > k then Mask(j) else 0;
  }

  lemma CountByte(s: Str, i: nat)
    requires i < |s|
    ensures Count(s, 8 * i, 8 * i + 8) == Count8(s[i])
  {
    CountInByte(s, i, 8);
    CountToAll(s[i]);
  }

  /** A part of a string counts what it counts in place. */
  lemma {:induction false} CountSlice(s: Str, a: nat, b: nat, n: nat)
    requires a <= b <= |s| && n <= 8 * (b - a)
    ensures Count(s[a..b], 0, n) == Count(s, 8 * a, 8 * a + n)
  {
    hide Bit8;
    if n > 0 {
      CountSlice(s, a, b, n - 1);
      assert (8 * a + n - 1) / 8 == a + (n - 1) / 8 && (8 * a + n - 1) % 8 == (n - 1) % 8;
    }
  }
}
