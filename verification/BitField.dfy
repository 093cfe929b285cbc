/** BITFIELD (bitops.c): integers of 1 to 64 bits at any bit offset, with three overflow policies. */
module BitField {
  import opened BitString
  import opened Options

  // ------------------------------------------------------------------ powers and words

  function Pow2(n: nat): (p: nat)
    ensures p >= 1
  {
    if n == 0 then 1 else 2 * Pow2(n - 1)
  }

  lemma {:induction false} Pow2Adds(a: nat, b: nat)
    ensures Pow2(a + b) == Pow2(a) * Pow2(b)
  {
    if a > 0 {
      Pow2Adds(a - 1, b);
      assert 2 * (Pow2(a - 1) * Pow2(b)) == 2 * Pow2(a - 1) * Pow2(b);
    }
  }

  lemma {:induction false} Pow2Grows(a: nat, b: nat)
    requires a <= b
    ensures Pow2(a) <= Pow2(b)
  {
    if a < b { Pow2Grows(a, b - 1); }
  }

  // ------------------------------------------------------------------ fields of a bitmap

  /** The `n` bits at `off`, the first as the most significant. */
  function Unsigned(s: Str, off: nat, n: nat): nat {
    if n == 0 then 0 else 2 * Unsigned(s, off, n - 1) + One(Bit(s, off + n - 1))
  }

  lemma {:induction false} UnsignedBound(s: Str, off: nat, n: nat)
    ensures Unsigned(s, off, n) < Pow2(n)
  {
    if n > 0 { UnsignedBound(s, off, n - 1); }
  }

  /** The first bit of the field weighs most. */
  lemma {:induction false} FirstBitWeighsMost(s: Str, off: nat, n: nat)
    requires n > 0
    ensures Unsigned(s, off, n) == (if Bit(s, off) then Pow2(n - 1) else 0) + Unsigned(s, off + 1, n - 1)
  {
    hide Bit;
    if n > 1 {
      FirstBitWeighsMost(s, off, n - 1);
      assert off + 1 + (n - 1) - 1 == off + n - 1;
    }
  }

  /** Two's complement. */
  function ToSigned(u: int, n: nat): int
    requires n > 0
  {
    if u >= Pow2(n - 1) then u - Pow2(n) else u
  }

  function Signed(s: Str, off: nat, n: nat): int
    requires n > 0
  {
    ToSigned(Unsigned(s, off, n), n)
  }

  /** Bit `j` of an `n`-bit number, counted from the most significant. */
  predicate ValueBit(v: int, n: nat, j: nat)
    requires j < n
  {
    v / Pow2(n - 1 - j) % 2 == 1
  }

  lemma DivTwice(v: int, a: nat)
    ensures v / 2 / Pow2(a) == v / Pow2(a + 1)
  {
    var p := Pow2(a);
    var q := v / Pow2(a + 1);
    var r := v % Pow2(a + 1);
    assert v == q * (2 * p) + r && 0 <= r < 2 * p;
    assert v / 2 == q * p + r / 2 by { assert q * (2 * p) == 2 * (q * p); }
    assert 0 <= r / 2 < p;
    DivUnique(v / 2, p, q, r / 2);
  }

  lemma AtLeastOnce(d: int, p: int)
    requires d >= 1 && p > 0
    ensures d * p >= p
  {
    assert (d - 1) * p >= 0;
  }

  lemma Distributes(a: int, b: int, p: int)
    ensures (a - b) * p == a * p - b * p
  {
  }

  lemma DivUnique(x: int, p: int, q: int, r: int)
    requires p > 0 && x == q * p + r && 0 <= r < p
    ensures x / p == q && x % p == r
  {
    var q', r' := x / p, x % p;
    assert q' * p + r' == x && 0 <= r' < p;
    Distributes(q, q', p);
    Distributes(q', q, p);
    if q > q' { AtLeastOnce(q - q', p); }
    if q < q' { AtLeastOnce(q' - q, p); }
  }

  lemma HalveMod(v: int, m: nat)
    requires m > 0
    ensures v % (2 * m) == 2 * (v / 2 % m) + v % 2
  {
    var h := v / 2;
    assert v == 2 * h + v % 2;
    assert h == (h / m) * m + h % m;
    assert v == (h / m) * (2 * m) + (2 * (h % m) + v % 2);
    DivUnique(v, 2 * m, h / m, 2 * (h % m) + v % 2);
  }

  predicate HoldsBit(s: Str, off: nat, v: int, n: nat, j: nat)
    requires j < n
  {
    Bit(s, off + j) == ValueBit(v, n, j)
  }

  /** The bitmap holds the low `n` bits of `v` at `off`. */
  ghost predicate Holds(s: Str, off: nat, v: int, n: nat) { forall j | 0 <= j < n :: HoldsBit(s, off, v, n, j) }

  /** Bits written from a value read back as the value, cut to the width. */
  lemma {:induction false} FieldOfValue(s: Str, off: nat, n: nat, v: int)
    requires Holds(s, off, v, n)
    ensures Unsigned(s, off, n) == v % Pow2(n)
  {
    hide Bit;
    if n > 0 {
      var h, m := v / 2, n - 1;
      forall j | 0 <= j < m ensures HoldsBit(s, off, h, m, j) {
        DivTwice(v, m - 1 - j);
        assert HoldsBit(s, off, v, n, j);
      }
      FieldOfValue(s, off, m, h);
      HalveMod(v, Pow2(n - 1));
      assert HoldsBit(s, off, v, n, n - 1);
      assert Pow2(0) == 1 && v / 1 == v;
    }
  }

  predicate SameBit(s: Str, t: Str, off: nat, off': nat, j: nat) { Bit(s, off + j) == Bit(t, off' + j) }

  /** The field only depends on its bits. */
  lemma {:induction false} FieldFrame(s: Str, t: Str, off: nat, off': nat, n: nat)
    requires forall j | 0 <= j < n :: SameBit(s, t, off, off', j)
    ensures Unsigned(s, off, n) == Unsigned(t, off', n)
  {
    hide Bit;
    if n > 0 {
      FieldFrame(s, t, off, off', n - 1);
      assert SameBit(s, t, off, off', n - 1);
    }
  }

  // ------------------------------------------------------------------ one bit of a byte

  function SetBit(b: bv8, k: nat, v: bool): bv8
    requires k < 8
  {
    (b & !Mask(k)) | (if v then Mask(k) else 0)
  }

  lemma SetBitBits(b: bv8, k: nat, v: bool, j: nat)
    requires k < 8 && j < 8
    ensures Bit8(SetBit(b, k, v), j) == if j == k then v else Bit8(b, j)
  {
    var m := Mask(k);
    AndNot(b, m, Mask(j));
    assert m & Mask(j) == if j == k then m else 0;
  }

  lemma AndNot(b: bv8, m: bv8, x: bv8)
    ensures (b & !m) & x == b & (!m & x)
  {
  }

  // ------------------------------------------------------------------ reading and writing in place

  /** Only the bits of the field differ. */
  ghost predicate OnlyField(s: Str, t: Str, off: nat, n: nat) {
    |s| == |t| && forall i | 0 <= i && !(off <= i < off + n) :: Bit(t, i) == Bit(s, i)
  }

  /** `setUnsignedBitfield`, for a value given as uint64. */
  method SetUnsignedBitfield(p: array<bv8>, offset: nat, bits: nat, value: int)
    requires offset + bits <= 8 * p.Length
    modifies p
    ensures Holds(p[..], offset, value, bits) && OnlyField(old(p[..]), p[..], offset, bits)
    ensures Unsigned(p[..], offset, bits) == value % Pow2(bits)
  {
    hide Bit8, SetBit, ValueBit, Pow2, Unsigned;
    ghost var s0 := p[..];
    var off := offset;
    for j := 0 to bits
      invariant off == offset + j
      invariant forall i | 0 <= i < j :: HoldsBit(p[..], offset, value, bits, i)
      invariant forall i | 0 <= i && !(offset <= i < off) :: Bit(p[..], i) == Bit(s0, i)
    {
      var bitval := ValueBit(value, bits, j);
      var byte, k := off / 8, off % 8;
      ghost var s := p[..];
      p[byte] := SetBit(p[byte], k, bitval);
      OneBitSet(s, p[..], off, bitval);
      forall i | 0 <= i < j + 1 ensures HoldsBit(p[..], offset, value, bits, i) {
        if i < j { assert HoldsBit(s, offset, value, bits, i); }
      }
      off := off + 1;
    }
    FieldOfValue(p[..], offset, bits, value);
  }

  /** One byte replaced changes one bit of the bitmap. */
  lemma OneBitSet(s: Str, t: Str, off: nat, v: bool)
    requires off / 8 < |s| && t == s[off / 8 := SetBit(s[off / 8], off % 8, v)]
    ensures Bit(t, off) == v && forall i | 0 <= i && i != off :: Bit(t, i) == Bit(s, i)
  {
    hide Bit8, SetBit;
    SetBitBits(s[off / 8], off % 8, v, off % 8);
    forall i | 0 <= i && i != off ensures Bit(t, i) == Bit(s, i) {
      if i / 8 == off / 8 { SetBitBits(s[off / 8], off % 8, v, i % 8); }
    }
  }

  /** `getUnsignedBitfield` */
  method GetUnsignedBitfield(p: Str, offset: nat, bits: nat) returns (value: nat)
    requires offset + bits <= 8 * |p|
    ensures value == Unsigned(p, offset, bits)
  {
    hide Bit8;
    value := 0;
    var off := offset;
    for j := 0 to bits
      invariant off == offset + j && value == Unsigned(p, offset, j)
    {
      var byteval := p[off / 8];
      value := 2 * value + One(Bit8(byteval, off % 8));
      off := off + 1;
    }
  }

  /** `getSignedBitfield`: the top bit is copied into all higher bits. */
  method GetSignedBitfield(p: Str, offset: nat, bits: nat) returns (value: int)
    requires 1 <= bits <= 64 && offset + bits <= 8 * |p|
    ensures value == Signed(p, offset, bits)
  {
    hide Pow2;
    var u := GetUnsignedBitfield(p, offset, bits);
    UnsignedBound(p, offset, bits);
    TopBitSays(u, bits);
    if bits < 64 {
      // or with all ones above the field, read as int64
      value := if u / Pow2(bits - 1) % 2 == 1 then u + (Pow2(64) - Pow2(bits)) - Pow2(64) else u;
    } else {
      value := if u >= Pow2(63) then u - Pow2(64) else u;
    }
  }

  lemma TopBitSays(u: nat, n: nat)
    requires n > 0 && u < Pow2(n)
    ensures u / Pow2(n - 1) % 2 == 1 <==> u >= Pow2(n - 1)
  {
    var p := Pow2(n - 1);
    if u >= p { DivUnique(u, p, 1, u - p); } else { DivUnique(u, p, 0, u); }
  }

  // ------------------------------------------------------------------ overflow

  datatype Policy = Wrap | Sat | Fail

  const TWO64: int := 0x1_0000_0000_0000_0000
  const TWO63: int := 0x8000_0000_0000_0000

  /** Casts between 64-bit integers. */
  function U64(x: int): int { x % TWO64 }
  function I64(x: int): int { if U64(x) >= TWO63 then U64(x) - TWO64 else U64(x) }

  predicate IsI64(x: int) { -TWO63 <= x < TWO63 }

  function Max(signed: bool, bits: nat): int
    requires bits > 0
  {
    if signed then Pow2(bits - 1) - 1 else Pow2(bits) - 1
  }

  function Min(signed: bool, bits: nat): int
    requires bits > 0
  {
    if signed then 0 - Pow2(bits - 1) else 0
  }

  predicate InRange(signed: bool, bits: nat, x: int)
    requires bits > 0
  {
    Min(signed, bits) <= x <= Max(signed, bits)
  }

  function Clamp(signed: bool, bits: nat, x: int): int
    requires bits > 0
  {
    if x > Max(signed, bits) then Max(signed, bits) else if x < Min(signed, bits) then Min(signed, bits) else x
  }

  /** The value in range that is congruent modulo 2^bits. */
  function Reduce(signed: bool, bits: nat, x: int): int
    requires bits > 0
  {
    if signed then ToSigned(x % Pow2(bits), bits) else x % Pow2(bits)
  }

  /** Saturation means the nearest number that the field can hold. */
  lemma ClampIsNearest(signed: bool, bits: nat, v: int, x: int)
    requires bits > 0
    requires if signed then -(Pow2(bits - 1) as int) <= x < Pow2(bits - 1) else 0 <= x < Pow2(bits)
    ensures var c := Clamp(signed, bits, v);
      && (if signed then -(Pow2(bits - 1) as int) <= c < Pow2(bits - 1) else 0 <= c < Pow2(bits))
      && (if c < v then v - c else c - v) <= (if x < v then v - x else x - v)
  {
    hide Pow2;
  }

  /** Wrapping means the number that the field can hold and that is the same modulo 2^bits. */
  lemma ReduceIsCongruent(signed: bool, bits: nat, v: int)
    requires bits > 0
    ensures var r := Reduce(signed, bits, v);
      && (if signed then -(Pow2(bits - 1) as int) <= r < Pow2(bits - 1) else 0 <= r < Pow2(bits))
      && exists k: int :: r == v + k * Pow2(bits)
  {
    var p := Pow2(bits);
    var q := v / p;
    assert v % p == v + (-q) * p;
    assert p == 2 * Pow2(bits - 1);
    hide Pow2;
    var r := Reduce(signed, bits, v);
    if r == v % p { assert r == v + (-q) * p; } else { assert r == v + (-q - 1) * p by { assert (-q - 1) * p == (-q) * p - p; } }
  }

  /** The answer of an overflow check: 0, 1 or -1, and the value to store instead. */
  datatype Check = Check(overflow: int, limit: int)

  /** `checkUnsignedBitfieldOverflow`, on a uint64 value and an int64 increment. */
  function CheckUnsigned(value: int, incr: int, bits: nat, policy: Policy): Check
    requires bits > 0
  {
    var max := Pow2(bits) - 1;
    var maxincr := I64(max - value);
    var minincr := I64(-value);
    var wrapped := U64(value + incr) % Pow2(bits);
    if value > max || (incr > 0 && incr > maxincr) then
      match policy case Wrap => Check(1, wrapped) case Sat => Check(1, max) case Fail => Check(1, 0)
    else if incr < 0 && incr < minincr then
      match policy case Wrap => Check(1, wrapped) case Sat => Check(-1, 0) case Fail => Check(-1, 0)
    else Check(0, 0)
  }

  /** The sign-extending branch of the signed wrap. */
  function Extend(c: int, bits: nat): int
    requires bits > 0
  {
    if bits < 64 then
      (if c / Pow2(bits - 1) % 2 == 1 then c % Pow2(bits) + (TWO64 - Pow2(bits)) else c % Pow2(bits))
    else c
  }

  /** `checkSignedBitfieldOverflow`, on int64 values. */
  function CheckSigned(value: int, incr: int, bits: nat, policy: Policy): Check
    requires bits > 0
  {
    var max := Pow2(bits - 1) - 1;
    var min := -max - 1;
    var maxincr := I64(max - value);
    var minincr := I64(min - value);
    var wrapped := I64(Extend(U64(value + incr), bits));
    if value > max || (bits != 64 && incr > maxincr) || (value >= 0 && incr > 0 && incr > maxincr) then
      match policy case Wrap => Check(1, wrapped) case Sat => Check(1, max) case Fail => Check(1, 0)
    else if value < min || (bits != 64 && incr < minincr) || (value < 0 && incr < 0 && incr < minincr) then
      match policy case Wrap => Check(1, wrapped) case Sat => Check(-1, min) case Fail => Check(-1, 0)
    else Check(0, 0)
  }

  lemma CastKeeps(x: int)
    ensures 0 <= x < TWO64 ==> U64(x) == x
    ensures IsI64(x) ==> I64(x) == x
  {
    if -TWO63 <= x < 0 { DivUnique(x, TWO64, -1, x + TWO64); }
  }

  /** Powers up to 64 in terms of 2^64. */
  lemma PowFits(bits: nat)
    requires 1 <= bits <= 64
    ensures Pow2(bits) == 2 * Pow2(bits - 1) && Pow2(bits) * Pow2(64 - bits) == TWO64
    ensures bits < 64 ==> Pow2(bits) <= TWO63
    ensures bits == 64 ==> Pow2(bits) == TWO64
  {
    Pow64();
    Pow2Adds(bits, 64 - bits);
    if bits < 64 { Pow2Grows(bits, 63); }
  }

  lemma Pow8()
    ensures Pow2(8) == 256 && Pow2(1) == 2
  {
    assert Pow2(4) == 16;
    Pow2Adds(4, 4);
  }

  lemma Pow64()
    ensures Pow2(64) == TWO64 && Pow2(63) == TWO63
  {
    hide Pow2;
    Pow8();
    Pow2Adds(8, 8);
    Pow2Adds(16, 16);
    Pow2Adds(32, 32);
    Pow2Adds(1, 63);
  }

  lemma ModMod(x: int, m: int, k: int)
    requires m > 0 && k > 0
    ensures x % (m * k) % m == x % m
  {
    var q, r := x / (m * k), x % (m * k);
    assert m * k > 0;
    assert x == q * (m * k) + r;
    assert q * (m * k) == (q * k) * m;
    var r' := r % m;
    assert r == (r / m) * m + r';
    assert x == (q * k + r / m) * m + r';
    DivUnique(x, m, q * k + r / m, r');
  }

  /** INCRBY on an unsigned field: what is stored is in range, so the check is exact. */
  lemma UnsignedIncrChecked(value: int, incr: int, bits: nat, policy: Policy)
    requires 1 <= bits <= 63 && InRange(false, bits, value) && IsI64(incr)
    ensures var r := CheckUnsigned(value, incr, bits, policy); var sum := value + incr;
      && (r.overflow == 0 <==> InRange(false, bits, sum))
      && (r.overflow != 0 && policy == Wrap ==> r.limit == Reduce(false, bits, sum))
      && (r.overflow != 0 && policy == Sat ==> r.limit == Clamp(false, bits, sum))
  {
    hide Pow2, U64, I64;
    PowFits(bits);
    var max := Pow2(bits) - 1;
    CastKeeps(max - value);
    CastKeeps(-value);
    WrapIsReduce(value + incr, bits);
  }

  lemma WrapIsReduce(x: int, bits: nat)
    requires 1 <= bits <= 64
    ensures U64(x) % Pow2(bits) == x % Pow2(bits)
  {
    hide Pow2;
    PowFits(bits);
    ModMod(x, Pow2(bits), Pow2(64 - bits));
  }

  /** SET on an unsigned field: saturation goes to the upper limit, which is the nearest value unless the value is negative. */
  lemma UnsignedSetChecked(v: int, bits: nat, policy: Policy)
    requires 1 <= bits <= 63 && IsI64(v)
    ensures var r := CheckUnsigned(U64(v), 0, bits, policy);
      && (r.overflow == 0 <==> InRange(false, bits, v))
      && (r.overflow != 0 && policy == Wrap ==> r.limit == Reduce(false, bits, v))
      && (r.overflow != 0 && policy == Sat ==> (r.limit == Clamp(false, bits, v) <==> v >= 0))
  {
    hide Pow2, I64;
    PowFits(bits);
    CastKeeps(v);
    if v < 0 { DivUnique(v, TWO64, -1, v + TWO64); }
    WrapIsReduce(v, bits);
    assert U64(v) + 0 == U64(v);
    CastKeeps(U64(v));
  }

  /** Sign extension gives the value in range. */
  lemma ExtendIsReduce(x: int, bits: nat)
    requires 1 <= bits <= 64
    ensures I64(Extend(U64(x), bits)) == Reduce(true, bits, x)
  {
    hide Pow2, U64;
    PowFits(bits);
    WrapIsReduce(x, bits);
    var p := Pow2(bits - 1);
    var c := U64(x);
    var low := c % Pow2(bits);
    CastRange(x);
    if bits < 64 {
      TopBitOf(c, bits);
      if low >= p {
        CastWhole(low + (TWO64 - Pow2(bits)));
      } else {
        CastWhole(low);
      }
    } else {
      CastWhole(c);
      DivUnique(c, TWO64, 0, c);
    }
  }

  lemma CastRange(x: int)
    ensures 0 <= U64(x) < TWO64
  {
  }

  lemma CastWhole(c: int)
    requires 0 <= c < TWO64
    ensures U64(c) == c && I64(c) == if c >= TWO63 then c - TWO64 else c
  {
  }

  lemma Regroup(p: int, q: int, r: int)
    ensures q * (2 * p) + r == (2 * q) * p + r == (2 * q + 1) * p + (r - p)
  {
  }

  lemma EvenAndOdd(q: int)
    ensures (2 * q) % 2 == 0 && (2 * q + 1) % 2 == 1
  {
  }

  lemma HalfOf(c: int, p: int)
    requires p > 0
    ensures c / p % 2 == 1 <==> c % (2 * p) >= p
  {
    var q, r := c / (2 * p), c % (2 * p);
    Regroup(p, q, r);
    EvenAndOdd(q);
    if r >= p { DivUnique(c, p, 2 * q + 1, r - p); } else { DivUnique(c, p, 2 * q, r); }
  }

  lemma TopBitOf(c: int, n: nat)
    requires n > 0 && c >= 0
    ensures c / Pow2(n - 1) % 2 == 1 <==> c % Pow2(n) >= Pow2(n - 1)
  {
    HalfOf(c, Pow2(n - 1));
  }

  /** INCRBY on a signed field: exact for every stored value and every increment. */
  lemma SignedIncrChecked(value: int, incr: int, bits: nat, policy: Policy)
    requires 1 <= bits <= 64 && InRange(true, bits, value) && IsI64(incr)
    ensures var r := CheckSigned(value, incr, bits, policy); var sum := value + incr;
      && (r.overflow == 0 <==> InRange(true, bits, sum))
      && (r.overflow != 0 && policy == Wrap ==> r.limit == Reduce(true, bits, sum))
      && (r.overflow != 0 && policy == Sat ==> r.limit == Clamp(true, bits, sum))
  {
    hide Pow2, U64, I64, Extend;
    PowFits(bits);
    var max := Pow2(bits - 1) - 1;
    var min := -max - 1;
    CastKeeps(max - value);
    CastKeeps(min - value);
    ExtendIsReduce(value + incr, bits);
  }

  /**
   SET on a signed field. Values so low that `max - value` leaves int64 are taken for an overflow upwards: saturation
   stores the nearest value if and only if that difference fits.
   */
  lemma SignedSetChecked(v: int, bits: nat, policy: Policy)
    requires 1 <= bits <= 64 && IsI64(v)
    ensures var r := CheckSigned(v, 0, bits, policy);
      && (r.overflow == 0 <==> InRange(true, bits, v))
      && (r.overflow != 0 && policy == Wrap ==> r.limit == Reduce(true, bits, v))
      && (r.overflow != 0 && policy == Sat ==> (r.limit == Clamp(true, bits, v) <==> Max(true, bits) - v < TWO63))
  {
    hide Pow2, U64, I64, Extend;
    PowFits(bits);
    var max := Pow2(bits - 1) - 1;
    var min := -max - 1;
    CastKeeps(max - v);
    CastKeeps(min - v);
    if max - v >= TWO63 { CastAbove(max - v); }
    ExtendIsReduce(v, bits);
    assert v + 0 == v;
  }

  lemma CastAbove(x: int)
    requires TWO63 <= x < TWO64
    ensures I64(x) == x - TWO64
  {
  }

  /** SET i8 to the lowest int64 with saturation stores 127. */
  lemma SignedSetExample()
    ensures CheckSigned(-TWO63, 0, 8, Sat) == Check(1, 127) && Clamp(true, 8, -TWO63) == -128
  {
    assert Pow2(4) == 16;
    Pow2Adds(4, 3);
    CastAbove(127 + TWO63);
  }

  // ------------------------------------------------------------------ operations on an infinite bitmap

  datatype Op =
    | Get(signed: bool, bits: nat, offset: nat)
    | Set(signed: bool, bits: nat, offset: nat, value: int, policy: Policy)
    | IncrBy(signed: bool, bits: nat, offset: nat, incr: int, policy: Policy)

  /** What the parser accepts: i1 to i64, u1 to u63, and int64 arguments. */
  predicate Parsed(op: Op) {
    && 1 <= op.bits <= (if op.signed then 64 else 63)
    && (op.Set? ==> IsI64(op.value)) && (op.IncrBy? ==> IsI64(op.incr))
  }

  function Field(s: Str, signed: bool, off: nat, n: nat): int
    requires n > 0
  {
    if signed then Signed(s, off, n) else Unsigned(s, off, n)
  }

  ghost predicate SameBitmap(s: Str, t: Str) { forall i | 0 <= i :: Bit(t, i) == Bit(s, i) }

  ghost predicate SameOutside(s: Str, t: Str, off: nat, n: nat) {
    forall i | 0 <= i && !(off <= i < off + n) :: Bit(t, i) == Bit(s, i)
  }

  /** What saturation stores for SET; see `SignedSetChecked` and `UnsignedSetChecked`. */
  function Saturated(signed: bool, n: nat, v: int): int
    requires n > 0
  {
    if (if signed then Max(true, n) - v < TWO63 else v >= 0) then Clamp(signed, n, v) else Max(signed, n)
  }

  /** The number that ends up in the field, or none. */
  function Stored(signed: bool, n: nat, v: int, saturated: int, policy: Policy): Option<int>
    requires n > 0
  {
    if InRange(signed, n, v) then Some(v)
    else match policy
      case Wrap => Some(Reduce(signed, n, v))
      case Sat => Some(saturated)
      case Fail => None
  }

  /** One operation on bitmaps without end: the field and the reply are as promised and no other bit changes. */
  ghost predicate Steps(s: Str, op: Op, t: Str, reply: Option<int>)
    requires Parsed(op)
  {
    var before := Field(s, op.signed, op.offset, op.bits);
    match op
    case Get(signed, n, off) => SameBitmap(s, t) && reply == Some(before)
    case Set(signed, n, off, v, policy) =>
      (match Stored(signed, n, v, Saturated(signed, n, v), policy)
       case None => SameBitmap(s, t) && reply == None
       case Some(x) => Field(t, signed, off, n) == x && SameOutside(s, t, off, n) && reply == Some(before))
    case IncrBy(signed, n, off, incr, policy) =>
      (match Stored(signed, n, before + incr, Clamp(signed, n, before + incr), policy)
       case None => SameBitmap(s, t) && reply == None
       case Some(x) => Field(t, signed, off, n) == x && SameOutside(s, t, off, n) && reply == Some(x))
  }

  /** A field reads back what an operation says it stored, and its reply tells the value before or after. */
  lemma StepReadsBack(s: Str, op: Op, t: Str, reply: Option<int>, u: Str, before: int, after: int)
    requires Parsed(op) && Steps(s, op, t, reply)
    requires var get := Get(op.signed, op.bits, op.offset); Steps(s, get, s, Some(before)) && Steps(t, get, u, Some(after))
    ensures op.Get? ==> after == before && reply == Some(before)
    ensures op.Set? && Min(op.signed, op.bits) <= op.value <= Max(op.signed, op.bits) ==> after == op.value && reply == Some(before)
    ensures op.IncrBy? && Min(op.signed, op.bits) <= before + op.incr <= Max(op.signed, op.bits) ==> after == before + op.incr && reply == Some(after)
    ensures op.Set? && !(Min(op.signed, op.bits) <= op.value <= Max(op.signed, op.bits)) ==>
      match op.policy
      case Wrap => after == Reduce(op.signed, op.bits, op.value) && reply == Some(before)
      case Sat => after == (if (if op.signed then Max(true, op.bits) - op.value < TWO63 else op.value >= 0) then Clamp(op.signed, op.bits, op.value) else Max(op.signed, op.bits)) && reply == Some(before)
      case Fail => after == before && reply == None
    ensures op.IncrBy? && !(Min(op.signed, op.bits) <= before + op.incr <= Max(op.signed, op.bits)) ==>
      match op.policy
      case Wrap => after == Reduce(op.signed, op.bits, before + op.incr) && reply == Some(after)
      case Sat => after == Clamp(op.signed, op.bits, before + op.incr) && reply == Some(after)
      case Fail => after == before && reply == None
  {
    hide Pow2, Reduce, Clamp, Unsigned, Bit, Max, Min;
    SameFields(s, t, op.offset, op.bits);
  }

  lemma SameFields(s: Str, t: Str, off: nat, n: nat)
    requires n > 0
    ensures SameBitmap(s, t) ==> Unsigned(s, off, n) == Unsigned(t, off, n)
  {
    hide Bit;
    if SameBitmap(s, t) { SameUnsigned(s, t, off, n); }
  }

  lemma {:induction false} SameUnsigned(s: Str, t: Str, off: nat, n: nat)
    requires SameBitmap(s, t)
    ensures Unsigned(s, off, n) == Unsigned(t, off, n)
  {
    hide Bit;
    if n > 0 { SameUnsigned(s, t, off, n - 1); }
  }

  lemma FieldInRange(s: Str, signed: bool, off: nat, n: nat)
    requires 1 <= n <= 64
    ensures InRange(signed, n, Field(s, signed, off, n))
  {
    UnsignedBound(s, off, n);
    PowFits(n);
  }

  lemma StoredInRange(signed: bool, n: nat, v: int, saturated: int, policy: Policy)
    requires 1 <= n <= 64 && InRange(signed, n, saturated)
    ensures var r := Stored(signed, n, v, saturated, policy); r.Some? ==> InRange(signed, n, r.value)
  {
    PowFits(n);
  }

  /** A number in range, stored modulo 2^n, reads back as itself. */
  lemma ReadsBack(signed: bool, n: nat, x: int)
    requires 1 <= n <= 64 && InRange(signed, n, x)
    ensures (if signed then ToSigned(U64(x) % Pow2(n), n) else U64(x) % Pow2(n)) == x
  {
    hide Pow2, U64;
    PowFits(n);
    WrapIsReduce(x, n);
    var p := Pow2(n);
    if x >= 0 { DivUnique(x, p, 0, x); } else { DivUnique(x, p, -1, x + p); }
  }

  /** Writing a number in range into its field. */
  method Put(p: array<bv8>, signed: bool, off: nat, n: nat, x: int)
    requires 1 <= n <= 64 && InRange(signed, n, x) && off + n <= 8 * p.Length
    modifies p
    ensures Field(p[..], signed, off, n) == x && SameOutside(old(p[..]), p[..], off, n)
  {
    hide Bit, Unsigned, Pow2, U64;
    SetUnsignedBitfield(p, off, n, U64(x));
    ReadsBack(signed, n, x);
  }

  /** The signed and unsigned paths of SET and INCRBY up to the write: the number to store, or none. */
  function Decided(op: Op, before: int): Option<int>
    requires Parsed(op) && !op.Get?
  {
    var c :=
      if op.IncrBy? then (if op.signed then CheckSigned(before, op.incr, op.bits, op.policy) else CheckUnsigned(before, op.incr, op.bits, op.policy))
      else (if op.signed then CheckSigned(op.value, 0, op.bits, op.policy) else CheckUnsigned(U64(op.value), 0, op.bits, op.policy));
    var plain := if op.IncrBy? then before + op.incr else op.value;
    if c.overflow != 0 && op.policy == Fail then None
    else Some(if c.overflow != 0 then c.limit else plain)
  }

  lemma DecidedIncr(op: Op, before: int)
    requires Parsed(op) && op.IncrBy? && InRange(op.signed, op.bits, before)
    ensures Decided(op, before) == Stored(op.signed, op.bits, before + op.incr, Clamp(op.signed, op.bits, before + op.incr), op.policy)
  {
    hide CheckSigned, CheckUnsigned, Reduce, Pow2, U64;
    if op.signed { SignedIncrChecked(before, op.incr, op.bits, op.policy); } else { UnsignedIncrChecked(before, op.incr, op.bits, op.policy); }
  }

  lemma DecidedSet(op: Op, before: int)
    requires Parsed(op) && op.Set?
    ensures Decided(op, before) == Stored(op.signed, op.bits, op.value, Saturated(op.signed, op.bits, op.value), op.policy)
  {
    hide CheckSigned, CheckUnsigned, Reduce, Pow2, U64;
    if op.signed { SignedSetChecked(op.value, op.bits, op.policy); } else { UnsignedSetChecked(op.value, op.bits, op.policy); }
    SaturationIsMax(op);
  }

  /** When saturation misses the nearest value it stores the upper limit. */
  lemma SaturationIsMax(op: Op)
    requires Parsed(op) && op.Set?
    ensures var c := if op.signed then CheckSigned(op.value, 0, op.bits, Sat) else CheckUnsigned(U64(op.value), 0, op.bits, Sat);
      c.overflow != 0 && c.limit != Clamp(op.signed, op.bits, op.value) ==> c.limit == Max(op.signed, op.bits)
  {
    hide Pow2, I64, Extend;
    PowFits(op.bits);
    CastKeeps(op.value);
    var min := 0 - Pow2(op.bits - 1);
    CastKeeps(min - op.value);
    if op.value < 0 { DivUnique(op.value, TWO64, -1, op.value + TWO64); }
    CastKeeps(-U64(op.value));
  }

  // ------------------------------------------------------------------ execution

  /** The nine bytes at byte `byte`, padded with zeros. */
  function Window(s: Str, byte: nat): Str { seq(9, i requires 0 <= i < 9 => if byte + i < |s| then s[byte + i] else 0) }

  lemma WindowBit(s: Str, off: nat, j: nat)
    requires off % 8 + j < 72
    ensures SameBit(Window(s, off / 8), s, off % 8, off, j)
  {
    hide Bit8;
    var k := off % 8 + j;
    assert (off + j) / 8 == off / 8 + k / 8 && (off + j) % 8 == k % 8 by { assert off + j == 8 * (off / 8) + k; }
    NoBitsInZero(k % 8);
  }

  lemma NoBitsInZero(k: nat)
    requires k < 8
    ensures !Bit8(0, k)
  {
  }

  /** GET through the nine-byte buffer reads the field as if the string went on with zeros. */
  method GetField(s: Str, signed: bool, bits: nat, offset: nat) returns (value: int)
    requires 1 <= bits <= 64
    ensures value == Field(s, signed, offset, bits)
  {
    hide Bit, Pow2;
    var byte := offset / 8;
    var buf := new bv8[9](_ => 0);
    var i := 0;
    while i < 9
      invariant 0 <= i <= 9
      invariant forall k | 0 <= k < i :: buf[k] == (if byte + k < |s| then s[byte + k] else 0)
      invariant forall k | i <= k < 9 :: buf[k] == 0
    {
      if byte + i >= |s| { break; }
      buf[i] := s[byte + i];
      i := i + 1;
    }
    assert buf[..] == Window(s, byte);
    forall j | 0 <= j < bits ensures SameBit(Window(s, byte), s, offset % 8, offset, j) { WindowBit(s, offset, j); }
    FieldFrame(Window(s, byte), s, offset % 8, offset, bits);
    assert offset - 8 * byte == offset % 8;
    if signed {
      value := GetSignedBitfield(buf[..], offset - 8 * byte, bits);
    } else {
      value := GetUnsignedBitfield(buf[..], offset - 8 * byte, bits);
    }
  }

  /** A write that the string is long enough for. */
  predicate Reaches(op: Op, length: nat) { op.Get? || op.offset + op.bits <= 8 * length }

  /** One round of the loop of `bitfieldGeneric`. */
  method Execute(p: array<bv8>, op: Op) returns (reply: Option<int>)
    requires Parsed(op) && Reaches(op, p.Length)
    modifies p
    ensures Steps(old(p[..]), op, p[..], reply)
  {
    hide Bit, Unsigned, Pow2, Stored, CheckSigned, CheckUnsigned, Clamp, Saturated;
    if op.Get? {
      var v := GetField(p[..], op.signed, op.bits, op.offset);
      return Some(v);
    }
    var oldval: int;
    if op.signed {
      oldval := GetSignedBitfield(p[..], op.offset, op.bits);
    } else {
      oldval := GetUnsignedBitfield(p[..], op.offset, op.bits);
    }
    FieldInRange(p[..], op.signed, op.offset, op.bits);
    if op.IncrBy? { DecidedIncr(op, oldval); } else { DecidedSet(op, oldval); }
    DecidedInRange(op, oldval);
    var newval := Decided(op, oldval);
    if newval.None? { return None; }
    Put(p, op.signed, op.offset, op.bits, newval.value);
    reply := Some(if op.IncrBy? then newval.value else oldval);
  }

  lemma DecidedInRange(op: Op, before: int)
    requires Parsed(op) && !op.Get? && InRange(op.signed, op.bits, before)
    ensures Decided(op, before).Some? ==> InRange(op.signed, op.bits, Decided(op, before).value)
  {
    hide Decided, Stored, Pow2;
    PowFits(op.bits);
    if op.IncrBy? {
      DecidedIncr(op, before);
      StoredInRange(op.signed, op.bits, before + op.incr, Clamp(op.signed, op.bits, before + op.incr), op.policy);
    } else {
      DecidedSet(op, before);
      StoredInRange(op.signed, op.bits, op.value, Saturated(op.signed, op.bits, op.value), op.policy);
    }
  }

  /** The bytes needed for all writes. */
  function Needed(ops: seq<Op>): nat {
    if |ops| == 0 then 0
    else
      var op, n := ops[|ops| - 1], Needed(ops[..|ops| - 1]);
      if op.Get? then n else var m := (op.offset + op.bits + 7) / 8; if m > n then m else n
  }

  lemma {:induction false} NeededReaches(ops: seq<Op>, k: nat)
    requires k < |ops|
    ensures Reaches(ops[k], Needed(ops))
  {
    if k < |ops| - 1 { NeededReaches(ops[..|ops| - 1], k); }
  }

  /** Zeros at the end change no bit. */
  lemma GrownIsSame(s: Str, t: Str)
    requires |s| <= |t| && (forall i | 0 <= i < |s| :: t[i] == s[i]) && forall i | |s| <= i < |t| :: t[i] == 0
    ensures SameBitmap(s, t)
  {
    hide Bit8;
    forall i | 0 <= i ensures Bit(t, i) == Bit(s, i) { NoBitsInZero(i % 8); }
  }

  /**
   `bitfieldGeneric`: the string is grown once, then the operations run in order, each on what the one before left.
   `states` are the strings in between.
   */
  method BitfieldGeneric(s: Str, ops: seq<Op>) returns (t: Str, replies: seq<Option<int>>, ghost states: seq<Str>)
    requires forall k | 0 <= k < |ops| :: Parsed(ops[k])
    ensures |replies| == |ops| && |states| == |ops| + 1 && states[|ops|] == t && SameBitmap(s, states[0])
    ensures forall k | 0 <= k < |ops| :: Steps(states[k], ops[k], states[k + 1], replies[k])
    ensures |t| >= |s| && forall k | 0 <= k < |ops| :: !ops[k].Get? ==> ops[k].offset + ops[k].bits <= 8 * |t|
    ensures |t| == |s| || exists k | 0 <= k < |ops| :: !ops[k].Get? && |t| == (ops[k].offset + ops[k].bits - 1) / 8 + 1
  {
    hide Bit, Steps, Reaches, Needed;
    var size := if Needed(ops) > |s| then Needed(ops) else |s|;
    var p := new bv8[size](i => if 0 <= i < |s| then s[i] else 0);
    GrownIsSame(s, p[..]);
    states := [p[..]];
    replies := [];
    for k := 0 to |ops|
      invariant |replies| == k && |states| == k + 1 && states[k] == p[..] && SameBitmap(s, states[0])
      invariant forall i | 0 <= i < k :: Reaches(ops[i], p.Length)
      invariant forall i | 0 <= i < k :: Steps(states[i], ops[i], states[i + 1], replies[i])
    {
      NeededReaches(ops, k);
      LongerReaches(ops[k], Needed(ops), p.Length);
      var reply := Execute(p, ops[k]);
      replies := replies + [reply];
      states := states + [p[..]];
    }
    t := p[..];
    ReachesAll(ops, |t|);
    NeededExactly(ops);
  }

  lemma ReachesAll(ops: seq<Op>, n: nat)
    requires forall k | 0 <= k < |ops| :: Reaches(ops[k], n)
    ensures forall k | 0 <= k < |ops| :: !ops[k].Get? ==> ops[k].offset + ops[k].bits <= 8 * n
  {
  }

  /** No more than the write that goes farthest. */
  lemma {:induction false} NeededExactly(ops: seq<Op>)
    requires forall k | 0 <= k < |ops| :: Parsed(ops[k])
    ensures Needed(ops) == 0 || exists k | 0 <= k < |ops| :: !ops[k].Get? && Needed(ops) == (ops[k].offset + ops[k].bits - 1) / 8 + 1
  {
    if |ops| > 0 {
      var front, last := ops[..|ops| - 1], ops[|ops| - 1];
      NeededExactly(front);
      if Needed(ops) == Needed(front) && Needed(ops) > 0 {
        var k :| 0 <= k < |front| && !front[k].Get? && Needed(front) == (front[k].offset + front[k].bits - 1) / 8 + 1;
        assert ops[k] == front[k];
      } else if Needed(ops) > 0 {
        assert !last.Get? && (last.offset + last.bits + 7) / 8 == (last.offset + last.bits - 1) / 8 + 1;
      }
    }
  }

  lemma LongerReaches(op: Op, n: nat, m: nat)
    requires Reaches(op, n) && n <= m
    ensures Reaches(op, m)
  {
  }
}
