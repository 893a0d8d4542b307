/**
 `mpu_calc_region`: packing a found region into the MPU_RBAR and MPU_RASR registers, and
 what the ARMv7-M protected memory system (section B3.5 of the ARMv7-M Architecture
 Reference Manual) makes of the two words.
 */
module MpuRegion {
  import opened Bits
  import opened MpuSearch

  // ---- register fields ----

  /** `x >> n` */
  function Shr(x: nat, n: nat): nat
    decreases n
  {
    if n == 0 then x else Shr(x / 2, n - 1)
  }

  /** `x << n`, unbounded */
  function Shl(x: nat, n: nat): nat
    decreases n
  {
    if n == 0 then x else 2 * Shl(x, n - 1)
  }

  /** The low `n` digits of `x`. */
  function Low(x: nat, n: nat): nat
    decreases n
  {
    if n == 0 then 0 else 2 * Low(x / 2, n - 1) + x % 2
  }

  /** The `n` digits of `x` from digit `lo` up. */
  function Field(x: nat, lo: nat, n: nat): nat
  {
    Low(Shr(x, lo), n)
  }

  // MPU_RASR fields
  function EnableField(rasr: nat): nat { Field(rasr, 0, 1) }
  function SizeField(rasr: nat): nat { Field(rasr, 1, 5) }
  function DisableField(rasr: nat): nat { Field(rasr, 8, 8) }
  function PolicyField(rasr: nat): nat { Field(rasr, 16, 6) }
  function AccessField(rasr: nat): nat { Field(rasr, 24, 3) }
  function ExecuteNeverField(rasr: nat): nat { Field(rasr, 28, 1) }

  /**
   Whether the region given by the two words applies to address `a`: the region is enabled,
   has `2^(SIZE+1)` bytes, is placed by the RBAR address bits above that size, and the
   subregion of `a` (an eighth of the region) is not disabled.
   */
  predicate Applies(rbar: nat, rasr: nat, a: nat)
  {
    var n := SizeField(rasr) + 1;
    && EnableField(rasr) == 1
    && Shr(a, n) == Shr(rbar, n)
    && (n >= 8 ==> Bit(DisableField(rasr), Shr(a, n - 3) % 8) == 0)
  }

  /** The region applies to the addresses from `first` up to `first + length` and to no others. */
  ghost predicate Exactly(rbar: nat, rasr: nat, first: nat, length: nat)
  {
    forall a: u32 :: Applies(rbar, rasr, a) <==> first <= a < first + length
  }

  ghost predicate Nowhere(rbar: nat, rasr: nat)
  {
    forall a: u32 :: !Applies(rbar, rasr, a)
  }

  // ---- fields of or-ed words ----

  lemma OrHalf(a: nat, b: nat)
    ensures Or(a, b) / 2 == Or(a / 2, b / 2)
    ensures Or(a, b) % 2 == (if a % 2 == 1 || b % 2 == 1 then 1 else 0)
  {
    if a == 0 { assert Or(a / 2, b / 2) == b / 2; }
    else if b == 0 { assert Or(a / 2, b / 2) == a / 2; }
  }

  lemma {:induction false} ShrOr(a: nat, b: nat, n: nat)
    ensures Shr(Or(a, b), n) == Or(Shr(a, n), Shr(b, n))
    decreases n
  {
    if n == 0 {
    } else {
      OrHalf(a, b);
      ShrOr(a / 2, b / 2, n - 1);
    }
  }

  lemma OrParts(x: nat, i: nat, y: nat, j: nat)
    requires i <= 1 && j <= 1
    ensures Or(2 * x + i, 2 * y + j) == 2 * Or(x, y) + (if i == 1 || j == 1 then 1 else 0)
  {
    OrHalf(2 * x + i, 2 * y + j);
  }

  lemma {:induction false} LowOr(a: nat, b: nat, n: nat)
    ensures Low(Or(a, b), n) == Or(Low(a, n), Low(b, n))
    decreases n
  {
    if n == 0 {
    } else {
      LowOr(a / 2, b / 2, n - 1);
      OrHalf(a, b);
      OrParts(Low(a / 2, n - 1), a % 2, Low(b / 2, n - 1), b % 2);
    }
  }

  lemma FieldOr(a: nat, b: nat, lo: nat, n: nat)
    ensures Field(Or(a, b), lo, n) == Or(Field(a, lo, n), Field(b, lo, n))
  {
    ShrOr(a, b, lo);
    LowOr(Shr(a, lo), Shr(b, lo), n);
  }

  lemma {:induction false} ShrShl(v: nat, p: nat, n: nat)
    ensures p >= n ==> Shr(Shl(v, p), n) == Shl(v, p - n)
    ensures p <= n ==> Shr(Shl(v, p), n) == Shr(v, n - p)
    decreases n
  {
    if n != 0 && p != 0 {
      ShrShl(v, p - 1, n - 1);
    }
  }

  lemma {:induction false} ShrSmall(v: nat, n: nat)
    requires v < Pow2(n)
    ensures Shr(v, n) == 0
    decreases n
  {
    if n == 0 {
    } else {
      ShrSmall(v / 2, n - 1);
    }
  }

  lemma {:induction false} LowSmall(v: nat, n: nat)
    requires v < Pow2(n)
    ensures Low(v, n) == v
    decreases n
  {
    if n == 0 {
    } else {
      LowSmall(v / 2, n - 1);
    }
  }

  lemma {:induction false} LowShl(v: nat, p: nat, n: nat)
    requires n <= p
    ensures Low(Shl(v, p), n) == 0
    decreases n
  {
    if n == 0 {
    } else {
      LowShl(v, p - 1, n - 1);
    }
  }

  lemma {:induction false} ShlBound(v: nat, p: nat, m: nat)
    requires v < Pow2(m)
    ensures Shl(v, p) < Pow2(m + p)
    decreases p
  {
    if p == 0 {
    } else {
      ShlBound(v, p - 1, m);
    }
  }

  lemma {:induction false} ShlTimes(v: nat, p: nat)
    ensures Shl(v, p) == v * Pow2(p)
    decreases p
  {
    if p == 0 {
    } else {
      ShlTimes(v, p - 1);
      assert 2 * (v * Pow2(p - 1)) == v * (2 * Pow2(p - 1));
    }
  }

  /** A value of at most `m` digits placed at digit `p` shows in the field it is meant for and in no other. */
  lemma Placed(v: nat, p: nat, m: nat, lo: nat, n: nat)
    requires v < Pow2(m) && ((p == lo && m == n) || p >= lo + n || p + m <= lo)
    ensures Field(Shl(v, p), lo, n) == (if p == lo && m == n then v else 0)
  {
    ShrShl(v, p, lo);
    if p == lo && m == n {
      LowSmall(v, n);
    } else if p >= lo + n {
      LowShl(v, p - lo, n);
    } else {
      Pow2Order(m, lo - p);
      ShrSmall(v, lo - p);
      LowZero(n);
    }
  }

  lemma {:induction false} LowZero(n: nat)
    ensures Low(0, n) == 0
  {
    if n == 0 {
    } else {
      LowZero(n - 1);
    }
  }

  // ---- packing ----

  /** Left shift in a 32-bit register. */
  function ShiftLeft(x: u32, n: nat): u32
  {
    Shl(x, n) % WORD
  }

  /** The or of the fields in the order the source takes it; `cache` is the policy of the memory type, bits 16 to 21. */
  function RasrWord(mpuSize: u32, access: nat, mask: nat, cache: nat, executable: bool): nat
    requires access < 8 && mask < 256 && cache < 64
  {
    var word := Or(Or(Or(ShiftLeft(mpuSize, 1), 1), ShiftLeft(access, 24)), ShiftLeft(mask, 8));
    Or(if executable then word else Or(word, ShiftLeft(1, 28)), ShiftLeft(cache, 16))
  }

  lemma Pow2Fits(m: nat, n: nat)
    requires m + n <= 32
    ensures Pow2(m) <= Pow2(m + n) <= WORD
  {
    Pow2Values();
    Pow2Order(m, m + n);
    Pow2Order(m + n, 32);
  }

  lemma ShiftLeftFits(v: nat, n: nat, m: nat)
    requires v < Pow2(m) && m + n <= 32
    ensures v < WORD && ShiftLeft(v, n) == Shl(v, n)
  {
    Pow2Fits(m, n);
    ShlBound(v, n, m);
  }

  predicate IsField(lo: nat, n: nat)
  {
    (lo == 0 && n == 1) || (lo == 1 && n == 5) || (lo == 8 && n == 8)
    || (lo == 16 && n == 6) || (lo == 24 && n == 3) || (lo == 28 && n == 1)
  }

  /** Or-ing in a field value changes its own field only. */
  lemma AddField(word: nat, v: nat, p: nat, m: nat, lo: nat, n: nat)
    requires v < Pow2(m) && p + m <= 32 && v < WORD
    requires (p == lo && m == n) || p >= lo + n || p + m <= lo
    ensures ShiftLeft(v, p) == Shl(v, p)
    ensures Field(Or(word, ShiftLeft(v, p)), lo, n)
         == (if p == lo && m == n then Or(Field(word, lo, n), v) else Field(word, lo, n))
  {
    ShiftLeftFits(v, p, m);
    FieldOr(word, Shl(v, p), lo, n);
    Placed(v, p, m, lo, n);
  }

  /** Every field of the packed word is the value put there. */
  lemma RasrField(mpuSize: u32, access: nat, mask: nat, cache: nat, executable: bool, lo: nat, n: nat)
    requires mpuSize < 32 && access < 8 && mask < 256 && cache < 64 && IsField(lo, n)
    ensures Field(RasrWord(mpuSize, access, mask, cache, executable), lo, n)
         == (if lo == 0 then 1 else if lo == 1 then mpuSize else if lo == 8 then mask else if lo == 16 then cache
             else if lo == 24 then access else if executable then 0 else 1)
  {
    Pow2Small();
    FirstField(mpuSize, lo, n);
    var w0 := Or(ShiftLeft(mpuSize, 1), 1);
    AddField(w0, access, 24, 3, lo, n);
    var w1 := Or(w0, ShiftLeft(access, 24));
    AddField(w1, mask, 8, 8, lo, n);
    var w2 := Or(w1, ShiftLeft(mask, 8));
    AddField(w2, 1, 28, 1, lo, n);
    var w3 := if executable then w2 else Or(w2, ShiftLeft(1, 28));
    AddField(w3, cache, 16, 6, lo, n);
  }

  lemma FirstField(mpuSize: u32, lo: nat, n: nat)
    requires mpuSize < 32 && IsField(lo, n)
    ensures Field(Or(ShiftLeft(mpuSize, 1), 1), lo, n) == (if lo == 0 then 1 else if lo == 1 then mpuSize else 0)
  {
    Pow2Small();
    ShiftLeftFits(mpuSize, 1, 5);
    Placed(mpuSize, 1, 5, lo, n);
    AddField(Shl(mpuSize, 1), 1, 0, 1, lo, n);
  }

  lemma Pow2Small()
    ensures Pow2(1) == 2 && Pow2(3) == 8 && Pow2(5) == 32 && Pow2(6) == 64 && Pow2(8) == 256
  {
    Pow2Values();
  }

  lemma RasrFields(mpuSize: u32, access: nat, mask: nat, cache: nat, executable: bool)
    requires mpuSize < 32 && access < 8 && mask < 256 && cache < 64
    ensures var rasr := RasrWord(mpuSize, access, mask, cache, executable);
      && EnableField(rasr) == 1 && SizeField(rasr) == mpuSize
      && DisableField(rasr) == mask && PolicyField(rasr) == cache
      && AccessField(rasr) == access && ExecuteNeverField(rasr) == (if executable then 0 else 1)
  {
    RasrField(mpuSize, access, mask, cache, executable, 0, 1);
    RasrField(mpuSize, access, mask, cache, executable, 1, 5);
    RasrField(mpuSize, access, mask, cache, executable, 8, 8);
    RasrField(mpuSize, access, mask, cache, executable, 16, 6);
    RasrField(mpuSize, access, mask, cache, executable, 24, 3);
    RasrField(mpuSize, access, mask, cache, executable, 28, 1);
  }

  // ---- single digits ----

  lemma {:induction false} BitShr(x: nat, lo: nat, j: nat)
    ensures Bit(Shr(x, lo), j) == Bit(x, lo + j)
    decreases lo
  {
    if lo == 0 {
    } else {
      BitShr(x / 2, lo - 1, j);
    }
  }

  lemma {:induction false} BitLow(x: nat, n: nat, j: nat)
    requires j < n
    ensures Bit(Low(x, n), j) == Bit(x, j)
    decreases j
  {
    if j == 0 {
    } else {
      BitLow(x / 2, n - 1, j - 1);
    }
  }

  lemma FieldBit(x: nat, lo: nat, n: nat, j: nat)
    requires j < n
    ensures Bit(Field(x, lo, n), j) == Bit(x, lo + j)
  {
    BitLow(Shr(x, lo), n, j);
    BitShr(x, lo, j);
  }

  lemma {:induction false} BitOfOr(a: nat, b: nat, j: nat)
    ensures Bit(Or(a, b), j) == (if Bit(a, j) == 1 || Bit(b, j) == 1 then 1 else 0)
    decreases j
  {
    OrHalf(a, b);
    if j > 0 { BitOfOr(a / 2, b / 2, j - 1); }
  }

  // ---- the subregion disable mask ----

  method DisableMask(offset: nat, count: nat) returns (mask: nat)
    requires offset + count <= 8
    ensures mask < 256
    ensures forall j: nat :: j < 8 ==> (Bit(mask, j) == 0 <==> offset <= j < offset + count)
  {
    mask := 0xFF;
    Pow2Small();
    forall j: nat | j < 8 ensures Bit(mask, j) == 1 { BitOfOnes(8, j); }
    for i := 0 to count
      invariant mask < 256
      invariant forall j: nat :: j < 8 ==> (Bit(mask, j) == 0 <==> offset <= j < offset + i)
    {
      ghost var before := mask;
      Pow2Order(offset + i, 8);
      mask := And(mask, 0xFF - Pow2(offset + i));
      AndBound(before, 0xFF - Pow2(offset + i));
      forall j: nat | j < 8
        ensures Bit(mask, j) == 0 <==> offset <= j < offset + i + 1
      {
        BitOfAnd(before, 0xFF - Pow2(offset + i), j);
        BitOfComplement(8, offset + i, j);
      }
    }
  }

  // ---- what the two words mean ----

  lemma {:induction false} ShrSplit(a: nat, k: nat)
    ensures a == Shl(Shr(a, k), k) + Low(a, k) && Low(a, k) < Pow2(k)
    decreases k
  {
    if k == 0 {
    } else {
      ShrSplit(a / 2, k - 1);
    }
  }

  lemma {:induction false} ShrAdd(a: nat, k: nat)
    ensures Shr(a, k + 3) == Shr(a, k) / 8
    decreases k
  {
    if k != 0 {
      ShrAdd(a / 2, k - 1);
    } else {
      assert Shr(a, 3) == a / 2 / 2 / 2;
    }
  }

  /** Counting in blocks of `p`: the block of `a` lies in a range of blocks iff `a` lies in its bytes. */
  lemma InBlocks(a: nat, u: nat, r: nat, p: nat, first: nat, count: nat)
    requires p > 0 && a == u * p + r && r < p
    ensures first <= u < first + count <==> first * p <= a < first * p + count * p
  {
    assert (first + count) * p == first * p + count * p;
    if first <= u { MulMono(first, u, p); } else { MulMono(u + 1, first, p); assert (u + 1) * p == u * p + p; }
    if u < first + count { MulMono(u + 1, first + count, p); assert (u + 1) * p == u * p + p; }
    else { MulMono(first + count, u, p); }
  }

  /** Fields of a region of eight `2^k` byte subregions, the run from `offset` enabled. */
  ghost predicate RunFields(rbar: nat, rasr: nat, index: nat, k: nat, offset: nat, count: nat)
  {
    && 5 <= k && offset + count <= 8
    && EnableField(rasr) == 1 && SizeField(rasr) == k + 2 && Shr(rbar, k + 3) == index
    && forall j: nat :: j < 8 ==> (Bit(DisableField(rasr), j) == 0 <==> offset <= j < offset + count)
  }

  lemma AppliesInUnits(rbar: nat, rasr: nat, index: nat, k: nat, offset: nat, count: nat, a: nat)
    requires RunFields(rbar, rasr, index, k, offset, count)
    ensures Applies(rbar, rasr, a) <==> 8 * index + offset <= Shr(a, k) < 8 * index + offset + count
  {
    ShrAdd(a, k);
    var j := Shr(a, k) % 8;
    assert Shr(a, k) == 8 * Shr(a, k + 3) + j;
  }

  /** Words with these fields enable exactly the bytes of the run of subregions. */
  lemma FieldsMean(rbar: nat, rasr: nat, index: nat, k: nat, offset: nat, count: nat, first: nat, length: nat)
    requires RunFields(rbar, rasr, index, k, offset, count)
    requires first == (8 * index + offset) * Pow2(k) && length == count * Pow2(k)
    ensures Exactly(rbar, rasr, first, length)
  {
    forall a: u32
      ensures Applies(rbar, rasr, a) <==> first <= a < first + length
    {
      AppliesHere(rbar, rasr, index, k, offset, count, first, length, a);
    }
  }

  lemma AppliesHere(rbar: nat, rasr: nat, index: nat, k: nat, offset: nat, count: nat, first: nat, length: nat, a: u32)
    requires RunFields(rbar, rasr, index, k, offset, count)
    requires first == (8 * index + offset) * Pow2(k) && length == count * Pow2(k)
    ensures Applies(rbar, rasr, a) <==> first <= a < first + length
  {
    AppliesInUnits(rbar, rasr, index, k, offset, count, a);
    ShrInBlocks(a, k, 8 * index + offset, count);
  }

  lemma ShrInBlocks(a: nat, k: nat, first: nat, count: nat)
    ensures first <= Shr(a, k) < first + count <==> first * Pow2(k) <= a < first * Pow2(k) + count * Pow2(k)
  {
    ShrSplit(a, k);
    ShlTimes(Shr(a, k), k);
    InBlocks(a, Shr(a, k), Low(a, k), Pow2(k), first, count);
  }

  /** The base address, the valid bit and the region number share no digits. */
  lemma RbarMeans(index: nat, k: nat, region: nat)
    requires 5 <= k && region < 16
    ensures var rbar := Or(Or(index * Pow2(k + 3), 16), region);
      Shr(rbar, k + 3) == index && Field(rbar, 4, 1) == 1 && Field(rbar, 0, 4) == region
  {
    var base := Shl(index, k + 3);
    ShlTimes(index, k + 3);
    BaseAbove(base, index, k, region);
    LowFields(base, region, index, k);
  }

  lemma BaseAbove(base: nat, index: nat, k: nat, region: nat)
    requires 5 <= k && region < 16 && base == Shl(index, k + 3)
    ensures Shr(Or(Or(base, 16), region), k + 3) == index
  {
    Pow2Values();
    Pow2Order(8, k + 3);
    ShrShl(index, k + 3, k + 3);
    ShrSmall(16, k + 3);
    ShrSmall(region, k + 3);
    ShrOr(base, 16, k + 3);
    ShrOr(Or(base, 16), region, k + 3);
  }

  lemma LowFields(base: nat, region: nat, index: nat, k: nat)
    requires 5 <= k && region < 16 && base == Shl(index, k + 3)
    ensures Field(Or(Or(base, 16), region), 4, 1) == 1 && Field(Or(Or(base, 16), region), 0, 4) == region
  {
    Pow2Values();
    Pow2Small();
    FieldOr(base, 16, 4, 1);
    FieldOr(Or(base, 16), region, 4, 1);
    FieldOr(base, 16, 0, 4);
    FieldOr(Or(base, 16), region, 0, 4);
    AboveField(index, k + 3, 4, 1);
    AboveField(index, k + 3, 0, 4);
    assert 16 == Shl(1, 4);
    Placed(1, 4, 1, 4, 1);
    Placed(1, 4, 1, 0, 4);
    assert region == Shl(region, 0);
    Placed(region, 0, 4, 0, 4);
    Placed(region, 0, 4, 4, 1);
  }

  lemma AboveField(v: nat, p: nat, lo: nat, n: nat)
    requires p >= lo + n
    ensures Field(Shl(v, p), lo, n) == 0
  {
    ShrShl(v, p, lo);
    LowShl(v, p - lo, n);
  }

  // ---- the 2GB boundary ----

  const HALF: nat := 0x8000_0000

  /** The block does not straddle the 2GB boundary (nor the top of memory). */
  predicate InOneHalf(target: nat, size: nat)
  {
    target % HALF + size <= HALF
  }

  /** Subregions under 512MB serve only blocks inside one half of memory, since their regions lie in one half. */
  lemma SmallRegionInHalf(index: nat, k: nat, offset: nat, count: nat, target: u32, size: nat)
    requires Covers(index, k, offset, count, target, size) && k <= 28 && 0 < size
    ensures InOneHalf(target, size)
  {
    Pow2Range(k);
    RunInRegion(index, Pow2(k), offset, count, target, size);
    assert Pow2(k + 3) * Pow2(28 - k) == HALF by {
      Pow2Add(k + 3, 28 - k);
      Pow2Values();
    }
    RegionInHalf(index, Pow2(k + 3), Pow2(28 - k), target, size);
  }

  lemma RunInRegion(index: nat, p: nat, offset: nat, count: nat, target: nat, size: nat)
    requires Fits(index, p, offset, count, target, size)
    ensures 0 <= target - index * (8 * p) && target - index * (8 * p) + size <= 8 * p
  {
    EightTimes(index, p);
    assert (8 * index + offset) * p == (8 * index) * p + offset * p;
    assert (offset + count) * p == offset * p + count * p;
    MulMono(offset + count, 8, p);
  }

  lemma RegionInHalf(index: nat, r: nat, m: nat, target: nat, size: nat)
    requires r > 0 && m > 0 && r * m == HALF && size > 0
    requires 0 <= target - index * r && target - index * r + size <= r
    ensures InOneHalf(target, size)
  {
    var i := index % m;
    SplitMultiple(index, r, m, HALF);
    MulMono(i + 1, m, r);
    assert (i + 1) * r == i * r + r;
    assert m * r == HALF;
    ModUnique(target, HALF, index / m, i * r + (target - index * r));
  }

  lemma SplitMultiple(index: nat, r: nat, m: nat, whole: nat)
    requires m > 0 && r * m == whole
    ensures index * r == (index / m) * whole + (index % m) * r
  {
    var q, i := index / m, index % m;
    assert index == q * m + i;
    Reassociate(q, r, m);
    assert (q * m + i) * r == (q * m) * r + i * r;
  }

  /** A 4GB region is needed only across the boundary. */
  lemma LargeRegionHalves(index: nat, offset: nat, count: nat, target: u32, size: u32)
    returns (index': nat, offset': nat, count': nat)
    requires Covers(index, 29, offset, count, target, size) && 0 < size && InOneHalf(target, size)
    ensures Covers(index', 28, offset', count', target, size)
  {
    Pow2Values();
    assert Pow2(28) == 0x1000_0000;
    var t := 2 * (8 * index + offset);
    assert target == t * 0x1000_0000;
    index', offset' := t / 8, t % 8;
    count' := 8 - offset';
  }

  // ---- the whole function ----

  /** `31 - __CLZ(subregion_size * 8) - 1` in 32-bit arithmetic. */
  function MpuSize(sub: u32): u32
  {
    (31 - LeadingZeros(sub * 8 % WORD) - 1) % WORD
  }

  lemma MpuSizeOfPow2(k: nat)
    requires 5 <= k <= 29
    ensures Pow2(k) <= MAX_SUBREGION && MpuSize(Pow2(k)) == (if k == 29 then WORD - 2 else k + 2)
  {
    Pow2Range(k);
    if k == 29 {
      assert Pow2(k) * 8 == WORD by { Pow2Values(); }
      MpuSizeWraps(Pow2(k));
    } else {
      assert Pow2(k + 3) < WORD by { Pow2Values(); Pow2Order(k + 3, 32); }
      LengthOfPow2(k + 3);
      MpuSizeOfWord(Pow2(k), k + 4);
    }
  }

  lemma MpuSizeWraps(sub: u32)
    requires sub * 8 == WORD
    ensures MpuSize(sub) == WORD - 2
  {
    assert LeadingZeros(0) == 32;
  }

  lemma MpuSizeOfWord(sub: u32, length: nat)
    requires sub * 8 < WORD && Length(sub * 8) == length && 2 <= length <= 32
    ensures MpuSize(sub) == length - 2
  {
    assert sub * 8 % WORD == sub * 8;
  }

  /** With 4GB regions the size computation wraps, and the ones it leaves disable every subregion. */
  lemma WrappedSizeAppliesNowhere(rbar: nat, access: nat, mask: nat, cache: nat, executable: bool)
    requires access < 8 && mask < 256 && cache < 64
    ensures Nowhere(rbar, RasrWord(WORD - 2, access, mask, cache, executable))
  {
    var rasr := RasrWord(WORD - 2, access, mask, cache, executable);
    forall j: nat | 2 <= j < 32 ensures Bit(rasr, j) == 1 {
      OnesShow(access, mask, cache, executable, j);
    }
    SizeAtLeast(rasr);
    forall a: u32 ensures !Applies(rbar, rasr, a) {
      var n := SizeField(rasr) + 1;
      FieldBit(rasr, 8, 8, Shr(a, n - 3) % 8);
    }
  }

  lemma OnesShow(access: nat, mask: nat, cache: nat, executable: bool, j: nat)
    requires access < 8 && mask < 256 && cache < 64 && 2 <= j < 32
    ensures Bit(RasrWord(WORD - 2, access, mask, cache, executable), j) == 1
  {
    var w := ShiftLeft(WORD - 2, 1);
    assert w == WORD - 4;
    OnesBit(j);
    OrKeeps(w, 1, j);
    OrKeeps(Or(w, 1), ShiftLeft(access, 24), j);
    w := Or(Or(w, 1), ShiftLeft(access, 24));
    OrKeeps(w, ShiftLeft(mask, 8), j);
    w := Or(w, ShiftLeft(mask, 8));
    OrKeeps(w, ShiftLeft(1, 28), j);
    w := if executable then w else Or(w, ShiftLeft(1, 28));
    OrKeeps(w, ShiftLeft(cache, 16), j);
  }

  lemma OrKeeps(a: nat, b: nat, j: nat)
    requires Bit(a, j) == 1
    ensures Bit(Or(a, b), j) == 1
  {
    BitOfOr(a, b, j);
  }

  lemma OnesBit(j: nat)
    requires 2 <= j < 32
    ensures Bit(WORD - 4, j) == 1
  {
    assert Pow2(30) - 1 == (WORD - 4) / 4 by { Pow2Values(); assert Pow2(30) == 2 * Pow2(29); }
    BitOfOnes(30, j - 2);
    var x := WORD - 4;
    assert Bit(x, j) == Bit(x / 2, j - 1) == Bit(x / 2 / 2, j - 2);
  }

  lemma SizeAtLeast(rasr: nat)
    requires forall j: nat :: 2 <= j < 32 ==> Bit(rasr, j) == 1
    ensures SizeField(rasr) >= 7
  {
    var y := Shr(rasr, 1);
    BitShr(rasr, 1, 1);
    BitShr(rasr, 1, 2);
    BitShr(rasr, 1, 3);
    var y1 := y / 2;
    var y2 := y1 / 2;
    var y3 := y2 / 2;
    assert Bit(y, 1) == y1 % 2 && Bit(y, 2) == y2 % 2 && Bit(y, 3) == y3 % 2;
    assert Low(y, 5) == 2 * Low(y1, 4) + y % 2;
    assert Low(y1, 4) == 2 * Low(y2, 3) + y1 % 2;
    assert Low(y2, 3) == 2 * Low(y3, 2) + y2 % 2;
    assert Low(y3, 2) == 2 * Low(y3 / 2, 1) + y3 % 2;
  }

  datatype Registers = Registers(rbar: nat, rasr: nat)

  /** What the words for a found run of subregions mean. */
  ghost predicate Meaning(regs: Registers, half: bool, addr: nat, length: nat, access: nat, cache: nat,
                          executable: bool)
  {
    if half then
      && Exactly(regs.rbar, regs.rasr, addr, length)
      && AccessField(regs.rasr) == access && PolicyField(regs.rasr) == cache
      && ExecuteNeverField(regs.rasr) == (if executable then 0 else 1)
    else
      Nowhere(regs.rbar, regs.rasr)
  }

  /** The fields of the attribute word describe the run found. */
  lemma WordsRun(rbar: nat, index: nat, k: nat, offset: nat, count: nat, mpuSize: u32, access: nat, mask: nat,
                 cache: nat, executable: bool)
    requires 5 <= k <= 28 && offset + count <= 8 && access < 8 && cache < 64 && mask < 256 && mpuSize == k + 2
    requires forall j: nat :: j < 8 ==> (Bit(mask, j) == 0 <==> offset <= j < offset + count)
    requires Shr(rbar, k + 3) == index
    ensures RunFields(rbar, RasrWord(mpuSize, access, mask, cache, executable), index, k, offset, count)
  {
    RasrFields(mpuSize, access, mask, cache, executable);
  }

  lemma WordsMean(regs: Registers, s: SearchResult, access: nat, mask: nat, cache: nat, executable: bool,
                  k: nat, index: nat, target: u32, size: u32, mpuSize: u32, length: nat)
    requires access < 8 && cache < 64 && mask < 256 && Best(s, k, index, target, size)
    requires forall j: nat :: j < 8 ==> (Bit(mask, j) == 0 <==> s.offset <= j < s.offset + s.count)
    requires mpuSize == MpuSize(s.subregionSize) && length == s.count * s.subregionSize
    requires Shr(regs.rbar, k + 3) == index && regs.rasr == RasrWord(mpuSize, access, mask, cache, executable)
    ensures Meaning(regs, k <= 28, target, length, access, cache, executable)
  {
    MpuSizeOfPow2(k);
    if k <= 28 {
      RasrFields(mpuSize, access, mask, cache, executable);
      WordsRun(regs.rbar, index, k, s.offset, s.count, mpuSize, access, mask, cache, executable);
      FieldsMean(regs.rbar, regs.rasr, index, k, s.offset, s.count, target, length);
    } else {
      WrappedSizeAppliesNowhere(regs.rbar, access, mask, cache, executable);
    }
  }

  /** Packing a found run of subregions. */
  method Pack(region: nat, s: SearchResult, access: nat, cache: nat, executable: bool,
              ghost index: nat, ghost k: nat, ghost target: u32, ghost size: u32)
    returns (regs: Registers)
    requires region < 16 && access < 8 && cache < 64 && Best(s, k, index, target, size)
    ensures Meaning(regs, k <= 28, target, s.count * s.subregionSize, access, cache, executable)
    ensures Field(regs.rbar, 4, 1) == 1 && Field(regs.rbar, 0, 4) == region
  {
    var mpuSize := MpuSize(s.subregionSize);
    var mask := DisableMask(s.offset, s.count);
    regs := Registers(Or(Or(s.base, 16), region), RasrWord(mpuSize, access, mask, cache, executable));
    RbarMeans(index, k, region);
    WordsMean(regs, s, access, mask, cache, executable, k, index, target, size, mpuSize, s.count * s.subregionSize);
  }

  /**
   `mpu_calc_region`. `ret` is the number of bytes the region enables, zero when there is none.
   It succeeds exactly when some region serves, enables the fewest bytes any region could, and
   the two words enable exactly those bytes if and only if the block lies in one half of memory.
   */
  method CalcRegion(region: nat, addr: u32, size: u32, access: nat, cache: nat, executable: bool)
    returns (ret: nat, regs: Registers, fatal: bool)
    requires region < 16 && access < 8 && cache < 64
    ensures fatal <==> size > MAX_SUBREGION && (size > WRAP_SIZE || !Coverable(addr, size))
    ensures ret > 0 <==> 32 <= size <= WRAP_SIZE && Coverable(addr, size)
    ensures ret == 0 ==> regs == Registers(Or(16, region), 0)
    ensures ret > 0 ==> size <= ret < 2 * size && addr + ret <= WORD && Shortest(ret, addr, size)
    ensures ret > 0 ==> Meaning(regs, InOneHalf(addr, size), addr, ret, access, cache, executable)
    ensures Field(regs.rbar, 4, 1) == 1 && Field(regs.rbar, 0, 4) == region
  {
    var s, rounds;
    ghost var k, index;
    s, rounds, k, index := Search(addr, size);
    ret, regs, fatal := 0, Registers(Or(16, region), 0), s.Fatal?;
    if s.Found? {
      MpuSizeOfPow2(k);
      if MpuSize(s.subregionSize) < 4 {
        assert false;
        return;
      }
      regs := Pack(region, s, access, cache, executable, index, k, addr, size);
      ret := s.count * s.subregionSize;
      BestHalf(s, k, index, addr, size);
      BestLength(s, k, index, addr, size);
      assert Coverable(addr, size);
    } else {
      LowFields(0, region, 0, 5);
      assert Or(Or(0, 16), region) == Or(16, region);
    }
  }

  /** There are such blocks: 1GB around the boundary. */
  lemma StraddlingBlock()
    ensures Coverable(0x6000_0000, 0x4000_0000) && !InOneHalf(0x6000_0000, 0x4000_0000)
  {
    Pow2Values();
    assert Covers(0, 29, 3, 2, 0x6000_0000, 0x4000_0000);
  }

  /** And there are blocks over 512MB without a region, here at an address no subregion starts at. */
  lemma FatalBlock()
    ensures MAX_SUBREGION < 0x3000_0000 <= WRAP_SIZE && !Coverable(4, 0x3000_0000)
  {
    forall index: nat, k: nat, offset: nat, count: nat ensures !Covers(index, k, offset, count, 4, 0x3000_0000) {
      if Covers(index, k, offset, count, 4, 0x3000_0000) {
        Pow2Range(k);
        if 8 * index + offset > 0 {
          MulAtLeast(8 * index + offset, Pow2(k));
        }
      }
    }
  }

  /** The search settles on 512MB subregions only for a block across the boundary. */
  lemma BestHalf(s: SearchResult, k: nat, index: nat, target: u32, size: u32)
    requires 32 <= size && Best(s, k, index, target, size)
    ensures k <= 28 <==> InOneHalf(target, size)
  {
    Pow2Order(28, 29);
    if k <= 28 {
      SmallRegionInHalf(index, k, s.offset, s.count, target, size);
    } else if InOneHalf(target, size) {
      var i, o, c := LargeRegionHalves(index, s.offset, s.count, target, size);
      assert false;
    }
  }

  lemma BestLength(s: SearchResult, k: nat, index: nat, target: u32, size: u32)
    requires 32 <= size && Best(s, k, index, target, size)
    ensures size <= s.count * s.subregionSize < 2 * size
    ensures target + s.count * s.subregionSize <= WORD && Shortest(s.count * s.subregionSize, target, size)
  {
    Pow2Range(k);
    RunInMemory(index, k, s.offset, s.count, target, size);
  }

  lemma RunInMemory(index: nat, k: nat, offset: nat, count: nat, target: u32, size: nat)
    requires Covers(index, k, offset, count, target, size) && count >= 1
    ensures target + count * Pow2(k) <= WORD
  {
    Pow2Range(k);
    RunInRegion(index, Pow2(k), offset, count, target, count * Pow2(k));
    assert Pow2(k + 3) * Pow2(29 - k) == WORD by {
      Pow2Add(k + 3, 29 - k);
      Pow2Values();
    }
    RegionInWord(index, Pow2(k + 3), Pow2(29 - k), target, count * Pow2(k));
  }

  lemma RegionInWord(index: nat, r: nat, m: nat, target: u32, length: nat)
    requires r > 0 && r * m == WORD && 0 <= target - index * r && target - index * r + length <= r
    ensures target + length <= WORD
  {
    if index >= m { MulMono(m, index, r); } else { MulMono(index + 1, m, r); assert (index + 1) * r == index * r + r; }
  }
}
