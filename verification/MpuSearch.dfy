/**
 The search of `mpu_calc_region` for a memory protection region: eight equal
 power-of-two subregions, some run of which starts at a given address and covers
 a given size.
 */
module MpuSearch {
  import opened Bits

  /** What the search ends with: the fatal event, nothing, or a run of subregions. */
  datatype SearchResult =
    | Fatal
    | NoRegion
    | Found(base: u32, subregionSize: u32, offset: nat, count: nat)

  /** Above this size, rounding up to the largest subregion wraps in 32 bits. */
  const WRAP_SIZE: nat := 7 * 0x2000_0000

  const MAX_SUBREGION: nat := 0x2000_0000

  /**
   Region number `index` among the aligned regions of eight `2^k` byte subregions can
   enable the `count` subregions from `offset` on: that run starts at `target` and covers
   `size` bytes. Subregions are at least 32 bytes and a region is at most 4GB.
   */
  ghost predicate Covers(index: nat, k: nat, offset: nat, count: nat, target: nat, size: nat)
  {
    5 <= k <= 29 && Fits(index, Pow2(k), offset, count, target, size)
  }

  ghost predicate Fits(index: nat, p: nat, offset: nat, count: nat, target: nat, size: nat)
  {
    offset + count <= 8 && target == (8 * index + offset) * p && size <= count * p
  }

  /** Every region that serves has at least `2^w` bytes. */
  ghost predicate NoneBelow(w: nat, target: nat, size: nat)
  {
    forall index: nat, k: nat, offset: nat, count: nat ::
      Covers(index, k, offset, count, target, size) ==> w <= k + 3
  }

  ghost predicate Coverable(target: nat, size: nat)
  {
    exists index: nat, k: nat, offset: nat, count: nat :: Covers(index, k, offset, count, target, size)
  }

  /** No region that serves has subregions smaller than `sub`. */
  ghost predicate Smallest(sub: nat, target: nat, size: nat)
  {
    forall index: nat, k: nat, offset: nat, count: nat ::
      Covers(index, k, offset, count, target, size) ==> sub <= Pow2(k)
  }

  /** No region that serves enables fewer than `length` bytes. */
  ghost predicate Shortest(length: nat, target: nat, size: nat)
  {
    forall index: nat, k: nat, offset: nat, count: nat ::
      Covers(index, k, offset, count, target, size) ==> length <= count * Pow2(k)
  }

  /** Subregions needed for `size` bytes, in 32-bit arithmetic. */
  function Subregions(size: nat, sub: nat): nat
    requires sub > 0
  {
    ((size + sub - 1) % WORD) / sub
  }

  /** Whole subregions between the base and the target. */
  function Offset(target: nat, aligned: nat, sub: nat): nat
    requires sub > 0 && aligned <= target
  {
    (target - aligned) / sub
  }

  /** The test of the inner loop. */
  predicate Passes(target: nat, aligned: nat, size: nat, sub: nat)
    requires sub > 0 && aligned <= target
  {
    target % sub == 0 && Subregions(size, sub) + Offset(target, aligned, sub) <= 8
  }

  // ---- arithmetic of subregion counts ----

  lemma MulMono(a: int, b: int, m: nat)
    requires a <= b
    ensures a * m <= b * m
  {}

  lemma MulCancel(a: int, b: int, m: int)
    requires m > 0 && a * m < (b + 1) * m
    ensures a <= b
  {
    if a > b { MulMono(b + 1, a, m); }
  }

  lemma SubregionsSpec(size: nat, sub: nat)
    requires 0 < sub <= MAX_SUBREGION && 0 < size <= WRAP_SIZE
    ensures var c := Subregions(size, sub); c >= 1 && size <= c * sub < size + sub
  {
    var n := size + sub - 1;
    ModUnique(n, WORD, 0, n);
    CeilingSpec(size, sub, n / sub, n % sub);
  }

  lemma CeilingSpec(size: nat, sub: nat, c: int, r: int)
    requires size > 0 && 0 <= r < sub && size + sub - 1 == c * sub + r
    ensures c >= 1 && size <= c * sub < size + sub
  {
    if c <= 0 { MulMono(c, 0, sub); }
  }

  lemma SubregionsLeast(size: nat, sub: nat, count: nat)
    requires 0 < sub <= MAX_SUBREGION && 0 < size <= WRAP_SIZE && size <= count * sub
    ensures Subregions(size, sub) <= count
  {
    SubregionsSpec(size, sub);
    assert (count + 1) * sub == count * sub + sub;
    MulCancel(Subregions(size, sub), count, sub);
  }

  lemma Pow2Range(k: nat)
    requires 5 <= k <= 29
    ensures 32 <= Pow2(k) <= MAX_SUBREGION && Pow2(k + 3) == 8 * Pow2(k)
  {
    Pow2Values();
    Pow2Order(5, k);
    Pow2Order(k, 29);
    Pow2Add(3, k);
  }

  // ---- the inner loop's test is exact at the right base ----

  /** Offset of the target in a region, counted in subregions. */
  lemma OffsetInUnits(target: nat, aligned: nat, index: nat, t: nat, p: nat)
    requires p > 0 && aligned == index * (8 * p) && target == t * p && aligned <= target
    ensures 8 * index <= t && target % p == 0 && Offset(target, aligned, p) == t - 8 * index
  {
    EightTimes(index, p);
    MulCancelLe(8 * index, t, p);
    MultipleMod(t, p);
    MultipleMod(t - 8 * index, p);
    assert (t - 8 * index) * p == t * p - (8 * index) * p;
  }

  lemma OffsetBelowEight(target: nat, aligned: nat, index: nat, t: nat, p: nat)
    requires p > 0 && aligned == index * (8 * p) && target == t * p && target < aligned + 8 * p
    ensures t < 8 * index + 8
  {
    EightTimes(index, p);
    assert (8 * index + 8) * p == (8 * index) * p + 8 * p;
    MulCancel(t, 8 * index + 7, p);
  }

  lemma EightTimes(index: nat, p: nat)
    ensures index * (8 * p) == (8 * index) * p
  {}

  lemma MulCancelLe(a: int, b: int, m: int)
    requires m > 0 && a * m <= b * m
    ensures a <= b
  {
    assert (b + 1) * m == b * m + m;
    MulCancel(a, b, m);
  }

  /** A passing subregion size, in units of itself. */
  lemma PassInUnits(target: nat, aligned: nat, size: nat, index: nat, p: nat)
    requires 0 < p <= MAX_SUBREGION && aligned == index * (8 * p) && aligned <= target
    requires 0 < size <= WRAP_SIZE && Passes(target, aligned, size, p)
    ensures target == (8 * index + Offset(target, aligned, p)) * p
    ensures size <= Subregions(size, p) * p
  {
    var t := target / p;
    assert target == t * p;
    OffsetInUnits(target, aligned, index, t, p);
    SubregionsSpec(size, p);
  }

  lemma PassCovers(target: nat, aligned: nat, size: nat, k: nat) returns (index: nat)
    requires aligned <= target && 5 <= k <= 29 && Aligned(aligned, k + 3)
    requires 0 < size <= WRAP_SIZE && Passes(target, aligned, size, Pow2(k))
    ensures aligned == index * Pow2(k + 3)
    ensures Covers(index, k, Offset(target, aligned, Pow2(k)), Subregions(size, Pow2(k)), target, size)
  {
    Pow2Range(k);
    index := AlignedMultiple(aligned, k + 3);
    PassInUnits(target, aligned, size, index, Pow2(k));
  }

  lemma OffsetOf(target: nat, aligned: nat, a: nat, t: nat, p: nat)
    requires p > 0 && aligned == a * (8 * p) && target == t * p && aligned <= target < aligned + 8 * p
    ensures 8 * a <= t < 8 * a + 8 && target % p == 0 && Offset(target, aligned, p) == t - 8 * a
  {
    OffsetInUnits(target, aligned, a, t, p);
    OffsetBelowEight(target, aligned, a, t, p);
  }

  /** The block at index `a` and the region's are the same, since both hold the target. */
  lemma SameBlock(a: nat, index: nat, offset: nat, t: nat)
    requires t == 8 * index + offset && offset <= 7 && 8 * a <= t < 8 * a + 8
    ensures t - 8 * a == offset
  {}

  lemma FitsPass(index: nat, p: nat, offset: nat, count: nat, target: nat, aligned: nat, size: nat, a: nat)
    requires 0 < p <= MAX_SUBREGION && Fits(index, p, offset, count, target, size) && 0 < size <= WRAP_SIZE
    requires aligned == a * (8 * p) && aligned <= target < aligned + 8 * p
    ensures Passes(target, aligned, size, p)
  {
    var t := 8 * index + offset;
    assert Offset(target, aligned, p) == offset && target % p == 0 by {
      OffsetOf(target, aligned, a, t, p);
      FitsCount(index, p, offset, count, target, size);
      SameBlock(a, index, offset, t);
    }
    assert Subregions(size, p) <= count by {
      SubregionsLeast(size, p, count);
    }
  }

  lemma FitsCount(index: nat, p: nat, offset: nat, count: nat, target: nat, size: nat)
    requires Fits(index, p, offset, count, target, size) && 0 < size
    ensures 1 <= count && offset <= 7 && size <= 8 * p
  {
    MulMono(count, 8, p);
  }

  lemma CoversPass(index: nat, k: nat, offset: nat, count: nat, target: nat, aligned: nat, size: nat)
    requires Covers(index, k, offset, count, target, size) && 0 < size <= WRAP_SIZE
    requires aligned <= target < aligned + Pow2(k + 3) && Aligned(aligned, k + 3)
    ensures Passes(target, aligned, size, Pow2(k))
  {
    Pow2Range(k);
    var a := AlignedMultiple(aligned, k + 3);
    FitsPass(index, Pow2(k), offset, count, target, aligned, size, a);
  }

  lemma CoversCount(index: nat, k: nat, offset: nat, count: nat, target: nat, size: nat)
    requires Covers(index, k, offset, count, target, size) && 0 < size
    ensures 1 <= count && offset <= 7 && size <= Pow2(k + 3)
  {
    Pow2Range(k);
    FitsCount(index, Pow2(k), offset, count, target, size);
  }

  // ---- subregions larger than the size are never needed ----

  lemma HalveUnits(t: nat, h: nat)
    ensures t * (2 * h) == (2 * t) * h
  {}

  lemma HalveCover(index: nat, k: nat, offset: nat, count: nat, target: nat, size: nat)
    returns (index': nat, offset': nat)
    requires Covers(index, k, offset, count, target, size) && 0 < size <= Pow2(k) && k > 5
    ensures Covers(index', k - 1, offset', 2, target, size)
  {
    CoversCount(index, k, offset, count, target, size);
    HalveUnits(8 * index + offset, Pow2(k - 1));
    index' := if offset >= 4 then 2 * index + 1 else 2 * index;
    offset' := if offset >= 4 then 2 * offset - 8 else 2 * offset;
    assert 8 * index' + offset' == 2 * (8 * index + offset);
  }

  lemma {:induction false} SmallCover(index: nat, k: nat, offset: nat, count: nat, target: nat, size: nat)
    returns (index': nat, k': nat, offset': nat, count': nat)
    requires Covers(index, k, offset, count, target, size) && 32 <= size
    ensures k' <= k && Covers(index', k', offset', count', target, size) && Pow2(k') <= size
    decreases k
  {
    Pow2Values();
    if Pow2(k) <= size {
      return index, k, offset, count;
    }
    var i, o := HalveCover(index, k, offset, count, target, size);
    index', k', offset', count' := SmallCover(i, k - 1, o, 2, target, size);
  }

  // ---- one round of the search ----

  /** What is known at the start of a round: `aligned` is the target with its low `w` digits cleared. */
  ghost predicate Round(target: nat, aligned: nat, w: nat)
  {
    aligned <= target < aligned + Pow2(w) && Aligned(aligned, w)
  }

  /** The largest subregion size tried: an eighth of the block, capped by the size. */
  ghost predicate LargestTried(z: nat, size: nat, maxSub: nat)
  {
    maxSub == if Pow2(z) / 8 > size then size else Pow2(z) / 8
  }

  lemma LargestTriedBound(z: nat, size: nat, maxSub: nat, k: nat)
    requires LargestTried(z, size, maxSub) && 5 <= k && 5 <= z <= 32
    ensures Pow2(k) <= maxSub <==> k + 3 <= z && Pow2(k) <= size
  {
    Pow2Values();
    Pow2Add(3, z - 3);
    Pow2Order(k, z - 3);
  }

  /** A region not ruled out before this round is tested in this round. */
  lemma TestedHere(index: nat, k: nat, offset: nat, count: nat,
                   target: nat, aligned: nat, size: nat, w: nat, z: nat)
    requires Covers(index, k, offset, count, target, size) && 32 <= size <= WRAP_SIZE
    requires Round(target, aligned, w) && NoneBelow(w, target, size) && Aligned(aligned, z) && k + 3 <= z
    ensures Passes(target, aligned, size, Pow2(k))
  {
    assert w <= k + 3;
    Pow2Order(w, k + 3);
    AlignedWeaken(aligned, k + 3, z);
    CoversPass(index, k, offset, count, target, aligned, size);
  }

  /** A round whose block is smaller than the size has no region to offer. */
  lemma SkipRound(target: nat, size: nat, z: nat)
    requires size > Pow2(z)
    ensures NoneBelow(z + 1, target, size)
  {
    forall index: nat, k: nat, offset: nat, count: nat | Covers(index, k, offset, count, target, size)
      ensures z + 1 <= k + 3
    {
      CoversCount(index, k, offset, count, target, size);
      Pow2Order(k + 3, z);
    }
  }

  /** When the inner loop finds nothing, no region up to the block's size serves. */
  lemma FailedRound(target: nat, aligned: nat, size: nat, w: nat, z: nat, maxSub: nat)
    requires 32 <= size <= WRAP_SIZE && Round(target, aligned, w) && NoneBelow(w, target, size)
    requires Aligned(aligned, z) && 5 <= z <= 32 && LargestTried(z, size, maxSub)
    requires forall j: nat :: 5 <= j && Pow2(j) <= maxSub ==> !Passes(target, aligned, size, Pow2(j))
    ensures NoneBelow(z + 1, target, size)
  {
    forall index: nat, k: nat, offset: nat, count: nat | Covers(index, k, offset, count, target, size)
      ensures z + 1 <= k + 3
    {
      if k + 3 <= z {
        var i', k', o', c' := SmallCover(index, k, offset, count, target, size);
        LargestTriedBound(z, size, maxSub, k');
        TestedHere(i', k', o', c', target, aligned, size, w, z);
        assert false;
      }
    }
  }

  lemma CoarserIsLonger(size: nat, k: nat, k': nat, count: nat)
    requires 32 <= size <= WRAP_SIZE && 5 <= k <= k' <= 29 && size <= count * Pow2(k')
    ensures Subregions(size, Pow2(k)) * Pow2(k) <= count * Pow2(k')
  {
    Pow2Range(k);
    var r := Pow2(k' - k);
    assert Pow2(k') == Pow2(k) * r by { Pow2Add(k, k' - k); }
    FinerIsShorter(size, Pow2(k), r, count, Pow2(k'));
  }

  lemma FinerIsShorter(size: nat, p: nat, r: nat, count: nat, p': nat)
    requires 0 < size <= WRAP_SIZE && 0 < p <= MAX_SUBREGION && p' == p * r && size <= count * p'
    ensures Subregions(size, p) * p <= count * p'
  {
    Reassociate(count, p, r);
    SubregionsLeast(size, p, count * r);
    MulMono(Subregions(size, p), count * r, p);
  }

  lemma Reassociate(a: nat, b: nat, c: nat)
    ensures a * (b * c) == (a * c) * b
  {}

  /** The first subregion size to pass is the smallest that serves, over all bases. */
  lemma FoundHere(target: nat, aligned: nat, size: nat, w: nat, z: nat, k: nat, maxSub: nat)
    returns (index: nat)
    requires 32 <= size <= WRAP_SIZE && Round(target, aligned, w) && NoneBelow(w, target, size)
    requires Aligned(aligned, z) && 5 <= z <= 32 && LargestTried(z, size, maxSub)
    requires 5 <= k && Pow2(k) <= maxSub && Passes(target, aligned, size, Pow2(k))
    requires forall j: nat :: 5 <= j < k && Pow2(j) <= maxSub ==> !Passes(target, aligned, size, Pow2(j))
    ensures k + 3 <= z && aligned == index * Pow2(k + 3)
    ensures Covers(index, k, Offset(target, aligned, Pow2(k)), Subregions(size, Pow2(k)), target, size)
    ensures Smallest(Pow2(k), target, size) && Shortest(Subregions(size, Pow2(k)) * Pow2(k), target, size)
  {
    LargestTriedBound(z, size, maxSub, k);
    AlignedWeaken(aligned, k + 3, z);
    index := PassCovers(target, aligned, size, k);
    forall i: nat, k': nat, o: nat, c: nat | Covers(i, k', o, c, target, size)
      ensures Pow2(k) <= Pow2(k') && Subregions(size, Pow2(k)) * Pow2(k) <= c * Pow2(k')
    {
      Pow2Order(k, k');
      if k' < k {
        TestedHere(i, k', o, c, target, aligned, size, w, z);
        assert false;
      } else {
        CoarserIsLonger(size, k, k', c);
      }
    }
  }

  /** Once the size itself has been tried as a subregion size, larger blocks add nothing. */
  lemma NothingLeft(target: nat, size: nat, z: nat)
    requires 32 <= size && 8 * size <= Pow2(z) && NoneBelow(z + 1, target, size)
    ensures !Coverable(target, size)
  {
    forall index: nat, k: nat, offset: nat, count: nat | Covers(index, k, offset, count, target, size)
      ensures false
    {
      var i', k', o', c' := SmallCover(index, k, offset, count, target, size);
      Pow2Range(k');
      Pow2Order(k' + 3, z);
    }
  }

  /** Clearing the lowest set bit of the base moves to a block at least twice the size. */
  lemma StepBack(target: u32, aligned: u32, w: nat)
    requires Round(target, aligned, w)
    ensures var z := TrailingZeros(aligned);
      && Aligned(aligned, z) && (if aligned == 0 then z == 32 else w <= z < 32 && LowestBit(aligned) == Pow2(z))
      && Round(target, aligned - LowestBit(aligned), z + 1)
  {
    var z := TrailingZeros(aligned);
    if aligned == 0 {
      AlignedZero(32);
      AlignedZero(33);
      Pow2Values();
    } else {
      LowestBitSpec(aligned);
      TrailingZerosAtLeast(aligned, w);
      TrailingZerosRange(aligned);
      Pow2Order(w, z);
    }
  }

  lemma HalfTheLargest(k: nat)
    requires k < 29
    ensures 2 * Pow2(k) <= MAX_SUBREGION
  {
    Pow2Values();
    Pow2Mono(k, 29);
  }

  /** Leaving the inner loop early with no subregions happens only after the rounding has wrapped. */
  lemma BreakCount(size: u32, k: nat)
    requires 32 <= size && 5 <= k <= 29 && Subregions(size, Pow2(k)) <= 8
    ensures Subregions(size, Pow2(k)) == 0 <==> size > WRAP_SIZE
  {
    Pow2Range(k);
    if size <= WRAP_SIZE {
      SubregionsSpec(size, Pow2(k));
    } else if size + Pow2(k) - 1 >= WORD {
      WrappedToZero(size, Pow2(k));
    } else {
      if k < 29 { HalfTheLargest(k); TooManySubregions(size, Pow2(k)); }
      assert false by { Pow2Values(); }
    }
  }

  lemma WrappedToZero(size: u32, sub: nat)
    requires 0 < sub && size + sub - 1 >= WORD && sub <= MAX_SUBREGION
    ensures Subregions(size, sub) == 0
  {
    var n := size + sub - 1;
    ModUnique(n, WORD, 1, n - WORD);
    ModUnique(n - WORD, sub, 0, n - WORD);
  }

  lemma TooManySubregions(size: u32, sub: nat)
    requires 0 < sub && size > WRAP_SIZE && size + sub - 1 < WORD && 2 * sub <= MAX_SUBREGION
    ensures Subregions(size, sub) > 8
  {
    var n := size + sub - 1;
    ModUnique(n, WORD, 0, n);
    CeilingSpec(size, sub, n / sub, n % sub);
    if n / sub <= 8 { MulMono(n / sub, 8, sub); }
  }

  /** The inner `for` loop: subregion sizes from 32 up, doubling, until one passes. */
  method FitSubregion(target: u32, aligned: u32, size: u32, maxSub: u32)
    returns (sub: u32, count: nat, offset: nat, ghost k: nat)
    requires aligned <= target && 32 <= size && maxSub <= MAX_SUBREGION
    ensures k >= 5 && sub == Pow2(k)
    ensures count != 0 ==> sub <= maxSub && Passes(target, aligned, size, sub)
    ensures count != 0 ==> count == Subregions(size, sub) && offset == Offset(target, aligned, sub)
    ensures size <= WRAP_SIZE ==>
      forall j: nat :: 5 <= j && Pow2(j) <= maxSub && (count == 0 || j < k) ==> !Passes(target, aligned, size, Pow2(j))
    ensures count != 0 ==> size <= WRAP_SIZE
  {
    count, offset := 0, 0;
    sub, k := 32, 5;
    Pow2Values();
    while sub <= maxSub
      invariant 5 <= k && sub == Pow2(k) && sub <= 2 * MAX_SUBREGION
      invariant count == 0 && offset == 0
      invariant forall j: nat :: 5 <= j < k ==> !Passes(target, aligned, size, Pow2(j))
      decreases 2 * MAX_SUBREGION - sub
    {
      if target % sub == 0 {
        count := Subregions(size, sub);
        offset := Offset(target, aligned, sub);
        if count + offset > 8 {
          count, offset := 0, 0;
        } else {
          assert k <= 29 by { Pow2Order(k, 29); }
          BreakCount(size, k);
          return;
        }
      }
      assert !Passes(target, aligned, size, Pow2(k));
      sub, k := sub * 2, k + 1;
    }
    forall j: nat | k <= j ensures sub <= Pow2(j) { Pow2Order(k, j); }
  }

  /** A run of subregions that serves, with no smaller one anywhere. */
  ghost predicate Best(s: SearchResult, k: nat, index: nat, target: nat, size: nat)
  {
    && s.Found? && 5 <= k <= 29 && s.count >= 1
    && s.subregionSize == Pow2(k) <= size
    && s.base == index * Pow2(k + 3)
    && Covers(index, k, s.offset, s.count, target, size)
    && Smallest(Pow2(k), target, size) && Shortest(s.count * Pow2(k), target, size)
    && s.count * Pow2(k) < size + Pow2(k)
  }

  lemma FoundIsBest(target: u32, aligned: u32, size: u32, w: nat, z: nat, k: nat, maxSub: nat, s: SearchResult)
    returns (index: nat)
    requires 32 <= size <= WRAP_SIZE && Round(target, aligned, w) && NoneBelow(w, target, size)
    requires Aligned(aligned, z) && 5 <= z <= 32 && LargestTried(z, size, maxSub)
    requires 5 <= k && Pow2(k) <= maxSub && Pow2(k) < WORD && Passes(target, aligned, size, Pow2(k))
    requires forall j: nat :: 5 <= j < k && Pow2(j) <= maxSub ==> !Passes(target, aligned, size, Pow2(j))
    requires s == Found(aligned, Pow2(k), Offset(target, aligned, Pow2(k)), Subregions(size, Pow2(k)))
    ensures Best(s, k, index, target, size)
  {
    index := FoundHere(target, aligned, size, w, z, k, maxSub);
    LargestTriedBound(z, size, maxSub, k);
    Pow2Range(k);
    SubregionsSpec(size, Pow2(k));
  }

  /** The body of the outer loop up to the step back to a coarser base. */
  method TryBase(target: u32, aligned: u32, size: u32, alignedSize: u32, maxBefore: u32, ghost w: nat, ghost z: nat)
    returns (maxSub: u32, s: SearchResult, ghost k: nat, ghost index: nat)
    requires size >= 32 && Round(target, aligned, w) && maxBefore != size
    requires size <= WRAP_SIZE ==> NoneBelow(w, target, size)
    requires Aligned(aligned, z) && z <= 32 && (alignedSize == 0 <==> z == 32)
    requires alignedSize != 0 ==> alignedSize == Pow2(z)
    ensures s.Found? ==> size <= WRAP_SIZE && Best(s, k, index, target, size)
    ensures !s.Found? ==> s.NoRegion?
    ensures s.NoRegion? && size <= WRAP_SIZE ==> NoneBelow(z + 1, target, size)
    ensures maxSub == size ==> 8 * size <= Pow2(z) && size <= MAX_SUBREGION
    ensures z == 32 && size <= MAX_SUBREGION ==> maxSub == size
  {
    s, k, index, maxSub := NoRegion, 0, 0, maxBefore;
    Pow2Values();
    if size <= alignedSize || alignedSize == 0 {
      Pow2Order(5, z);
      if alignedSize == 0 {
        maxSub := 1 * 0x2000_0000;
      } else {
        Pow2Order(z, 31);
        maxSub := alignedSize / 8;
      }
      if maxSub > size {
        maxSub := size;
      }
      assert LargestTried(z, size, maxSub);
      var sub, count, offset;
      sub, count, offset, k := FitSubregion(target, aligned, size, maxSub);
      if count != 0 {
        s := Found(aligned, sub, offset, count);
        index := FoundIsBest(target, aligned, size, w, z, k, maxSub, s);
      } else if size <= WRAP_SIZE {
        FailedRound(target, aligned, size, w, z, maxSub);
      }
    } else {
      SkipRound(target, size, z);
    }
  }

  /** The outer `do`/`while` of `mpu_calc_region`, for every 32-bit address and size. */
  method Search(target: u32, size: u32) returns (s: SearchResult, rounds: nat, ghost k: nat, ghost index: nat)
    ensures size < 32 ==> s.NoRegion?
    ensures size > WRAP_SIZE ==> s.Fatal?
    ensures s.Found? ==> 32 <= size && Best(s, k, index, target, size)
    ensures s.NoRegion? && size >= 32 ==> size <= MAX_SUBREGION && !Coverable(target, size)
    ensures s.Fatal? ==> size > MAX_SUBREGION && (size <= WRAP_SIZE ==> !Coverable(target, size))
    ensures if s.Fatal? then rounds == 1025 else rounds <= 33
  {
    s, rounds, k, index := NoRegion, 0, 0, 0;
    if size < 32 {
      return;
    }
    var aligned: u32, maxSub: u32 := target, 0;
    ghost var w: nat := 0;
    while true
      invariant Round(target, aligned, w) && w <= 33
      invariant size <= WRAP_SIZE ==> NoneBelow(w, target, size)
      invariant w == 33 ==> aligned == 0 && size > MAX_SUBREGION
      invariant maxSub != size
      invariant rounds <= 1024 && (rounds <= w || w == 33)
      decreases 1024 - rounds
    {
      ghost var z := TrailingZeros(aligned);
      StepBack(target, aligned, w);
      var alignedSize := LowestBit(aligned);
      maxSub, s, k, index := TryBase(target, aligned, size, alignedSize, maxSub, w, z);
      if s.NoRegion? {
        aligned := aligned - alignedSize;
        w := z + 1;
      }
      rounds := rounds + 1;
      if rounds > 16 * 64 {
        s := Fatal;
        return;
      }
      if !(s.NoRegion? && maxSub != size) {
        if s.NoRegion? {
          NothingLeft(target, size, z);
        }
        return;
      }
    }
  }
}
