/** `task_root_set_stackguard`: the guard region above the lowest part of a task's stack. */
module StackGuard {
  import opened Bits
  import opened MpuSearch
  import opened MpuRegion

  const ACCESS_PRIVILEGED: nat := 1

  /** The `stackguard` memory of a task table entry. */
  datatype Guard = Guard(address: u32, size: u32, cache: nat, regs: Registers)

  /** `(stackaddr & ~(stacksize - 1)) + stacksize` in 32 bits. */
  function GuardAddress(stackAddr: u32, stackSize: u32): u32
  {
    var mask := WORD - 1 - (stackSize - 1) % WORD;
    AndBound(stackAddr, mask);
    (And(stackAddr, mask) + stackSize) % WORD
  }

  lemma GuardAddressSum(stackAddr: u32, size: u32, down: nat)
    requires 0 < size && And(stackAddr, WORD - size) == down && down + size < WORD
    ensures GuardAddress(stackAddr, size) == down + size
  {
    assert (size - 1) % WORD == size - 1;
    assert WORD - 1 - (size - 1) == WORD - size;
  }

  lemma {:induction false} BitOfRest(n: nat, x: nat, j: nat)
    requires j < n && x < Pow2(n)
    ensures Bit(Pow2(n) - 1 - x, j) == 1 - Bit(x, j)
    decreases n
  {
    if j == 0 {
    } else {
      assert (Pow2(n) - 1 - x) / 2 == Pow2(n - 1) - 1 - x / 2;
      BitOfRest(n - 1, x / 2, j - 1);
    }
  }

  /** For every size: the guard starts the size above the stack address without the bits of the size less one. */
  lemma GuardAddressBits(stackAddr: u32, stackSize: u32, j: nat) returns (down: u32)
    requires 0 < stackSize && j < 32
    ensures GuardAddress(stackAddr, stackSize) == (down + stackSize) % WORD && down <= stackAddr
    ensures Bit(down, j) == if Bit(stackSize - 1, j) == 1 then 0 else Bit(stackAddr, j)
  {
    Pow2Values();
    assert (stackSize - 1) % WORD == stackSize - 1;
    var mask := WORD - 1 - (stackSize - 1);
    AndBound(stackAddr, mask);
    down := And(stackAddr, mask);
    BitOfAnd(stackAddr, mask, j);
    BitOfRest(32, stackSize - 1, j);
  }

  lemma MaskRounds(stackAddr: u32, g: nat)
    requires g <= 32
    ensures Pow2(g) <= WORD && And(stackAddr, WORD - Pow2(g)) == RoundDown(stackAddr, g)
  {
    Pow2Values();
    AndHighMask(stackAddr, g, 32);
  }

  /** For a power-of-two size the guard starts at the first boundary above the stack address. */
  lemma GuardAddressAligned(stackAddr: u32, g: nat)
    requires g <= 28 && Pow2(g) < WORD && stackAddr + Pow2(g) < WORD
    ensures var guard := GuardAddress(stackAddr, Pow2(g));
      Aligned(guard, g) && stackAddr < guard <= stackAddr + Pow2(g)
  {
    RoundDownNear(stackAddr, g);
    RoundDownAligned(stackAddr, g);
    MaskRounds(stackAddr, g);
    GuardAddressSum(stackAddr, Pow2(g), RoundDown(stackAddr, g));
  }

  /** An aligned power-of-two block is its own region, and no other region is shorter. */
  lemma AlignedBlockCovers(addr: u32, g: nat, t: nat)
    requires 5 <= g <= 28 && addr == t * Pow2(g)
    ensures Coverable(addr, Pow2(g)) && InOneHalf(addr, Pow2(g))
    ensures Covers(t / 8, g, t % 8, 1, addr, Pow2(g))
  {
    assert t == 8 * (t / 8) + t % 8;
    assert Fits(t / 8, Pow2(g), t % 8, 1, addr, Pow2(g));
    assert Covers(t / 8, g, t % 8, 1, addr, Pow2(g));
    SmallRegionInHalf(t / 8, g, t % 8, 1, addr, Pow2(g));
  }

  class TaskTable {
    const guards: array<Guard>
    /** `sos_config.mcu.task_mpu_region_offset` */
    const regionOffset: nat
    /** Memory policy of each task's data memory. */
    const dataCache: seq<nat>

    ghost predicate Valid()
    {
      regionOffset + 3 < 16 && |dataCache| == guards.Length && forall i :: 0 <= i < |dataCache| ==> dataCache[i] < 64
    }

    constructor (total: nat, offset: nat, initial: Guard, caches: seq<nat>)
      requires offset + 3 < 16 && |caches| == total && forall i :: 0 <= i < total ==> caches[i] < 64
      ensures Valid() && fresh(guards) && guards.Length == total && dataCache == caches && regionOffset == offset
      ensures forall i :: 0 <= i < total ==> guards[i] == initial
    {
      guards := new Guard[total](_ => initial);
      dataCache, regionOffset := caches, offset;
    }

    /**
     Sets the guard of task `tid`; 0 on success, -1 otherwise. The region is `length` bytes from the guard's start, the
     fewest any region has that covers it, if the guard lies in one half of memory, and no byte otherwise. A
     power-of-two guard size under 512MB always succeeds (short of the top of memory), and the region is exactly the
     guard.
     */
    method SetStackGuard(tid: nat, stackAddr: u32, stackSize: u32) returns (result: int, ghost length: nat)
      requires Valid()
      modifies guards
      ensures Valid() && result in {0, -1}
      ensures result == 0 ==> tid < guards.Length && 32 <= stackSize
      ensures forall i :: 0 <= i < guards.Length && (result != 0 || i != tid) ==> guards[i] == old(guards[i])
      ensures result == 0 ==>
        && guards[tid].address == GuardAddress(stackAddr, stackSize)
        && guards[tid].size == stackSize && guards[tid].cache == dataCache[tid]
      ensures result == 0 ==>
        && stackSize <= length < 2 * stackSize && Shortest(length, guards[tid].address, stackSize)
        && Meaning(guards[tid].regs, InOneHalf(guards[tid].address, stackSize), guards[tid].address, length,
                   ACCESS_PRIVILEGED, dataCache[tid], false)
        && Field(guards[tid].regs.rbar, 4, 1) == 1 && Field(guards[tid].regs.rbar, 0, 4) == 3 + regionOffset
      ensures result == 0 <==>
        tid < guards.Length && 32 <= stackSize <= WRAP_SIZE && Coverable(GuardAddress(stackAddr, stackSize), stackSize)
      ensures tid < guards.Length ==> forall g: nat ::
        5 <= g <= 28 && stackSize == Pow2(g) && stackAddr + stackSize < WORD ==>
        && result == 0
        && stackAddr < guards[tid].address <= stackAddr + stackSize
        && Exactly(guards[tid].regs.rbar, guards[tid].regs.rasr, guards[tid].address, stackSize)
        && AccessField(guards[tid].regs.rasr) == ACCESS_PRIVILEGED
        && ExecuteNeverField(guards[tid].regs.rasr) == 1
    {
      if tid < guards.Length {
        var cache := dataCache[tid];
        var newAddr := GuardAddress(stackAddr, stackSize);
        var ret, regs, fatal := CalcRegion(3 + regionOffset, newAddr, stackSize, ACCESS_PRIVILEGED, cache, false);
        forall g: nat | 5 <= g <= 28 && stackSize == Pow2(g) && stackAddr + stackSize < WORD
          ensures ret == stackSize && stackAddr < newAddr <= stackAddr + stackSize
          ensures Meaning(regs, true, newAddr, stackSize, ACCESS_PRIVILEGED, cache, false)
        {
          PowerOfTwoGuard(stackAddr, g, ret);
        }
        length := ret;
        if ret == 0 {
          return -1, 0;
        }
        guards[tid] := Guard(newAddr, stackSize, cache, regs);
      } else {
        return -1, 0;
      }
      return 0, length;
    }
  }

  lemma PowerOfTwoGuard(stackAddr: u32, g: nat, ret: nat)
    requires 5 <= g <= 28 && Pow2(g) < WORD && stackAddr + Pow2(g) < WORD
    ensures var guard := GuardAddress(stackAddr, Pow2(g));
      && stackAddr < guard <= stackAddr + Pow2(g) && InOneHalf(guard, Pow2(g))
      && 32 <= Pow2(g) <= MAX_SUBREGION && Coverable(guard, Pow2(g))
      && (Shortest(ret, guard, Pow2(g)) && Pow2(g) <= ret ==> ret == Pow2(g))
  {
    GuardAddressAligned(stackAddr, g);
    var guard := GuardAddress(stackAddr, Pow2(g));
    var t := AlignedMultiple(guard, g);
    AlignedBlockCovers(guard, g, t);
    Pow2Range(g);
  }
}
