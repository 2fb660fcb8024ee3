/** allocator/pool_memory.c: the static pool, bitmap and hint, updated in place.
    RAM is one byte array; the pool occupies ram[base..base + 4096].  An address is
    an index into RAM, 0 stands for NULL. */
module PoolAllocator {
  import opened PackedBitmap
  import opened Common
  import opened PoolSpec
  import PoolRuns

  const NULL: nat := 0
  const POOL_ERR_OUT_OF_MEMORY: int := -2
  const POOL_ERR_POINTER_OUT_OF_RANGE: int := -4
  const POOL_ERR_ALLOCATION_FAILED: int := -5
  const POOL_ERR_INVALID_ARGUMENT: int := -6

  class PoolMemory {
    const ram: array<bv8>
    const base: nat
    const bitmap: array<bv8>
    var lastFree: nat
    var initialized: bool
    ghost var used: seq<bool>              // the map the bitmap packs
    ghost var live: seq<PoolRuns.Region>   // what was granted and not yet freed

    ghost predicate Valid()
      reads this, bitmap
    {
      && bitmap.Length == BLOCKS / 8
      && bitmap != ram
      && 0 < base && base + BLOCKS <= ram.Length
      && lastFree < BLOCKS
      && Packs(bitmap[..], used)
    }

    ghost function State(): (p: Pool)
      reads this, bitmap
      requires Valid()
      ensures WellFormed(p)
    {
      Pool(used, lastFree, initialized)
    }

    /** The pool and its live regions: each method makes the step that PoolRuns gives it, so a client whose
        frees are of live regions stays safe. */
    ghost function World(): (w: PoolRuns.World)
      reads this, bitmap
      requires Valid()
    {
      PoolRuns.World(State(), live)
    }

    /** The address of a placement. */
    ghost function Address(at: Option<nat>): nat {
      match at
      case None => NULL
      case Some(s) => base + s
    }

    constructor (ram: array<bv8>, base: nat)
      requires 0 < base && base + BLOCKS <= ram.Length
      ensures Valid() && fresh(bitmap)
      ensures this.ram == ram && this.base == base
      ensures State() == Cleared(false) && World() == PoolRuns.Start()
    {
      this.ram := ram;
      this.base := base;
      bitmap := new bv8[BLOCKS / 8](_ => 0);
      lastFree := 0;
      initialized := false;
      used, live := seq(BLOCKS, _ => false), [];
      new;
      PacksZero(bitmap[..]);
    }

    method Test(i: nat) returns (u: bool)
      requires Valid() && i < BLOCKS
      ensures u == used[i]
    {
      assert used[i] == BitAt(bitmap[..], i);
      u := TestBit(bitmap[i / 8], i % 8);
    }

    method SetUsed(i: nat, v: bool)
      requires Valid() && i < BLOCKS
      modifies `used, bitmap
      ensures Valid() && used == old(used)[i := v]
    {
      UpdateBit(bitmap[..], used, i, v);
      bitmap[i / 8] := if v then SetBit(bitmap[i / 8], i % 8) else ClearBit(bitmap[i / 8], i % 8);
      used := used[i := v];
      assert bitmap[..] == old(bitmap[..])[i / 8 := bitmap[i / 8]];
    }

    /** One pass of the search: a single sweep with a counter of consecutive free blocks
        finds what the naive search finds. */
    method Scan(lo: nat, hi: nat, blocksNeeded: nat) returns (at: Option<nat>)
      requires Valid() && lo <= hi <= BLOCKS
      ensures at == FirstFit(used, lo, hi, Sought(blocksNeeded))
    {
      ghost var m := Sought(blocksNeeded);
      var consecutiveFree, firstFree := 0, 0;
      var i := lo;
      while i < hi
        invariant Scanned(used, lo, hi, m, i, consecutiveFree)
        invariant consecutiveFree > 0 ==> firstFree == i - consecutiveFree
      {
        var u := Test(i);
        if !u {
          if consecutiveFree == 0 {
            firstFree := i;
          }
          consecutiveFree := consecutiveFree + 1;
          if consecutiveFree >= blocksNeeded {
            ScanHit(used, lo, hi, m, i, consecutiveFree);
            return Some(firstFree);
          }
        } else {
          SkipBlocked(used, i - consecutiveFree, hi, m, i);
          consecutiveFree := 0;
        }
        i := i + 1;
      }
      at := None;
    }

    /** The marking loop (and the clearing loop) over [first, first + n). */
    method FillBits(first: nat, n: nat, v: bool)
      requires Valid() && first + n <= BLOCKS
      modifies `used, bitmap
      ensures Valid() && used == Fill(old(used), first, n, v)
    {
      ghost var before := used;
      var i := first;
      while i < first + n
        invariant first <= i <= first + n
        invariant Valid() && used == Fill(before, first, i - first, v)
      {
        SetUsed(i, v);
        i := i + 1;
        assert used == Fill(before, first, i - first, v);
      }
      assert n == 0 ==> Fill(before, first, n, v) == before;
    }

    /** The tail of a successful pool_alloc: mark the run, move the hint. */
    method Claim(first: nat, n: nat)
      requires Valid() && first + n <= BLOCKS
      modifies `lastFree, `used, bitmap
      ensures Valid()
      ensures used == Fill(old(used), first, n, true)
      ensures lastFree == HintAfter(used, first + n)
    {
      FillBits(first, n, true);
      ghost var marked := used;
      var hint := first + n;
      while hint < BLOCKS
        invariant first + n <= hint <= BLOCKS
        invariant Valid() && used == marked
        invariant FirstFreeFrom(used, first + n) == FirstFreeFrom(used, hint)
      {
        var u := Test(hint);
        if !u {
          break;
        }
        hint := hint + 1;
      }
      lastFree := if hint >= BLOCKS then 0 else hint;
    }

    /** pool_alloc: two passes, [hint, BLOCKS) and then [0, hint); the first hit is claimed. */
    method Alloc(size: nat) returns (p: nat)
      requires Valid() && size < UINT32
      modifies `lastFree, `used, `live, bitmap
      ensures Valid()
      ensures State() == AllocNext(old(State()), size)
      ensures p == Address(Placement(old(State()), size))
      ensures World() == PoolRuns.Step(old(World()), PoolRuns.Alloc(size))
    {
      var blocksNeeded := Blocks16(size);
      if blocksNeeded > BLOCKS {
        return NULL;
      }
      var at := Scan(lastFree, BLOCKS, blocksNeeded);
      if at == None {
        at := Scan(0, lastFree, blocksNeeded);
      }
      match at
      case None => p := NULL;
      case Some(first) =>
        PlacementIsFree(State(), size);
        Claim(first, blocksNeeded);
        if blocksNeeded > 0 {
          live := live + [PoolRuns.Region(first, blocksNeeded)];
        }
        p := base + first;
    }

    method ZeroBitmap()
      requires bitmap.Length == BLOCKS / 8
      modifies `used, bitmap
      ensures Packs(bitmap[..], used) && used == Cleared(false).used
    {
      forall j | 0 <= j < bitmap.Length {
        bitmap[j] := 0;
      }
      PacksZero(bitmap[..]);
      used := seq(BLOCKS, _ => false);
    }

    /** pool_init */
    method Init()
      requires Valid()
      modifies this, bitmap
      ensures Valid()
      ensures State() == InitNext(old(State()))
      ensures World() == PoolRuns.Step(old(World()), PoolRuns.Init)
    {
      if initialized {
        return;
      }
      live := [];
      lastFree := 0;
      initialized := true;
      ZeroBitmap();
    }

    /** pool_free: nothing at all happens unless the pool was initialised. */
    method FreeAll()
      requires Valid()
      modifies this, bitmap, ram
      ensures Valid()
      ensures State() == FreeAllNext(old(State()))
      ensures World() == PoolRuns.Step(old(World()), PoolRuns.FreeAll)
      ensures forall a :: 0 <= a < ram.Length ==>
                ram[a] == if old(initialized) && base <= a < base + BLOCKS then 0 else old(ram[a])
    {
      if !initialized {
        return;
      }
      live := [];
      ZeroBitmap();
      ghost var zeroed := bitmap[..];
      forall a | base <= a < base + BLOCKS {
        ram[a] := 0;
      }
      assert bitmap[..] == zeroed;
      lastFree := 0;
      initialized := false;
    }

    /** pool_free_region, without the books. */
    method ClearRegion(p: nat, size: nat) returns (status: int)
      requires Valid() && size < UINT32
      modifies `lastFree, `used, bitmap
      ensures Valid()
      ensures p == NULL || size == 0 ==>
                status == POOL_ERR_INVALID_ARGUMENT && State() == old(State())
      ensures p != NULL && size != 0 && !(base <= p < base + BLOCKS) ==>
                status == POOL_ERR_POINTER_OUT_OF_RANGE && State() == old(State())
      ensures p != NULL && size != 0 && base <= p < base + BLOCKS ==>
                && status == (if FreeAccepted(p - base, size) then 0 else POOL_ERR_OUT_OF_MEMORY)
                && State() == FreeNext(old(State()), p - base, size)
    {
      if p == NULL || size == 0 {
        return POOL_ERR_INVALID_ARGUMENT;
      }
      if p < base || p >= base + BLOCKS {
        return POOL_ERR_POINTER_OUT_OF_RANGE;
      }
      var firstBlock := p - base;
      var lastBlock := LastBlock16(firstBlock, size);
      if lastBlock >= BLOCKS {
        return POOL_ERR_OUT_OF_MEMORY;
      }
      ghost var before := State();
      var i := firstBlock;
      while i <= lastBlock
        invariant firstBlock <= i && (i <= lastBlock + 1 || i == firstBlock)
        invariant Valid() && initialized == before.initialized
        invariant used == Fill(before.used, firstBlock, i - firstBlock, false)
        invariant lastFree == if i > firstBlock && firstBlock < before.hint then firstBlock else before.hint
        decreases lastBlock + 1 - i
      {
        var u := Test(i);
        if u {
          SetUsed(i, false);
        }
        if i < lastFree {
          lastFree := firstBlock;
        }
        i := i + 1;
        assert used == Fill(before.used, firstBlock, i - firstBlock, false);
      }
      status := 0;
    }

    /** pool_free_region.  Freeing a live region whole is the step of PoolRuns. */
    method FreeRegion(p: nat, size: nat) returns (status: int)
      requires Valid() && size < UINT32
      modifies `lastFree, `used, `live, bitmap
      ensures Valid()
      ensures status == 0 ==> base <= p && live == PoolRuns.Drop(old(live), PoolRuns.Region(p - base, size))
      ensures status != 0 ==> live == old(live)
      ensures forall k :: PoolRuns.FreesLive(old(World()), k, p - base, size) ==>
                status == 0 && World() == PoolRuns.Step(old(World()), PoolRuns.FreeLive(k))
      ensures p == NULL || size == 0 ==>
                status == POOL_ERR_INVALID_ARGUMENT && State() == old(State())
      ensures p != NULL && size != 0 && !(base <= p < base + BLOCKS) ==>
                status == POOL_ERR_POINTER_OUT_OF_RANGE && State() == old(State())
      ensures p != NULL && size != 0 && base <= p < base + BLOCKS ==>
                && status == (if FreeAccepted(p - base, size) then 0 else POOL_ERR_OUT_OF_MEMORY)
                && State() == FreeNext(old(State()), p - base, size)
    {
      ghost var w, first := World(), p - base;
      forall k | PoolRuns.FreesLive(w, k, first, size)
        ensures 0 <= first < BLOCKS && 1 <= size && FreeAccepted(first, size)
        ensures PoolRuns.Drop(w.live, PoolRuns.Region(first, size)) == PoolRuns.Without(w.live, k)
      {
        PoolRuns.LiveIsAccepted(w, k, first, size);
        PoolRuns.DroppedIsFreed(w, k, first, size);
      }
      status := ClearRegion(p, size);
      if status == 0 {
        live := PoolRuns.Drop(live, PoolRuns.Region(p - base, size));
      }
    }
  }

  /** Packed bytes before a granted pool_alloc and after freeing its result are equal, byte for byte. */
  lemma AllocFreeRestoresBytes(p: Pool, size: nat, before: seq<bv8>, after: seq<bv8>)
    requires WellFormed(p) && 1 <= size <= BLOCKS && Placement(p, size).Some?
    requires Packs(before, p.used)
    requires
      var s := Placement(p, size).value;
      s < BLOCKS && Packs(after, FreeNext(AllocNext(p, size), s, size).used)
    ensures before == after
  {
    AllocThenFree(p, size);
    PackingIsUnique(before, after, p.used);
  }
}
