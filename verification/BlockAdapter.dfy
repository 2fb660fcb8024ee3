/** middleware/sd_fat32.c, lines 116-236: sector requests turned into 512-byte block transfers, with
    retries, and a read-modify-write of a partial tail block in a temporary from the pool. */
module BlockAdapter {
  import opened Common
  import opened PoolSpec
  import opened PoolAllocator
  import PoolRuns
  import opened SdTransfer
  import opened SdioFifo
  import opened ByteStore
  import opened FlatStore
  import opened Runs

  const DEFAULT_TIMEOUT: nat := 1000000
  const READ_ATTEMPTS: nat := 5
  const WRITE_ATTEMPTS: nat := 3

  /** The 32-bit arithmetic of both requests. */
  function BlockStart(start: nat, size: nat): (b: nat)
    ensures b < 0x80_0000
  {
    (start * size) % UINT32 / BLOCK
  }

  function TotalBytes(count: nat, size: nat): (n: nat)
    ensures n < UINT32
  {
    (count * size) % UINT32
  }

  /** The request lands on the bytes it names iff both products fit in 32 bits and the start is on a
      block boundary. */
  lemma RequestIsExact(count: nat, start: nat, size: nat)
    ensures (BLOCK * BlockStart(start, size) == start * size && TotalBytes(count, size) == count * size)
       <==> (start * size < UINT32 && (start * size) % BLOCK == 0 && count * size < UINT32)
  {
    var p := (start * size) % UINT32;
    assert BLOCK * (p / BLOCK) == p - p % BLOCK;
    if BLOCK * BlockStart(start, size) == start * size {
      assert start * size <= p < UINT32;
      assert p == start * size;
    }
  }

  /** Sector 8388608 of 512 bytes, the first one past 4 GiB, is block 0 of the card. */
  lemma SectorsAliasAt4GiB()
    ensures BlockStart(0x80_0000, 512) == 0 && TotalBytes(1, 512) == 512
    ensures BLOCK * BlockStart(0x80_0000, 512) != 0x80_0000 * 512
  {
  }

  /** How many transfers a request takes when none is repeated, but for the read inside a tail write. */
  function Transfers(full: nat, rem: nat): nat { (if full > 0 then 1 else 0) + if rem > 0 then 1 else 0 }

  /** A byte of RAM the caller may own: outside the pool, or in an allocated block. */
  ghost predicate Owns(used: seq<bool>, base: nat, a: nat)
    requires |used| == BLOCKS
  {
    !(base <= a < base + BLOCKS) || used[a - base]
  }

  /** Owned bytes and a stretch of free pool blocks have nothing in common. */
  lemma OwnedMissesFree(used: seq<bool>, base: nat, a: nat, n: nat, tmp: nat)
    requires |used| == BLOCKS && 0 < n && forall i :: a <= i < a + n ==> Owns(used, base, i)
    requires base <= tmp && tmp + BLOCK <= base + BLOCKS && FreeRun(used, tmp - base, BLOCK)
    ensures a + n <= tmp || tmp + BLOCK <= a
  {
    var i := if a < tmp then tmp else a;
    assert a <= i < a + n ==> Owns(used, base, i);
  }

  class SdAdapter {
    const drv: SdDriver
    const pool: PoolMemory
    ghost var states: seq<seq<bv8>>
    ghost var log: seq<IoEvent>
    ghost var plain: bool        // all requests so far were plain, from a state with no DATAEND up or to come

    /** The driver and the pool work, on the same RAM; a byte-addressed card is at most 2 GiB. */
    ghost predicate Ready()
      reads this, drv, drv.host, drv.hw, pool, pool.bitmap
    {
      && drv.Valid() && pool.Valid()
      && pool.ram == drv.ram
      && (drv.byteAddressed ==> |drv.store| <= 0x8000_0000)
    }

    /** And the log of requests explains what the card holds; on prompt hardware without a start-bit error
        every report in it is honest; and a run of plain requests is clean. */
    ghost predicate Valid()
      reads this, drv, drv.host, drv.hw, pool, pool.bitmap
    {
      && Ready() && History(Happens, states, log) && states[|log|] == drv.store
      && (drv.hw.prompt && STBITERR !in drv.hw.flags ==> AllHonest(log))
      && (plain ==> drv.hw.NoDataEndToCome() && AllClean(log))
    }

    constructor (drv: SdDriver, pool: PoolMemory)
      requires drv.Valid() && pool.Valid() && pool.ram == drv.ram
      requires drv.byteAddressed ==> |drv.store| <= 0x8000_0000
      ensures Valid() && this.drv == drv && this.pool == pool && log == [] && states == [drv.store]
      ensures plain == drv.hw.NoDataEndToCome()
    {
      this.drv, this.pool := drv, pool;
      states, log, plain := [drv.store], [], drv.hw.NoDataEndToCome();
    }

    ghost predicate OwnedRange(a: nat, n: nat)
      reads pool, pool.bitmap
      requires pool.Valid()
    {
      a + n <= pool.ram.Length && forall i :: a <= i < a + n ==> Owns(pool.used, pool.base, i)
    }

    /** No RAM the caller owns has changed, except possibly [lo, hi). */
    twostate predicate OwnedKept(lo: nat, hi: nat)
      reads pool, pool.bitmap, drv.ram
      requires pool.Valid()
    {
      forall a :: 0 <= a < drv.ram.Length && Owns(pool.used, pool.base, a) && !(lo <= a < hi) ==>
        drv.ram[a] == old(drv.ram[a])
    }

    /** The same blocks are allocated, to the same regions. */
    twostate predicate PoolKept()
      reads pool
    {
      pool.used == old(pool.used) && pool.live == old(pool.live)
    }

    /** No transfer was reported complete on an end flag that was up before it. */
    twostate predicate NotMisled()
      reads drv.hw
    {
      drv.hw.misled == old(drv.hw.misled)
    }

    /** Nor has a start-bit error come up: what a write needs besides its status. */
    twostate predicate Sound()
      reads drv.hw
    {
      NotMisled() && STBITERR !in drv.hw.flags
    }

    /** Transfers are counted; misled ones too, and prompt hardware has none; a start-bit error stays. */
    twostate predicate Carried()
      reads drv.hw
    {
      && old(drv.hw.starts) <= drv.hw.starts && old(drv.hw.misled) <= drv.hw.misled
      && (drv.hw.prompt ==> NotMisled())
      && (STBITERR in old(drv.hw.flags) ==> STBITERR in drv.hw.flags)
    }

    /** A read of `count` blocks, repeated until it succeeds: it is not misled when the flag it waits for was
        neither up nor to come and one transfer was enough, and then leaves it so. */
    twostate predicate ReadOnce(done: bool, count: nat)
      reads drv, drv.hw
    {
      done ==>
        && old(drv.hw.starts) < drv.hw.starts
        && (old(drv.ReadWillBeFresh(count)) && drv.hw.starts <= old(drv.hw.starts) + 1 ==> NotMisled())
        && (NotMisled() ==> drv.ReadWillBeFresh(count))
    }

    /** A read of `full` blocks and then `rem` bytes is not misled when the flag its first transfer waits for was
        neither up nor to come, no transfer was repeated, and the second, if any, waits for the same flag. */
    twostate predicate ReadSteadily(done: bool, full: nat, rem: nat)
      reads drv, drv.hw
    {
      && done && full + rem > 0 && (rem == 0 || full <= 1)
      && old(drv.ReadWillBeFresh(if full > 0 then full else 1))
      && drv.hw.starts <= old(drv.hw.starts) + Transfers(full, rem)
      ==> NotMisled()
    }

    /** ReadOnce for a write. */
    twostate predicate WrittenOnce(done: bool)
      reads drv, drv.hw
    {
      done ==>
        && old(drv.hw.starts) < drv.hw.starts
        && (old(drv.hw.NoDataEndToCome()) && drv.hw.starts <= old(drv.hw.starts) + 1 ==> NotMisled())
        && (Sound() ==> drv.hw.NoDataEndToCome())
    }

    /** What n tries of a request leave behind: failures, and then what the last one came to. */
    static ghost function Outcomes(n: nat, done: bool): seq<bool>
      requires n > 0
    {
      seq(n - 1, _ => false) + [done]
    }

    static lemma NextOutcome(calls: seq<bool>, n: nat, done: bool)
      requires n > 0
      ensures calls + seq(n - 1, _ => false) + [done] == calls + Outcomes(n, done)
      ensures !done ==> calls + Outcomes(n, done) == calls + seq(n, _ => false)
    {
      assert !done ==> Outcomes(n, done) == seq(n, _ => false);
    }

    /** The last request made to the driver failed. */
    twostate predicate GaveUp()
      reads drv
    {
      |drv.calls| > |old(drv.calls)| && !drv.calls[|drv.calls| - 1]
    }

    /** No block of the pool was free for a temporary. */
    ghost predicate NoTemp()
      reads pool, pool.bitmap
      requires pool.Valid()
    {
      Placement(pool.State(), BLOCK) == None
    }

    /** No transfer at all. */
    twostate predicate NoTransfer()
      reads drv, drv.hw
    {
      drv.hw.starts == old(drv.hw.starts) && NotMisled() && drv.hw.FreshnessKept() && drv.calls == old(drv.calls)
    }

    lemma OwnedSubrange(a: nat, n: nat, b: nat, m: nat)
      requires pool.Valid() && OwnedRange(a, n) && a <= b && b + m <= a + n
      ensures OwnedRange(b, m)
    {
    }

    /** read_safe_sd */
    method ReadSafe(buffer: nat, count: nat, block: nat) returns (status: int, ghost tries: nat)
      requires Ready() && count > 0 && buffer + BLOCK * count <= drv.ram.Length && block < UINT32
      modifies drv.host`trace, drv.host`rcas, drv.host`state, drv.hw, drv`calls, drv.ram
      ensures drv.Valid() && drv.hw.starts <= old(drv.hw.starts) + READ_ATTEMPTS
      ensures drv.Untouched(buffer, buffer + BLOCK * count)
      ensures Carried() && (STBITERR in old(drv.hw.flags) ==> status != 0)
      ensures ReadOnce(status == 0, count)
      ensures status == 0 && NotMisled() ==>
                && drv.Target(block) + BLOCK * count <= |drv.store|
                && drv.ram[buffer..buffer + BLOCK * count]
                   == drv.store[drv.Target(block)..drv.Target(block) + BLOCK * count]
      ensures 1 <= tries <= 5 && (status != 0 ==> tries == 5)
      ensures drv.calls == old(drv.calls) + Outcomes(tries, status == 0)
    {
      status, tries := 0, 0;
      for attempt := 0 to READ_ATTEMPTS
        invariant drv.Valid() && drv.Untouched(buffer, buffer + BLOCK * count)
        invariant drv.hw.starts <= old(drv.hw.starts) + attempt
        invariant Carried() && NotMisled() && (drv.hw.starts == old(drv.hw.starts) ==> drv.hw.FreshnessKept())
        invariant tries == attempt && drv.calls == old(drv.calls) + seq(attempt, _ => false)
        invariant attempt > 0 ==> status != 0
      {
        status := drv.ReadMultiBlock(buffer, count, block, DEFAULT_TIMEOUT);
        tries := tries + 1;
        NextOutcome(old(drv.calls), tries, status == 0);
        if status == 0 {
          return;
        }
      }
    }

    /** write_safe_sd: whatever a failed attempt left in the target range, the successful one decides. */
    method WriteSafe(data: nat, count: nat, block: nat) returns (status: int, ghost tries: nat)
      requires Ready() && count > 0 && data + BLOCK * count <= drv.ram.Length && block < UINT32
      modifies drv.host`trace, drv.host`rcas, drv.host`state, drv.hw, drv`calls, drv`store
      ensures drv.Valid() && drv.hw.starts <= old(drv.hw.starts) + WRITE_ATTEMPTS
      ensures SameOutside(old(drv.store), drv.store, drv.Target(block), drv.Target(block) + BLOCK * count)
      ensures Carried() && WrittenOnce(status == 0)
      ensures status == 0 && Sound() ==>
                Written(old(drv.store), drv.store, drv.Target(block), drv.ram[data..data + BLOCK * count])
      ensures 1 <= tries <= 3 && (status != 0 ==> tries == 3)
      ensures drv.calls == old(drv.calls) + Outcomes(tries, status == 0)
    {
      status, tries := 0, 0;
      for attempt := 0 to WRITE_ATTEMPTS
        invariant drv.Valid() && drv.hw.starts <= old(drv.hw.starts) + attempt
        invariant SameOutside(old(drv.store), drv.store, drv.Target(block), drv.Target(block) + BLOCK * count)
        invariant Carried() && NotMisled() && (drv.hw.starts == old(drv.hw.starts) ==> drv.hw.FreshnessKept())
        invariant tries == attempt && drv.calls == old(drv.calls) + seq(attempt, _ => false)
        invariant attempt > 0 ==> status != 0
      {
        ghost var before := drv.store;
        status := drv.WriteMultiBlock(data, count, block, DEFAULT_TIMEOUT);
        tries := tries + 1;
        NextOutcome(old(drv.calls), tries, status == 0);
        if status == 0 {
          ghost var bytes := drv.ram[data..data + BLOCK * count];
          if Sound() {
            SpliceForgets(old(drv.store), before, drv.Target(block), bytes);
          }
          return;
        }
      }
    }

    /** pool_alloc(block_size): a block of free pool bytes, or NULL with nothing changed. */
    method AllocTemp() returns (tmp: nat)
      requires pool.Valid()
      modifies pool`lastFree, pool`used, pool`live, pool.bitmap
      ensures pool.Valid()
      ensures tmp == NULL <==> old(NoTemp())
      ensures tmp == NULL ==> pool.used == old(pool.used) && pool.live == old(pool.live)
      ensures tmp != NULL ==>
                && pool.base <= tmp && tmp + BLOCK <= pool.base + BLOCKS
                && pool.live == old(pool.live) + [PoolRuns.Region(tmp - pool.base, BLOCK)]
                && FreeRun(old(pool.used), tmp - pool.base, BLOCK)
                && pool.used == Fill(old(pool.used), tmp - pool.base, BLOCK, true)
    {
      PlacementIsFree(pool.State(), BLOCK);
      assert Blocks16(BLOCK) == BLOCK;
      tmp := pool.Alloc(BLOCK);
    }

    /** pool_free_region(tmp_block, block_size): the pool is as before the allocation. */
    method FreeTemp(tmp: nat, ghost used: seq<bool>, ghost live: seq<PoolRuns.Region>)
      requires pool.Valid()
      requires pool.base <= tmp && tmp + BLOCK <= pool.base + BLOCKS
      requires |used| == BLOCKS && FreeRun(used, tmp - pool.base, BLOCK)
      requires pool.used == Fill(used, tmp - pool.base, BLOCK, true)
      requires pool.live == live + [PoolRuns.Region(tmp - pool.base, BLOCK)]
      modifies pool`lastFree, pool`used, pool`live, pool.bitmap
      ensures pool.Valid() && pool.used == used && pool.live == live
    {
      FreeClearsRequest(tmp - pool.base, BLOCK);
      PoolRuns.DropLast(live, PoolRuns.Region(tmp - pool.base, BLOCK));
      var _ := pool.FreeRegion(tmp, BLOCK);
      assert pool.used == used;
    }

    /** memcpy, whose operands must not overlap. */
    method MemCopy(dst: nat, src: nat, n: nat)
      requires dst + n <= drv.ram.Length && src + n <= drv.ram.Length
      requires dst + n <= src || src + n <= dst
      modifies drv.ram
      ensures drv.ram[dst..dst + n] == old(drv.ram[src..src + n])
      ensures drv.Untouched(dst, dst + n)
    {
      forall i | 0 <= i < n {
        drv.ram[dst + i] := drv.ram[src + i];
      }
    }

    /** A block in RAM, cut in two, against the block on the card. */
    lemma CutBlock(tmp: nat, rem: nat, block: nat)
      requires rem < BLOCK && tmp + BLOCK <= drv.ram.Length && drv.Target(block) + BLOCK <= |drv.store|
      requires drv.ram[tmp..tmp + BLOCK] == drv.store[drv.Target(block)..drv.Target(block) + BLOCK]
      ensures drv.ram[tmp..tmp + rem] == drv.store[drv.Target(block)..drv.Target(block) + rem]
      ensures drv.ram[tmp + rem..tmp + BLOCK] == drv.store[drv.Target(block) + rem..drv.Target(block) + BLOCK]
    {
      var t := drv.Target(block);
      CutSlice(drv.store, t, t + rem, t + BLOCK);
      CutRam(drv.ram, tmp, tmp + rem, tmp + BLOCK);
      SameCut(drv.ram[tmp..tmp + rem], drv.ram[tmp + rem..tmp + BLOCK], drv.store[t..t + rem],
        drv.store[t + rem..t + BLOCK]);
    }

    /** The block is read into the temporary and its front copied out. */
    method FetchBlock(tmp: nat, buffer: nat, rem: nat, block: nat) returns (status: int)
      requires Ready() && 0 < rem < BLOCK && block < UINT32
      requires tmp + BLOCK <= drv.ram.Length && buffer + rem <= drv.ram.Length
      requires buffer + rem <= tmp || tmp + BLOCK <= buffer
      modifies drv.host`trace, drv.host`rcas, drv.host`state, drv.hw, drv`calls, drv.ram
      ensures drv.Valid()
      ensures Carried() && (STBITERR in old(drv.hw.flags) ==> status != 0) && ReadOnce(status == 0, 1)
      ensures forall a :: 0 <= a < drv.ram.Length && !(tmp <= a < tmp + BLOCK) && !(buffer <= a < buffer + rem) ==>
        drv.ram[a] == old(drv.ram[a])
      ensures status == 0 && NotMisled() ==>
                && drv.Target(block) + rem <= |drv.store|
                && drv.ram[buffer..buffer + rem] == drv.store[drv.Target(block)..drv.Target(block) + rem]
      ensures status != 0 ==> GaveUp()
    {
      ghost var tries;
      status, tries := ReadSafe(tmp, 1, block);
      if status == 0 {
        if NotMisled() {
          CutBlock(tmp, rem, block);
        }
        MemCopy(buffer, tmp, rem);
      }
    }

    /** read_sd, lines 151-166: the partial tail block. */
    method ReadTail(buffer: nat, rem: nat, block: nat) returns (status: int)
      requires Ready() && 0 < rem < BLOCK && block < UINT32 && OwnedRange(buffer, rem)
      modifies drv.host`trace, drv.host`rcas, drv.host`state, drv.hw, drv`calls, drv.ram, pool`lastFree, pool`used,
        pool`live, pool.bitmap
      ensures Ready() && PoolKept()
      ensures Carried() && (STBITERR in old(drv.hw.flags) ==> status != 0) && ReadOnce(status == 0, 1)
      ensures OwnedKept(buffer, buffer + rem)
      ensures status == 0 && NotMisled() ==>
                && drv.Target(block) + rem <= |drv.store|
                && drv.ram[buffer..buffer + rem] == drv.store[drv.Target(block)..drv.Target(block) + rem]
      ensures status != 0 ==> GaveUp() || (status == POOL_ERR_ALLOCATION_FAILED && old(NoTemp()))
    {
      ghost var used, live := pool.used, pool.live;
      forall i | buffer <= i < buffer + rem
        ensures Owns(used, pool.base, i)
      {
        assert Owns(pool.used, pool.base, i);
      }
      var tmp := AllocTemp();
      if tmp == NULL {
        return POOL_ERR_ALLOCATION_FAILED;
      }
      OwnedMissesFree(used, pool.base, buffer, rem, tmp);
      status := FetchBlock(tmp, buffer, rem, block);
      FreeTemp(tmp, used, live);
    }

    /** memcpy over the front of the temporary. */
    method Overlay(tmp: nat, data: nat, rem: nat)
      requires 0 < rem < BLOCK
      requires tmp + BLOCK <= drv.ram.Length && data + rem <= drv.ram.Length
      requires data + rem <= tmp || tmp + BLOCK <= data
      modifies drv.ram
      ensures drv.Untouched(tmp, tmp + BLOCK)
      ensures drv.ram[tmp..tmp + BLOCK] == old(drv.ram[data..data + rem]) + old(drv.ram[tmp + rem..tmp + BLOCK])
    {
      MemCopy(tmp, data, rem);
      assert drv.ram[tmp + rem..tmp + BLOCK] == old(drv.ram[tmp + rem..tmp + BLOCK]);
      CutRam(drv.ram, tmp, tmp + rem, tmp + BLOCK);
    }

    /** The block as read, with the caller's bytes in front. */
    method LoadPatched(tmp: nat, data: nat, rem: nat, block: nat) returns (status: int)
      requires Ready() && 0 < rem < BLOCK && block < UINT32
      requires tmp + BLOCK <= drv.ram.Length && data + rem <= drv.ram.Length
      requires data + rem <= tmp || tmp + BLOCK <= data
      modifies drv.host`trace, drv.host`rcas, drv.host`state, drv.hw, drv`calls, drv.ram
      ensures drv.Valid()
      ensures Carried()
      ensures drv.Untouched(tmp, tmp + BLOCK)
      ensures status == 0 && NotMisled() ==>
                && drv.Target(block) + BLOCK <= |drv.store|
                && drv.ram[tmp..tmp + BLOCK]
                   == old(drv.ram[data..data + rem]) + drv.store[drv.Target(block) + rem..drv.Target(block) + BLOCK]
      ensures status != 0 ==> GaveUp()
      ensures old(drv.calls) <= drv.calls
    {
      status := drv.ReadMultiBlock(tmp, 1, block, DEFAULT_TIMEOUT);
      if status != 0 {
        return;
      }
      assert drv.ram[data..data + rem] == old(drv.ram[data..data + rem]);
      if NotMisled() {
        CutBlock(tmp, rem, block);
      }
      Overlay(tmp, data, rem);
    }

    /** The patched block goes back: only the patch changes. */
    method StorePatched(tmp: nat, block: nat, ghost bytes: seq<bv8>, ghost loaded: bool) returns (status: int)
      requires Ready() && block < UINT32 && tmp + BLOCK <= drv.ram.Length && |bytes| < BLOCK
      requires loaded ==>
                 && drv.Target(block) + BLOCK <= |drv.store|
                 && drv.ram[tmp..tmp + BLOCK]
                    == bytes + drv.store[drv.Target(block) + |bytes|..drv.Target(block) + BLOCK]
      modifies drv.host`trace, drv.host`rcas, drv.host`state, drv.hw, drv`calls, drv`store
      ensures drv.Valid() && Carried()
      ensures SameOutside(old(drv.store), drv.store, drv.Target(block), drv.Target(block) + BLOCK)
      ensures status == 0 && loaded && Sound() ==> Written(old(drv.store), drv.store, drv.Target(block), bytes)
      ensures status != 0 ==> GaveUp()
    {
      ghost var tries;
      status, tries := WriteSafe(tmp, 1, block);
      if status == 0 && loaded && Sound() {
        SplicePatch(old(drv.store), drv.Target(block), bytes, BLOCK);
      }
    }

    /** The read-modify-write itself, in a temporary that does not overlap the data. */
    method PatchBlock(tmp: nat, data: nat, rem: nat, block: nat) returns (status: int)
      requires Ready() && 0 < rem < BLOCK && block < UINT32
      requires tmp + BLOCK <= drv.ram.Length && data + rem <= drv.ram.Length
      requires data + rem <= tmp || tmp + BLOCK <= data
      modifies drv.host`trace, drv.host`rcas, drv.host`state, drv.hw, drv`calls, drv.ram, drv`store
      ensures drv.Valid() && |drv.store| == |old(drv.store)|
      ensures Carried()
      ensures drv.Untouched(tmp, tmp + BLOCK)
      ensures SameOutside(old(drv.store), drv.store, drv.Target(block), drv.Target(block) + BLOCK)
      ensures status == 0 && Sound() ==>
                && drv.Target(block) + BLOCK <= |drv.store|
                && Written(old(drv.store), drv.store, drv.Target(block), old(drv.ram[data..data + rem]))
      ensures status != 0 ==> GaveUp()
    {
      status := LoadPatched(tmp, data, rem, block);
      if status == 0 {
        status := StorePatched(tmp, block, old(drv.ram[data..data + rem]), NotMisled());
      }
    }

    /** write_sd, lines 213-233: the tail block is read, patched and written back.  The caller's data
        survives the allocation of the temporary even when it lies in the pool. */
    method WriteTail(data: nat, rem: nat, block: nat) returns (status: int)
      requires Ready() && 0 < rem < BLOCK && block < UINT32 && OwnedRange(data, rem)
      modifies drv.host`trace, drv.host`rcas, drv.host`state, drv.hw, drv`calls, drv.ram, drv`store, pool`lastFree,
        pool`used, pool`live, pool.bitmap
      ensures Ready() && PoolKept()
      ensures Carried()
      ensures OwnedKept(0, 0)
      ensures SameOutside(old(drv.store), drv.store, drv.Target(block), drv.Target(block) + BLOCK)
      ensures status == 0 && Sound() ==>
                && drv.Target(block) + BLOCK <= |drv.store|
                && Written(old(drv.store), drv.store, drv.Target(block), old(drv.ram[data..data + rem]))
      ensures status != 0 ==> GaveUp() || (status == -1 && old(NoTemp()))
    {
      ghost var used, live := pool.used, pool.live;
      forall i | data <= i < data + rem
        ensures Owns(used, pool.base, i)
      {
        assert Owns(pool.used, pool.base, i);
      }
      var tmp := AllocTemp();
      if tmp == NULL {
        return -1;
      }
      OwnedMissesFree(used, pool.base, data, rem, tmp);
      status := PatchBlock(tmp, data, rem, block);
      FreeTemp(tmp, used, live);
    }

    /** Block addresses below 2^23 reach the block they name; so does every block that follows a
        transfer that stayed on the card. */
    lemma BlockReached(block: nat)
      requires drv.byteAddressed ==> block < 0x80_0000
      ensures drv.Target(block) == BLOCK * block
    {
      drv.TargetIsBlock(block);
    }

    /** read_sd, lines 144-149: the full blocks, if any. */
    method ReadFull(buffer: nat, mid: nat, full: nat, start: nat, ghost off: nat, ghost offMid: nat)
      returns (status: int)
      requires Ready() && start < 0x80_0000 && mid == buffer + BLOCK * full && mid <= drv.ram.Length
      requires off == BLOCK * start && offMid == off + BLOCK * full
      modifies drv.host`trace, drv.host`rcas, drv.host`state, drv.hw, drv`calls, drv.ram
      ensures Ready()
      ensures Carried() && (STBITERR in old(drv.hw.flags) ==> status != 0 || full == 0)
      ensures if full > 0 then ReadOnce(status == 0, full) else NoTransfer()
      ensures drv.Untouched(buffer, mid)
      ensures full == 0 ==> status == 0
      ensures status == 0 && NotMisled() && full > 0 ==>
        offMid <= |drv.store| && drv.ram[buffer..mid] == drv.store[off..offMid]
      ensures status != 0 ==> GaveUp()
      ensures old(drv.calls) <= drv.calls
    {
      status := 0;
      BlockReached(start);
      if full > 0 {
        ghost var tries;
        status, tries := ReadSafe(buffer, full, start);
      }
    }

    /** The tail of a read, behind the bytes already delivered to [buffer, mid). */
    method ReadAfter(ghost buffer: nat, mid: nat, end: nat, block: nat, ghost offMid: nat, ghost offEnd: nat)
      returns (status: int)
      requires Ready() && buffer <= mid < end < mid + BLOCK && block < UINT32 && OwnedRange(buffer, end - buffer)
      requires offMid == BLOCK * block && offEnd == offMid + (end - mid)
      modifies drv.host`trace, drv.host`rcas, drv.host`state, drv.hw, drv`calls, drv.ram, pool`lastFree, pool`used,
        pool`live, pool.bitmap
      ensures Ready() && PoolKept()
      ensures Carried() && (STBITERR in old(drv.hw.flags) ==> status != 0) && ReadOnce(status == 0, 1)
      ensures OwnedKept(mid, end)
      ensures status == 0 && NotMisled() && (drv.byteAddressed ==> block < 0x80_0000) ==>
        offEnd <= |drv.store| && drv.ram[buffer..end] == old(drv.ram[buffer..mid]) + drv.store[offMid..offEnd]
      ensures status != 0 ==> GaveUp() || old(NoTemp())
    {
      ghost var used, head := pool.used, drv.ram[buffer..mid];
      OwnedSubrange(buffer, end - buffer, mid, end - mid);
      assert forall i :: buffer <= i < mid ==> Owns(used, pool.base, i);
      if drv.byteAddressed ==> block < 0x80_0000 {
        BlockReached(block);
      }
      status := ReadTail(mid, end - mid, block);
      assert drv.ram[buffer..mid] == head;
      CutRam(drv.ram, buffer, mid, end);
    }

    /** read_sd, from the computed block numbers on: RAM [buffer, mid) and [mid, end) are filled from
        the card's [off, offMid) and [offMid, offEnd). */
    method ReadRange(buffer: nat, mid: nat, end: nat, full: nat, rem: nat, start: nat, ghost off: nat,
      ghost offMid: nat, ghost offEnd: nat)
      returns (status: int)
      requires Ready() && rem < BLOCK && start < 0x80_0000 && full < 0x80_0000
      requires mid == buffer + BLOCK * full && end == mid + rem && OwnedRange(buffer, end - buffer)
      requires off == BLOCK * start && offMid == off + BLOCK * full && offEnd == offMid + rem
      modifies drv.host`trace, drv.host`rcas, drv.host`state, drv.hw, drv`calls, drv.ram, pool`lastFree, pool`used,
        pool`live, pool.bitmap
      ensures Ready() && PoolKept()
      ensures Carried() && (STBITERR in old(drv.hw.flags) ==> status != 0 || buffer == end)
      ensures ReadSteadily(status == 0, full, rem)
      ensures status == 0 && full > 0 && rem == 0 && NotMisled() ==> drv.ReadWillBeFresh(full)
      ensures OwnedKept(buffer, end)
      ensures status == 0 && NotMisled() && buffer < end ==>
        offEnd <= |drv.store| && drv.ram[buffer..end] == drv.store[off..offEnd]
      ensures status != 0 ==> GaveUp() || (rem > 0 && old(NoTemp()))
    {
      status := ReadFull(buffer, mid, full, start, off, offMid);
      if status == 0 && rem > 0 {
        status := ReadAfter(buffer, mid, end, start + full, offMid, offEnd);
        if status == 0 && NotMisled() {
          CutSlice(drv.store, off, offMid, offEnd);
        }
      }
    }

    /** The two ranges of the card a write is aimed at: its full blocks and its tail block. */
    ghost predicate OnlyTargets(s: seq<bv8>, t: seq<bv8>, start: nat, full: nat, rem: nat) {
      && |s| == |t|
      && forall i :: 0 <= i < |s| ==>
           s[i] == t[i]
           || drv.Target(start) <= i < drv.Target(start) + BLOCK * full
           || (rem > 0 && drv.Target(start + full) <= i < drv.Target(start + full) + BLOCK)
    }

    lemma TwoTargets(s: seq<bv8>, mid: seq<bv8>, t: seq<bv8>, start: nat, full: nat, rem: nat)
      requires SameOutside(s, mid, drv.Target(start), drv.Target(start) + BLOCK * full)
      requires t == mid || (rem > 0 && SameOutside(mid, t, drv.Target(start + full), drv.Target(start + full) + BLOCK))
      ensures OnlyTargets(s, t, start, full, rem)
    {
    }

    lemma TwoWrites(s: seq<bv8>, between: seq<bv8>, t: seq<bv8>, off: nat, offMid: nat, head: seq<bv8>, tail: seq<bv8>)
      requires if head == [] then between == s else Written(s, between, off, head)
      requires if tail == [] then t == between else Written(between, t, offMid, tail)
      requires offMid == off + |head| && head + tail != []
      ensures Written(s, t, off, head + tail)
    {
      if tail == [] {
        assert head + tail == head;
      } else if head == [] {
        assert head + tail == tail;
      } else {
        SpliceJoin(s, off, head, tail);
      }
    }

    /** write_sd, lines 206-211: the full blocks, if any. */
    method WriteFull(data: nat, mid: nat, full: nat, start: nat, ghost off: nat) returns (status: int)
      requires Ready() && start < 0x80_0000 && mid == data + BLOCK * full && mid <= drv.ram.Length &&
        off == BLOCK * start
      modifies drv.host`trace, drv.host`rcas, drv.host`state, drv.hw, drv`calls, drv`store
      ensures Ready()
      ensures Carried() && if full > 0 then WrittenOnce(status == 0) else NoTransfer()
      ensures SameOutside(old(drv.store), drv.store, drv.Target(start), drv.Target(start) + BLOCK * full)
      ensures full == 0 ==> status == 0 && drv.store == old(drv.store)
      ensures status == 0 && full > 0 && Sound() ==>
        Written(old(drv.store), drv.store, off, old(drv.ram[data..mid]))
      ensures status != 0 ==> GaveUp()
      ensures old(drv.calls) <= drv.calls
    {
      status := 0;
      BlockReached(start);
      if full > 0 {
        ghost var tries;
        status, tries := WriteSafe(data, full, start);
      }
    }

    /** write_sd, lines 213-233: the tail block, if any. */
    method WriteRest(data: nat, end: nat, block: nat, ghost off: nat) returns (status: int)
      requires Ready() && data <= end < data + BLOCK && block < UINT32 && OwnedRange(data, end - data) &&
        off == BLOCK * block
      modifies drv.host`trace, drv.host`rcas, drv.host`state, drv.hw, drv`calls, drv.ram, drv`store, pool`lastFree,
        pool`used, pool`live, pool.bitmap
      ensures Ready() && PoolKept()
      ensures Carried() && (data == end ==> NoTransfer())
      ensures OwnedKept(0, 0)
      ensures if data < end then SameOutside(old(drv.store), drv.store, drv.Target(block), drv.Target(block) + BLOCK)
        else drv.store == old(drv.store)
      ensures data == end ==> status == 0
      ensures status == 0 && data < end && Sound() && (drv.byteAddressed ==> block < 0x80_0000) ==>
                Written(old(drv.store), drv.store, off, old(drv.ram[data..end]))
      ensures status != 0 ==> GaveUp() || old(NoTemp())
    {
      status := 0;
      if data < end {
        status := WriteTail(data, end - data, block);
        if drv.byteAddressed ==> block < 0x80_0000 {
          BlockReached(block);
        }
      }
    }

    /** write_sd, from the computed block numbers on, with a partial block: RAM [data, mid) and [mid, end) go
        to the card's bytes from off and from offMid on. */
    method WriteBoth(data: nat, mid: nat, end: nat, full: nat, rem: nat, start: nat, ghost off: nat, ghost offMid: nat)
      returns (status: int)
      requires Ready() && 0 < rem < BLOCK && start < 0x80_0000 && full < 0x80_0000
      requires mid == data + BLOCK * full && end == mid + rem && OwnedRange(data, end - data)
      requires off == BLOCK * start && offMid == off + BLOCK * full
      modifies drv.host`trace, drv.host`rcas, drv.host`state, drv.hw, drv`calls, drv.ram, drv`store, pool`lastFree,
        pool`used, pool`live, pool.bitmap
      ensures Ready() && PoolKept()
      ensures Carried()
      ensures OwnedKept(0, 0)
      ensures OnlyTargets(old(drv.store), drv.store, start, full, rem)
      ensures status == 0 && data < end && Sound() ==>
        Written(old(drv.store), drv.store, off, old(drv.ram[data..end]))
      ensures status != 0 ==> GaveUp() || (rem > 0 && old(NoTemp()))
    {
      ghost var before, head, tail := drv.store, drv.ram[data..mid], drv.ram[mid..end];
      CutRam(drv.ram, data, mid, end);
      OwnedSubrange(data, end - data, mid, end - mid);
      status := WriteFull(data, mid, full, start, off);
      ghost var between := drv.store;
      if status == 0 {
        assert drv.ram[mid..end] == tail;
        status := WriteRest(mid, end, start + full, offMid);
        if status == 0 && data < end && Sound() {
          TwoWrites(before, between, drv.store, off, offMid, head, tail);
        }
      }
      TwoTargets(before, between, drv.store, start, full, rem);
    }

    /** write_sd, from the computed block numbers on: RAM [data, mid) and [mid, end) go to the card's
        bytes from off and from offMid on. */
    method WriteRange(data: nat, mid: nat, end: nat, full: nat, rem: nat, start: nat, ghost off: nat, ghost offMid: nat)
      returns (status: int)
      requires Ready() && rem < BLOCK && start < 0x80_0000 && full < 0x80_0000
      requires mid == data + BLOCK * full && end == mid + rem && OwnedRange(data, end - data)
      requires off == BLOCK * start && offMid == off + BLOCK * full
      modifies drv.host`trace, drv.host`rcas, drv.host`state, drv.hw, drv`calls, drv.ram, drv`store, pool`lastFree,
        pool`used, pool`live, pool.bitmap
      ensures Ready() && PoolKept()
      ensures Carried() && (data < end && rem == 0 ==> WrittenOnce(status == 0))
      ensures OwnedKept(0, 0)
      ensures OnlyTargets(old(drv.store), drv.store, start, full, rem)
      ensures status == 0 && data < end && Sound() ==>
        Written(old(drv.store), drv.store, off, old(drv.ram[data..end]))
      ensures status != 0 ==> GaveUp() || (rem > 0 && old(NoTemp()))
    {
      if rem > 0 {
        status := WriteBoth(data, mid, end, full, rem, start, off, offMid);
      } else {
        status := WriteFull(data, mid, full, start, off);
        TwoTargets(old(drv.store), drv.store, drv.store, start, full, rem);
      }
    }

    /** One more request in the log; `simple` says that it was plain. */
    ghost method Record(e: IoEvent, simple: bool)
      requires Ready() && History(Happens, states, log) && Happens(states[|log|], e, drv.store)
      requires drv.hw.prompt && STBITERR !in drv.hw.flags ==> AllHonest(log) && Honest(e)
      requires plain ==> AllClean(log)
      requires plain && simple ==> drv.hw.NoDataEndToCome() && Clean(e)
      modifies this
      ensures Valid() && log == old(log) + [e] && states == old(states) + [drv.store]
      ensures plain == (old(plain) && simple)
    {
      HistoryGrows(Happens, states, log, e, drv.store);
      states, log, plain := states + [drv.store], log + [e], plain && simple;
    }

    /** The log entry of a read, if it reported success. */
    ghost method RecordRead(status: int, off: nat, bytes: seq<bv8>, sound: bool, simple: bool)
      requires Ready() && History(Happens, states, log) && states[|log|] == drv.store
      requires status == 0 && sound && bytes != [] ==> Delivered(drv.store, off, bytes)
      requires drv.hw.prompt && STBITERR !in drv.hw.flags ==> AllHonest(log) && sound
      requires plain ==> AllClean(log)
      requires plain && simple ==> drv.hw.NoDataEndToCome() && sound && status == 0
      modifies this
      ensures Valid() && plain == (old(plain) && simple)
      ensures log == old(log) + (if status == 0 then [Get(off, bytes, sound)] else [])
      ensures states == old(states) + (if status == 0 then [drv.store] else [])
    {
      if status == 0 {
        Record(Get(off, bytes, sound), simple);
      } else {
        plain := plain && simple;
      }
    }

    /** A plain request reports success for full blocks (two at least for a read, which otherwise waits for
        another flag), with a single transfer and no start-bit error. */
    twostate predicate Plain(status: int, n: nat, least: nat)
      reads drv.hw
    {
      && status == 0 && n >= BLOCK * least && n % BLOCK == 0
      && drv.hw.starts <= old(drv.hw.starts) + 1 && STBITERR !in drv.hw.flags
    }

    /** read_sd for `n` bytes from block `start` on. */
    method ReadBytes(buffer: nat, n: nat, start: nat) returns (status: int)
      requires Valid() && n < UINT32 && start < 0x80_0000 && OwnedRange(buffer, n)
      modifies this, drv.host`trace, drv.host`rcas, drv.host`state, drv.hw, drv`calls, drv.ram, pool`lastFree,
        pool`used, pool`live, pool.bitmap
      ensures Valid() && PoolKept()
      ensures Carried() && (STBITERR in old(drv.hw.flags) ==> status != 0 || n == 0)
      ensures OwnedKept(buffer, buffer + n)
      ensures ReadSteadily(status == 0, n / BLOCK, n % BLOCK)
      ensures
        var bytes := drv.ram[buffer..buffer + n];
        && (status == 0 && NotMisled() && n > 0 ==> Delivered(drv.store, BLOCK * start, bytes))
        && log == old(log) + (if status == 0 then [Get(BLOCK * start, bytes, NotMisled())] else [])
        && states == old(states) + (if status == 0 then [drv.store] else [])
        && plain == (old(plain) && Plain(status, n, 2))
      ensures status != 0 ==> GaveUp() || (n % BLOCK > 0 && old(NoTemp()))
    {
      var fullBlocks, remaining := n / BLOCK, n % BLOCK;
      var end := buffer + n;
      ghost var off := BLOCK * start;
      status := ReadRange(buffer, end - remaining, end, fullBlocks, remaining, start, off,
        off + BLOCK * fullBlocks, off + n);
      ghost var bytes := drv.ram[buffer..end];
      assert status == 0 && NotMisled() && n > 0 ==> Delivered(drv.store, off, bytes);
      assert plain && Plain(status, n, 2) ==> drv.hw.NoDataEndToCome() && NotMisled() by {
        assert n % BLOCK == 0 ==> n == BLOCK * fullBlocks;
      }
      RecordRead(status, off, bytes, NotMisled(), Plain(status, n, 2));
    }

    /** read_sd.  A 0 means the buffer holds the card's bytes, unless a transfer on the way was misled by an older
        end flag.  None was on prompt hardware; and on any, if the flag the first transfer waits for was neither up
        nor to come before the call, no transfer was repeated, and a partial block does not follow two full ones or
        more.  The pool is as before; no RAM the caller owns is written outside the buffer. */
    method ReadSd(buffer: nat, count: nat, start: nat, size: nat) returns (status: int)
      requires Valid() && count < UINT32 && start < UINT32 && size < UINT32
      requires OwnedRange(buffer, TotalBytes(count, size))
      modifies this, drv.host`trace, drv.host`rcas, drv.host`state, drv.hw, drv`calls, drv.ram, pool`lastFree,
        pool`used, pool`live, pool.bitmap
      ensures Valid() && PoolKept()
      ensures Carried() && (STBITERR in old(drv.hw.flags) ==> status != 0 || TotalBytes(count, size) == 0)
      ensures OwnedKept(buffer, buffer + TotalBytes(count, size))
      ensures ReadSteadily(status == 0, TotalBytes(count, size) / BLOCK, TotalBytes(count, size) % BLOCK)
      ensures
        var off, n := BLOCK * BlockStart(start, size), TotalBytes(count, size);
        var bytes := drv.ram[buffer..buffer + n];
        && (status == 0 && NotMisled() && n > 0 ==> Delivered(drv.store, off, bytes))
        && log == old(log) + (if status == 0 then [Get(off, bytes, NotMisled())] else [])
        && states == old(states) + (if status == 0 then [drv.store] else [])
        && plain == (old(plain) && Plain(status, n, 2))
      ensures status != 0 ==> GaveUp() || (TotalBytes(count, size) % BLOCK > 0 && old(NoTemp()))
    {
      status := ReadBytes(buffer, TotalBytes(count, size), BlockStart(start, size));
    }

    /** The bytes a write of n bytes at block `start` may leave undefined when it fails: the blocks it
        is aimed at (or, on a 32-bit wrap of a byte address, anything). */
    ghost function Reach(start: nat, n: nat, reported: bool): IoEvent
      reads drv
    {
      if drv.byteAddressed && start + n / BLOCK >= 0x80_0000 then Smear(0, |drv.store|, reported)
      else Smear(BLOCK * start, BLOCK * (start + (n + BLOCK - 1) / BLOCK), reported)
    }

    /** What a write leaves in the log. */
    ghost function Report(saved: bool, start: nat, bytes: seq<bv8>, reported: bool): IoEvent
      reads drv
    {
      if saved then Put(BLOCK * start, bytes) else Reach(start, |bytes|, reported)
    }

    lemma TargetsInReach(s: seq<bv8>, start: nat, n: nat, reported: bool)
      requires start < 0x80_0000 && OnlyTargets(s, drv.store, start, n / BLOCK, n % BLOCK)
      ensures Happens(s, Reach(start, n, reported), drv.store)
    {
      BlockReached(start);
      if !(drv.byteAddressed && start + n / BLOCK >= 0x80_0000) {
        BlockReached(start + n / BLOCK);
        assert (n + BLOCK - 1) / BLOCK == n / BLOCK + if n % BLOCK > 0 then 1 else 0;
      }
    }

    /** The log entry of a write of `full` blocks and `rem` bytes. */
    ghost method RecordWrite(saved: bool, start: nat, full: nat, rem: nat, bytes: seq<bv8>, before: seq<bv8>,
      status: int, simple: bool)
      requires Ready() && History(Happens, states, log) && states[|log|] == before
      requires |bytes| == BLOCK * full + rem && rem < BLOCK
      requires saved ==> Written(before, drv.store, BLOCK * start, bytes)
      requires start < 0x80_0000 && OnlyTargets(before, drv.store, start, full, rem)
      requires drv.hw.prompt && STBITERR !in drv.hw.flags ==> AllHonest(log) && (status == 0 && bytes != [] ==> saved)
      requires plain ==> AllClean(log)
      requires plain && simple ==> drv.hw.NoDataEndToCome() && saved
      modifies this
      ensures Valid() && states == old(states) + [drv.store]
      ensures log == old(log) + [Report(saved, start, bytes, status == 0)]
      ensures Happens(before, Report(saved, start, bytes, status == 0), drv.store)
      ensures plain == (old(plain) && simple)
    {
      if !saved {
        assert |bytes| / BLOCK == full && |bytes| % BLOCK == rem;
        TargetsInReach(before, start, |bytes|, status == 0);
      }
      Record(Report(saved, start, bytes, status == 0), simple);
    }

    /** write_sd for `n` bytes from block `start` on. */
    method WriteBytes(data: nat, n: nat, start: nat) returns (status: int)
      requires Valid() && n < UINT32 && start < 0x80_0000 && OwnedRange(data, n)
      modifies this, drv.host`trace, drv.host`rcas, drv.host`state, drv.hw, drv`calls, drv.ram, drv`store,
        pool`lastFree, pool`used, pool`live, pool.bitmap
      ensures Valid() && PoolKept()
      ensures Carried() && OwnedKept(0, 0)
      ensures n > 0 && n % BLOCK == 0 ==> WrittenOnce(status == 0)
      ensures
        var saved := status == 0 && n > 0 && Sound();
        var e := Report(saved, start, old(drv.ram[data..data + n]), status == 0);
        && Happens(old(drv.store), e, drv.store)
        && log == old(log) + [e] && states == old(states) + [drv.store]
        && plain == (old(plain) && Plain(status, n, 1))
      ensures status != 0 ==> GaveUp() || (n % BLOCK > 0 && old(NoTemp()))
    {
      ghost var before, bytes := drv.store, drv.ram[data..data + n];
      var fullBlocks, remaining := n / BLOCK, n % BLOCK;
      var end := data + n;
      ghost var off := BLOCK * start;
      status := WriteRange(data, end - remaining, end, fullBlocks, remaining, start, off, off + BLOCK * fullBlocks);
      RecordWrite(status == 0 && n > 0 && Sound(), start, fullBlocks, remaining, bytes, before,
        status, Plain(status, n, 1));
    }

    /** write_sd.  A 0, with no start-bit error up, means that the card differs from before in exactly the
        requested bytes, which hold the data, unless a transfer on the way was misled by an older end flag.  None
        was on prompt hardware; and on any, if DATAEND was neither up nor to come before the call, one transfer
        was enough, and the request has no partial block, whose write follows a read that does not wait for DATAEND.
        On every path only the blocks aimed at can change, the pool is as before, and no RAM the caller owns is
        written. */
    method WriteSd(data: nat, count: nat, start: nat, size: nat) returns (status: int)
      requires Valid() && count < UINT32 && start < UINT32 && size < UINT32
      requires OwnedRange(data, TotalBytes(count, size))
      modifies this, drv.host`trace, drv.host`rcas, drv.host`state, drv.hw, drv`calls, drv.ram, drv`store,
        pool`lastFree, pool`used, pool`live, pool.bitmap
      ensures Valid() && PoolKept()
      ensures Carried() && OwnedKept(0, 0)
      ensures TotalBytes(count, size) > 0 && TotalBytes(count, size) % BLOCK == 0 ==> WrittenOnce(status == 0)
      ensures
        var n := TotalBytes(count, size);
        var saved := status == 0 && n > 0 && Sound();
        var e := Report(saved, BlockStart(start, size), old(drv.ram[data..data + n]), status == 0);
        && Happens(old(drv.store), e, drv.store)
        && log == old(log) + [e] && states == old(states) + [drv.store]
        && plain == (old(plain) && Plain(status, n, 1))
      ensures status != 0 ==> GaveUp() || (TotalBytes(count, size) % BLOCK > 0 && old(NoTemp()))
    {
      status := WriteBytes(data, TotalBytes(count, size), BlockStart(start, size));
    }
  }
}
