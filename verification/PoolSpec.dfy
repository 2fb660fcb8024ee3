/** What the pool allocator of allocator/pool_memory.c does, on values: the
    occupancy map, the search hint and the `initialized` flag.  Block size is one
    byte, so a block number is also an offset into the pool. */
module PoolSpec {

  import opened Common

  /** BLOCKS_COUNT */
  const BLOCKS: nat := 4096

  datatype Pool = Pool(used: seq<bool>, hint: nat, initialized: bool)

  ghost predicate WellFormed(p: Pool) {
    |p.used| == BLOCKS && p.hint < BLOCKS
  }

  /** n free blocks starting at s. */
  ghost predicate FreeRun(used: seq<bool>, s: nat, n: nat) {
    s + n <= |used| && forall i :: s <= i < s + n ==> !used[i]
  }

  /** A free run of n blocks inside the window [lo, hi). */
  ghost predicate RunInWindow(used: seq<bool>, lo: nat, hi: nat, s: nat, n: nat) {
    lo <= s && s + n <= hi && FreeRun(used, s, n)
  }

  /** The naive search: try every start of the window in turn. */
  ghost function FirstFit(used: seq<bool>, lo: nat, hi: nat, n: nat): Option<nat>
    requires lo <= hi <= |used| && 1 <= n
    decreases hi - lo
  {
    if lo + n > hi then None
    else if FreeRun(used, lo, n) then Some(lo)
    else FirstFit(used, lo + 1, hi, n)
  }

  /** s is the least start of a free run of n blocks in the window. */
  ghost predicate LeastRun(used: seq<bool>, lo: nat, hi: nat, s: nat, n: nat) {
    && RunInWindow(used, lo, hi, s, n)
    && forall t: nat :: t < s ==> !RunInWindow(used, lo, hi, t, n)
  }

  ghost predicate NoRun(used: seq<bool>, lo: nat, hi: nat, n: nat) {
    forall t: nat :: !RunInWindow(used, lo, hi, t, n)
  }

  /** FirstFit is exactly "the least start of a free run in the window, or none". */
  lemma {:induction false} FirstFitIsLeast(used: seq<bool>, lo: nat, hi: nat, n: nat)
    requires lo <= hi <= |used| && 1 <= n
    ensures match FirstFit(used, lo, hi, n)
            case Some(s) => LeastRun(used, lo, hi, s, n)
            case None => NoRun(used, lo, hi, n)
    decreases hi - lo
  {
    if lo + n > hi {
    } else if FreeRun(used, lo, n) {
    } else {
      FirstFitIsLeast(used, lo + 1, hi, n);
      forall t: nat | RunInWindow(used, lo, hi, t, n)
        ensures RunInWindow(used, lo + 1, hi, t, n)
      {
        assert t != lo;
      }
    }
  }

  /** The 16-bit block count of a 32-bit byte size (both operations compute it). */
  function Blocks16(size: nat): (n: nat)
    ensures n < UINT16
  {
    size % UINT16
  }

  /** The run the search looks for: a request that truncates to zero blocks
      still stops at the first free block. */
  function Sought(n: nat): (m: nat)
    ensures m >= 1 && m >= n
  {
    if n == 0 then 1 else n
  }

  /** Where pool_alloc places a request: first [hint, BLOCKS), then [0, hint). */
  ghost function Placement(p: Pool, size: nat): Option<nat>
    requires WellFormed(p)
  {
    var n := Blocks16(size);
    if n > BLOCKS then None
    else
      var first := FirstFit(p.used, p.hint, BLOCKS, Sought(n));
      if first.Some? then first else FirstFit(p.used, 0, p.hint, Sought(n))
  }

  lemma PlacementIsFree(p: Pool, size: nat)
    requires WellFormed(p)
    ensures match Placement(p, size)
            case Some(s) => FreeRun(p.used, s, Sought(Blocks16(size))) && s + Blocks16(size) <= BLOCKS
            case None => true
  {
    var m := Sought(Blocks16(size));
    FirstFitIsLeast(p.used, p.hint, BLOCKS, m);
    FirstFitIsLeast(p.used, 0, p.hint, m);
  }

  ghost function Fill(used: seq<bool>, s: nat, n: nat, v: bool): (r: seq<bool>)
    requires s + n <= |used|
    ensures |r| == |used|
    ensures forall i :: 0 <= i < |r| ==> r[i] == if s <= i < s + n then v else used[i]
  {
    seq(|used|, i requires 0 <= i < |used| => if s <= i < s + n then v else used[i])
  }

  ghost function FirstFreeFrom(used: seq<bool>, i: nat): (j: nat)
    requires i <= |used|
    ensures i <= j <= |used|
    ensures j < |used| ==> !used[j]
    ensures forall k :: i <= k < j ==> used[k]
    decreases |used| - i
  {
    if i == |used| || !used[i] then i else FirstFreeFrom(used, i + 1)
  }

  /** The hint left behind by an allocation that ends at block e. */
  ghost function HintAfter(used: seq<bool>, e: nat): (h: nat)
    requires |used| == BLOCKS && e <= BLOCKS
    ensures h < BLOCKS
  {
    var j := FirstFreeFrom(used, e);
    if j >= BLOCKS then 0 else j
  }

  ghost function AllocNext(p: Pool, size: nat): (q: Pool)
    requires WellFormed(p)
    ensures WellFormed(q)
  {
    match Placement(p, size)
    case None => p
    case Some(s) =>
      var n := Blocks16(size);
      PlacementIsFree(p, size);
      var used := Fill(p.used, s, n, true);
      Pool(used, HintAfter(used, s + n), p.initialized)
  }

  /** The inclusive last block pool_free_region computes, in 16 bits. */
  function LastBlock16(first: nat, size: nat): nat {
    (first + Blocks16(size) + UINT16 - 1) % UINT16
  }

  /** How many blocks an accepted free clears: none when the 16-bit end precedes the start. */
  function FreedBlocks(first: nat, size: nat): nat {
    if LastBlock16(first, size) < first then 0 else LastBlock16(first, size) - first + 1
  }

  /** pool_free_region for a pointer at offset `first` of the pool; false is POOL_ERR_OUT_OF_MEMORY. */
  predicate FreeAccepted(first: nat, size: nat) {
    LastBlock16(first, size) < BLOCKS
  }

  ghost function FreeNext(p: Pool, first: nat, size: nat): (q: Pool)
    requires WellFormed(p) && first < BLOCKS
    ensures WellFormed(q)
  {
    if !FreeAccepted(first, size) then p
    else
      var n := FreedBlocks(first, size);
      Pool(Fill(p.used, first, n, false), if n > 0 && first < p.hint then first else p.hint, p.initialized)
  }

  ghost function Cleared(initialized: bool): (q: Pool)
    ensures WellFormed(q)
  {
    Pool(seq(BLOCKS, _ => false), 0, initialized)
  }

  /** pool_init */
  ghost function InitNext(p: Pool): (q: Pool)
    requires WellFormed(p)
    ensures WellFormed(q)
  {
    if p.initialized then p else Cleared(true)
  }

  /** pool_free */
  ghost function FreeAllNext(p: Pool): (q: Pool)
    requires WellFormed(p)
    ensures WellFormed(q)
  {
    if p.initialized then Cleared(false) else p
  }

  // ---------- the search ----------

  /** No start in [lo, b] can hold n blocks when block b is used and b is within reach:
      the step that lets one pass with a counter replace the naive search. */
  lemma {:induction false} SkipBlocked(used: seq<bool>, lo: nat, hi: nat, n: nat, b: nat)
    requires lo <= b < hi <= |used| && 1 <= n && b < lo + n && used[b]
    ensures FirstFit(used, lo, hi, n) == FirstFit(used, b + 1, hi, n)
    decreases b - lo
  {
    if lo + n > hi {
      assert FirstFit(used, b + 1, hi, n) == None;
    } else {
      assert !FreeRun(used, lo, n);
      if lo < b {
        SkipBlocked(used, lo + 1, hi, n, b);
      }
    }
  }

  /** The one-pass search at block i: the last c blocks are free, and no start before
      them can hold n blocks. */
  ghost predicate Scanned(used: seq<bool>, lo: nat, hi: nat, n: nat, i: nat, c: nat) {
    && 1 <= n
    && lo <= i <= hi <= |used|
    && c <= i - lo
    && c < n
    && FreeRun(used, i - c, c)
    && FirstFit(used, lo, hi, n) == FirstFit(used, i - c, hi, n)
  }

  lemma ScanHit(used: seq<bool>, lo: nat, hi: nat, n: nat, i: nat, c: nat)
    requires 1 <= c == n && Scanned(used, lo, hi, n, i, c - 1) && i < hi && !used[i]
    ensures FirstFit(used, lo, hi, n) == Some(i + 1 - c)
  {
    assert FreeRun(used, i + 1 - c, n);
  }

  /** Next-fit, exactly: the least run at or after the hint that ends in the pool; only if there
      is none, the least run that ends by the hint; NULL, with nothing changed, iff neither exists. */
  lemma PlacementIsNextFit(p: Pool, size: nat)
    requires WellFormed(p)
    ensures
      var m := Sought(Blocks16(size));
      match Placement(p, size)
      case Some(s) =>
        || LeastRun(p.used, p.hint, BLOCKS, s, m)
        || (NoRun(p.used, p.hint, BLOCKS, m) && LeastRun(p.used, 0, p.hint, s, m))
      case None =>
        && NoRun(p.used, p.hint, BLOCKS, m)
        && NoRun(p.used, 0, p.hint, m)
        && AllocNext(p, size) == p
  {
    var m := Sought(Blocks16(size));
    FirstFitIsLeast(p.used, p.hint, BLOCKS, m);
    FirstFitIsLeast(p.used, 0, p.hint, m);
  }

  // ---------- when NULL means "no room" ----------

  /** NULL is answered only when the whole pool has no run that is long enough. */
  ghost predicate NullIsExact(p: Pool)
    requires WellFormed(p)
  {
    forall size: nat :: 1 <= size <= BLOCKS && Placement(p, size) == None ==> NoRun(p.used, 0, BLOCKS, size)
  }

  /** The start of the free stretch that ends at block h. */
  ghost function LeftEdge(used: seq<bool>, h: nat): (a: nat)
    requires h <= |used|
    ensures a <= h
    ensures forall k :: a <= k < h ==> !used[k]
    ensures a > 0 ==> used[a - 1]
  {
    if h == 0 || used[h - 1] then h else LeftEdge(used, h - 1)
  }

  /** The end of the free stretch that starts at block h. */
  ghost function RightEdge(used: seq<bool>, h: nat): (b: nat)
    requires h <= |used|
    ensures h <= b <= |used|
    ensures forall k :: h <= k < b ==> !used[k]
    ensures b < |used| ==> used[b]
    decreases |used| - h
  {
    if h == |used| || used[h] then h else RightEdge(used, h + 1)
  }

  /** The free stretch around the hint, which the two windows cut in two. */
  ghost function Stretch(p: Pool): nat
    requires WellFormed(p)
  {
    RightEdge(p.used, p.hint) - LeftEdge(p.used, p.hint)
  }

  /** A run the two windows miss crosses the hint, so it lies in the stretch around the hint. */
  lemma MissedRunCrossesHint(p: Pool, s: nat, m: nat)
    requires WellFormed(p) && 1 <= m && RunInWindow(p.used, 0, BLOCKS, s, m)
    ensures
      || RunInWindow(p.used, p.hint, BLOCKS, s, m)
      || RunInWindow(p.used, 0, p.hint, s, m)
      || (LeftEdge(p.used, p.hint) <= s < p.hint < s + m <= RightEdge(p.used, p.hint))
  {
    var a, b := LeftEdge(p.used, p.hint), RightEdge(p.used, p.hint);
    if s < p.hint < s + m {
      assert a > 0 && s < a ==> s <= a - 1 < s + m;
      assert b < BLOCKS && b < s + m ==> s <= b < s + m;
    }
  }

  lemma GrantedIff(p: Pool, size: nat)
    requires WellFormed(p) && 1 <= size <= BLOCKS
    ensures Placement(p, size) == None <==> NoRun(p.used, p.hint, BLOCKS, size) && NoRun(p.used, 0, p.hint, size)
  {
    FirstFitIsLeast(p.used, p.hint, BLOCKS, size);
    FirstFitIsLeast(p.used, 0, p.hint, size);
  }

  /** A window that holds a long run holds a shorter one. */
  lemma ShorterRun(used: seq<bool>, lo: nat, hi: nat, big: nat, small: nat)
    requires small <= big && NoRun(used, lo, hi, small)
    ensures NoRun(used, lo, hi, big)
  {
    forall s: nat
      ensures !RunInWindow(used, lo, hi, s, big)
    {
      assert !RunInWindow(used, lo, hi, s, small);
    }
  }

  lemma ShorterFits(p: Pool, big: nat, small: nat)
    requires WellFormed(p) && 1 <= small <= big <= BLOCKS && Placement(p, big).Some?
    ensures Placement(p, small).Some?
  {
    GrantedIff(p, big);
    GrantedIff(p, small);
    if Placement(p, small) == None {
      ShorterRun(p.used, p.hint, BLOCKS, big, small);
      ShorterRun(p.used, 0, p.hint, big, small);
    }
  }

  /** Whether this NULL is right: a refused request had no room anywhere iff it is longer than the free
      stretch around the hint. */
  lemma NullIsRightWhen(p: Pool, size: nat)
    requires WellFormed(p) && 1 <= size <= BLOCKS && Placement(p, size) == None
    ensures NoRun(p.used, 0, BLOCKS, size) <==> Stretch(p) < size
  {
    var a := LeftEdge(p.used, p.hint);
    PlacementIsNextFit(p, size);
    if size <= Stretch(p) {
      assert RunInWindow(p.used, 0, BLOCKS, a, size);
    } else {
      forall s: nat
        ensures !RunInWindow(p.used, 0, BLOCKS, s, size)
      {
        if RunInWindow(p.used, 0, BLOCKS, s, size) {
          MissedRunCrossesHint(p, s, size);
        }
      }
    }
  }

  /** Neither window is split by the hint: one of them holds a run as long as the stretch around it. */
  ghost predicate StretchFits(p: Pool)
    requires WellFormed(p)
  {
    !NoRun(p.used, p.hint, BLOCKS, Stretch(p)) || !NoRun(p.used, 0, p.hint, Stretch(p))
  }

  /** Under that condition a request for the whole stretch is granted. */
  lemma StretchIsFound(p: Pool)
    requires WellFormed(p) && 1 <= Stretch(p)
    requires p.hint == 0 || p.used[p.hint - 1] || p.used[p.hint] || StretchFits(p)
    ensures Placement(p, Stretch(p)).Some?
  {
    var a, n := LeftEdge(p.used, p.hint), Stretch(p);
    PlacementIsNextFit(p, n);
    if a == p.hint {
      assert RunInWindow(p.used, p.hint, BLOCKS, a, n);
    } else if RightEdge(p.used, p.hint) == p.hint {
      assert RunInWindow(p.used, 0, p.hint, a, n);
    }
  }

  /** When every NULL can be trusted, whatever the size: the hint is at 0, or next to or on a used
      block, or some window holds a run as long as the free stretch around the hint. */
  lemma NullIsExactWhen(p: Pool)
    requires WellFormed(p)
    ensures NullIsExact(p) <==> (p.hint == 0 || p.used[p.hint - 1] || p.used[p.hint] || StretchFits(p))
  {
    var n := Stretch(p);
    if p.hint == 0 || p.used[p.hint - 1] || p.used[p.hint] || StretchFits(p) {
      forall size: nat | 1 <= size <= BLOCKS && Placement(p, size) == None
        ensures NoRun(p.used, 0, BLOCKS, size)
      {
        if size <= n {
          StretchIsFound(p);
          ShorterFits(p, n, size);
          assert false;
        }
        NullIsRightWhen(p, size);
      }
    } else {
      PlacementIsNextFit(p, n);
      NullIsRightWhen(p, n);
    }
  }

  // ---------- 16-bit sizes ----------

  /** A granted request reserves all its bytes iff its size fits 16 bits; what it reserves is the rest
      of the size modulo 2^16. */
  lemma GrantedInFull(p: Pool, size: nat)
    requires WellFormed(p) && Placement(p, size).Some?
    ensures
      var s := Placement(p, size).value;
      var q := AllocNext(p, size);
      && ((s + size <= BLOCKS && q.used == Fill(p.used, s, size, true)) <==> size < UINT16)
      && s + size % UINT16 <= BLOCKS && q.used == Fill(p.used, s, size % UINT16, true)
  {
    PlacementIsFree(p, size);
  }

  /** pool_alloc(65537) on an empty pool succeeds and reserves one block. */
  lemma HugeRequestGetsOneBlock()
    ensures
      var p := Cleared(true);
      Placement(p, 0x1_0001) == Some(0) && AllocNext(p, 0x1_0001).used == Fill(p.used, 0, 1, true)
  {
    var p := Cleared(true);
    PlacementIsNextFit(p, 0x1_0001);
    assert RunInWindow(p.used, 0, BLOCKS, 0, 1);
  }

  lemma ModShift16(k: nat, r: nat)
    ensures (k * UINT16 + r) % UINT16 == r % UINT16
  {
  }

  /** For every size: a free is accepted iff the request ends, modulo 2^16, inside the pool, and it
      clears the blocks from the first one up to there, or none when that end is not behind it. */
  lemma FreedBlocksAre(first: nat, size: nat)
    requires first < BLOCKS
    ensures FreeAccepted(first, size) <==> 1 <= (first + size) % UINT16 <= BLOCKS
    ensures
      var end := (first + size) % UINT16;
      FreeAccepted(first, size) ==> FreedBlocks(first, size) == if end > first then end - first else 0
  {
    var end := (first + size) % UINT16;
    assert size == size / UINT16 * UINT16 + Blocks16(size);
    ModShift16(size / UINT16, first + Blocks16(size));
    assert LastBlock16(first, size) == (end + UINT16 - 1) % UINT16;
  }

  /** An accepted free clears exactly the caller's bytes iff they end in the pool.  Of the other accepted
      sizes, 65536 at block 1 clears nothing, and 65537 at block 0 clears one block. */
  lemma FreeClearsRequest(first: nat, size: nat)
    requires first < BLOCKS && 1 <= size
    ensures (FreeAccepted(first, size) && FreedBlocks(first, size) == size) <==> first + size <= BLOCKS
    ensures FreeAccepted(1, 0x1_0000) && FreedBlocks(1, 0x1_0000) == 0
    ensures FreeAccepted(0, 0x1_0001) && FreedBlocks(0, 0x1_0001) == 1
  {
    FreedBlocksAre(first, size);
  }

  // ---------- the hint ----------

  /** Where a granted request leaves the hint: on the first free block behind the granted run, or at 0 when
      no block behind it is free. */
  lemma HintAfterGrant(p: Pool, size: nat)
    requires WellFormed(p) && Placement(p, size).Some?
    ensures
      var q := AllocNext(p, size);
      var e := Placement(p, size).value + size % 0x1_0000;
      && e <= BLOCKS
      && (|| (e <= q.hint < BLOCKS && !q.used[q.hint] && forall i :: e <= i < q.hint ==> q.used[i])
          || (q.hint == 0 && forall i :: e <= i < BLOCKS ==> q.used[i]))
  {
    PlacementIsFree(p, size);
  }

  /** Where a free leaves the hint: at the lesser of the old hint and the first block it clears. */
  lemma HintAfterFree(p: Pool, first: nat, size: nat)
    requires WellFormed(p) && first < BLOCKS
    ensures
      var q := FreeNext(p, first, size);
      var end := (first + size) % 0x1_0000;
      if first < end <= BLOCKS
      then q.hint <= p.hint && q.hint <= first && (q.hint == p.hint || q.hint == first)
      else q.hint == p.hint && q.used == p.used
  {
    FreedBlocksAre(first, size);
    var q := FreeNext(p, first, size);
    assert FreeAccepted(first, size) && FreedBlocks(first, size) == 0 ==> q.used == p.used;
  }

  /** What a free does to the map: it clears the blocks from the first one up to the end, modulo 2^16, of the
      request when that lies in the pool, and no others. */
  lemma MapAfterFree(p: Pool, first: nat, size: nat, i: nat)
    requires WellFormed(p) && first < BLOCKS && i < BLOCKS
    ensures
      var end := (first + size) % 0x1_0000;
      FreeNext(p, first, size).used[i] == (p.used[i] && !(end <= BLOCKS && first <= i < end))
  {
    FreedBlocksAre(first, size);
  }

  /** pool_init empties the pool once; pool_free empties it only after that, and the other way round. */
  lemma InitAndFreeAll(p: Pool, i: nat)
    requires WellFormed(p) && i < BLOCKS
    ensures InitNext(p).initialized && !FreeAllNext(p).initialized
    ensures if p.initialized then InitNext(p) == p else InitNext(p).hint == 0 && !InitNext(p).used[i]
    ensures if p.initialized then FreeAllNext(p).hint == 0 && !FreeAllNext(p).used[i] else FreeAllNext(p) == p
  {
  }

  // ---------- round trip ----------

  /** pool_alloc and then pool_free_region of the result restores the occupancy map, and
      the hint ends at or before the freed block. */
  lemma AllocThenFree(p: Pool, size: nat)
    requires WellFormed(p) && 1 <= size <= BLOCKS
    requires Placement(p, size).Some?
    ensures
      var s := Placement(p, size).value;
      var q := FreeNext(AllocNext(p, size), s, size);
      s < BLOCKS && q.used == p.used && q.initialized == p.initialized && q.hint <= s
  {
    var s := Placement(p, size).value;
    PlacementIsFree(p, size);
    FreeClearsRequest(s, size);
    var q := FreeNext(AllocNext(p, size), s, size);
    assert q.used == p.used;
  }
}
