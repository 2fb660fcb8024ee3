/** Whole runs of the allocator: every sequence of pool_alloc, pool_free_region of a
    live region, pool_free and pool_init, started from the zeroed static state. */
module PoolRuns {
  import opened Common
  import opened PoolSpec

  datatype Region = Region(start: nat, len: nat)

  datatype Op =
    | Alloc(size: nat)
    | FreeLive(k: nat)   // pool_free_region of the k-th live region, whole
    | FreeAll            // pool_free
    | Init               // pool_init

  datatype World = World(pool: Pool, live: seq<Region>)

  ghost function Start(): World {
    World(Cleared(false), [])
  }

  ghost function Without(live: seq<Region>, k: nat): seq<Region>
    requires k < |live|
  {
    live[..k] + live[k + 1..]
  }

  ghost function Step(w: World, op: Op): (w': World)
    requires WellFormed(w.pool)
    ensures WellFormed(w'.pool)
  {
    match op
    case Alloc(size) =>
      var n := Blocks16(size);
      var at := Placement(w.pool, size);
      World(AllocNext(w.pool, size),
            if at.Some? && n > 0 then w.live + [Region(at.value, n)] else w.live)
    case FreeLive(k) =>
      if k < |w.live| && w.live[k].start < BLOCKS then
        World(FreeNext(w.pool, w.live[k].start, w.live[k].len), Without(w.live, k))
      else w
    case FreeAll => World(FreeAllNext(w.pool), if w.pool.initialized then [] else w.live)
    case Init => World(InitNext(w.pool), if w.pool.initialized then w.live else [])
  }

  /** The world once blocks [s, s + n) are taken. */
  ghost function Placed(w: World, s: nat, n: nat): World
    requires WellFormed(w.pool) && s + n <= BLOCKS
  {
    var used := Fill(w.pool.used, s, n, true);
    World(Pool(used, HintAfter(used, s + n), w.pool.initialized), if n > 0 then w.live + [Region(s, n)] else w.live)
  }

  lemma StepPlaces(w: World, size: nat)
    requires WellFormed(w.pool) && Placement(w.pool, size).Some?
    ensures Placement(w.pool, size).value + Blocks16(size) <= BLOCKS
    ensures Step(w, Alloc(size)) == Placed(w, Placement(w.pool, size).value, Blocks16(size))
  {
    PlacementIsFree(w.pool, size);
  }

  ghost function Run(w: World, ops: seq<Op>): (w': World)
    requires WellFormed(w.pool)
    ensures WellFormed(w'.pool)
  {
    if ops == [] then w else Step(Run(w, ops[..|ops| - 1]), ops[|ops| - 1])
  }

  ghost predicate Covers(r: Region, b: nat) {
    r.start <= b < r.start + r.len
  }

  ghost predicate Disjoint(r: Region, q: Region) {
    r.start + r.len <= q.start || q.start + q.len <= r.start
  }

  ghost function CountUsed(used: seq<bool>): nat {
    if used == [] then 0
    else CountUsed(used[..|used| - 1]) + if used[|used| - 1] then 1 else 0
  }

  ghost function TotalLen(live: seq<Region>): nat {
    if live == [] then 0 else TotalLen(live[..|live| - 1]) + live[|live| - 1].len
  }

  ghost predicate Inside(live: seq<Region>) {
    forall k :: 0 <= k < |live| ==> 1 <= live[k].len && live[k].start + live[k].len <= BLOCKS
  }

  ghost predicate Apart(live: seq<Region>) {
    forall j, k :: 0 <= j < |live| && 0 <= k < |live| && j != k ==> Disjoint(live[j], live[k])
  }

  ghost predicate Live(live: seq<Region>, b: nat) {
    exists k :: 0 <= k < |live| && Covers(live[k], b)
  }

  /** A bit is set iff its block belongs to a live region. */
  ghost predicate Accounts(used: seq<bool>, live: seq<Region>) {
    forall b: nat :: b < |used| ==> used[b] == Live(live, b)
  }

  /** The safety invariant. */
  ghost predicate Safe(w: World) {
    && WellFormed(w.pool)
    && Inside(w.live)
    && Apart(w.live)
    && Accounts(w.pool.used, w.live)
    && CountUsed(w.pool.used) == TotalLen(w.live)
  }

  lemma {:induction false} CountNone(used: seq<bool>)
    requires forall i :: 0 <= i < |used| ==> !used[i]
    ensures CountUsed(used) == 0
    decreases |used|
  {
    if used != [] {
      CountNone(used[..|used| - 1]);
    }
  }

  lemma FillFront(used: seq<bool>, s: nat, n: nat, v: bool)
    requires 1 <= n && s + n <= |used|
    ensures
      var last := |used| - 1;
      && Fill(used, s, n, v)[..last] == Fill(used[..last], s, if s + n == |used| then n - 1 else n, v)
      && Fill(used, s, n, v)[last] == if s + n == |used| then v else used[last]
  {
  }

  /** Filling n blocks that all held the other value moves the count by n. */
  lemma {:induction false} CountFill(used: seq<bool>, s: nat, n: nat, v: bool)
    requires s + n <= |used|
    requires forall i :: s <= i < s + n ==> used[i] == !v
    ensures CountUsed(Fill(used, s, n, v)) == CountUsed(used) as int + (if v then n as int else -(n as int))
    decreases |used|
  {
    if used == [] {
    } else {
      var last := |used| - 1;
      if n == 0 {
        assert Fill(used, s, n, v) == used;
      } else {
        FillFront(used, s, n, v);
        CountFill(used[..last], s, if s + n == |used| then n - 1 else n, v);
      }
    }
  }

  lemma {:induction false} TotalWithout(live: seq<Region>, k: nat)
    requires k < |live|
    ensures TotalLen(live) == TotalLen(Without(live, k)) + live[k].len
    decreases |live|
  {
    var last := |live| - 1;
    if k == last {
      assert Without(live, k) == live[..last];
    } else {
      TotalWithout(live[..last], k);
      assert Without(live, k)[..last - 1] == Without(live[..last], k);
    }
  }

  lemma LiveAppend(live: seq<Region>, r: Region, b: nat)
    ensures Live(live + [r], b) == (Live(live, b) || Covers(r, b))
  {
    var live' := live + [r];
    if Live(live, b) {
      var k :| 0 <= k < |live| && Covers(live[k], b);
      assert Covers(live'[k], b);
    }
    if Covers(r, b) {
      assert Covers(live'[|live|], b);
    }
  }

  lemma AddRegion(used: seq<bool>, live: seq<Region>, r: Region)
    requires |used| == BLOCKS && Inside(live) && Apart(live) && Accounts(used, live)
    requires 1 <= r.len && FreeRun(used, r.start, r.len)
    ensures Inside(live + [r]) && Apart(live + [r])
    ensures Accounts(Fill(used, r.start, r.len, true), live + [r])
    ensures TotalLen(live + [r]) == TotalLen(live) + r.len
  {
    var live' := live + [r];
    assert live'[..|live|] == live;
    forall j | 0 <= j < |live|
      ensures Disjoint(live[j], r) && Disjoint(r, live[j])
    {
      var b := if live[j].start <= r.start then r.start else live[j].start;
      assert Covers(live[j], b) ==> Live(live, b);
    }
    forall b: nat | b < BLOCKS
      ensures Fill(used, r.start, r.len, true)[b] == Live(live', b)
    {
      LiveAppend(live, r, b);
    }
  }

  lemma AllocIsSafe(w: World, size: nat)
    requires Safe(w)
    ensures Safe(Step(w, Alloc(size)))
  {
    var n := Blocks16(size);
    PlacementIsFree(w.pool, size);
    if Placement(w.pool, size).Some? {
      var s := Placement(w.pool, size).value;
      CountFill(w.pool.used, s, n, true);
      if n == 0 {
        assert Fill(w.pool.used, s, 0, true) == w.pool.used;
      } else {
        AddRegion(w.pool.used, w.live, Region(s, n));
      }
    }
  }

  lemma StillCovered(live: seq<Region>, k: nat, b: nat)
    requires Apart(live) && k < |live| && Live(Without(live, k), b)
    ensures Live(live, b) && !Covers(live[k], b)
  {
    var i :| 0 <= i < |live| - 1 && Covers(Without(live, k)[i], b);
    var i' := if i < k then i else i + 1;
    assert Covers(live[i'], b) && Disjoint(live[i'], live[k]);
  }

  lemma CoveredByOther(live: seq<Region>, k: nat, b: nat)
    requires k < |live| && Live(live, b) && !Covers(live[k], b)
    ensures Live(Without(live, k), b)
  {
    var i :| 0 <= i < |live| && Covers(live[i], b);
    assert Covers(Without(live, k)[if i < k then i else i - 1], b);
  }

  lemma RemoveRegion(used: seq<bool>, live: seq<Region>, k: nat)
    requires |used| == BLOCKS && Inside(live) && Apart(live) && Accounts(used, live) && k < |live|
    ensures Inside(Without(live, k)) && Apart(Without(live, k))
    ensures Accounts(Fill(used, live[k].start, live[k].len, false), Without(live, k))
  {
    var r := live[k];
    forall b: nat | b < BLOCKS
      ensures Live(Without(live, k), b) == (Live(live, b) && !Covers(r, b))
    {
      if Live(Without(live, k), b) {
        StillCovered(live, k, b);
      }
      if Live(live, b) && !Covers(r, b) {
        CoveredByOther(live, k, b);
      }
    }
  }

  lemma FreeLiveIsSafe(w: World, k: nat)
    requires Safe(w) && k < |w.live|
    ensures Safe(Step(w, FreeLive(k)))
  {
    var r := w.live[k];
    FreeClearsRequest(r.start, r.len);
    forall b | r.start <= b < r.start + r.len
      ensures w.pool.used[b]
    {
      assert Covers(w.live[k], b);
      assert Live(w.live, b);
    }
    CountFill(w.pool.used, r.start, r.len, false);
    TotalWithout(w.live, k);
    RemoveRegion(w.pool.used, w.live, k);
  }

  lemma StepIsSafe(w: World, op: Op)
    requires Safe(w)
    ensures Safe(Step(w, op))
  {
    match op
    case Alloc(size) => AllocIsSafe(w, size);
    case FreeLive(k) =>
      if k < |w.live| {
        FreeLiveIsSafe(w, k);
      }
    case FreeAll => CountNone(Cleared(false).used);
    case Init => CountNone(Cleared(true).used);
  }

  /** Over every run: live regions are inside the pool and pairwise disjoint, a bit is set iff its
      block belongs to a live region, and the set bits number the sum of the live sizes. */
  lemma {:induction false} EveryRunIsSafe(ops: seq<Op>)
    ensures Safe(Run(Start(), ops))
  {
    if ops == [] {
      CountNone(Start().pool.used);
    } else {
      EveryRunIsSafe(ops[..|ops| - 1]);
      StepIsSafe(Run(Start(), ops[..|ops| - 1]), ops[|ops| - 1]);
    }
  }

  /** A free of the k-th live region of a safe world, whole. */
  ghost predicate FreesLive(w: World, k: nat, first: int, size: nat) {
    k < |w.live| && w.live[k].start == first && w.live[k].len == size && Safe(w)
  }

  /** The live regions without the last one that is r, if any. */
  ghost function Drop(live: seq<Region>, r: Region): seq<Region> {
    if live == [] then []
    else
      var front, last := live[..|live| - 1], live[|live| - 1];
      if last == r then front else Drop(front, r) + [last]
  }

  lemma DropLast(live: seq<Region>, r: Region)
    ensures Drop(live + [r], r) == live
  {
    assert (live + [r])[..|live|] == live;
  }

  lemma {:induction false} DropIsWithout(live: seq<Region>, k: nat)
    requires k < |live| && forall j :: k < j < |live| ==> live[j] != live[k]
    ensures Drop(live, live[k]) == Without(live, k)
    decreases |live|
  {
    var last := |live| - 1;
    if k < last {
      DropIsWithout(live[..last], k);
      assert Without(live, k) == Without(live[..last], k) + [live[last]];
    }
  }

  lemma DroppedIsFreed(w: World, k: nat, first: int, size: nat)
    requires FreesLive(w, k, first, size)
    ensures Drop(w.live, w.live[k]) == Without(w.live, k)
  {
    forall j | k < j < |w.live|
      ensures w.live[j] != w.live[k]
    {
      assert Disjoint(w.live[j], w.live[k]);
    }
    DropIsWithout(w.live, k);
  }

  /** No error is returned for a live region of a safe pool. */
  lemma LiveIsAccepted(w: World, k: nat, first: int, size: nat)
    requires FreesLive(w, k, first, size)
    ensures 0 <= first < BLOCKS && 1 <= size && FreeAccepted(first, size)
  {
    FreeClearsRequest(first, size);
  }

  // ---------- stack discipline ----------

  /** Regions are freed whole, last allocated first; pool_init and pool_free may occur anywhere. */
  ghost predicate StackOp(w: World, op: Op) {
    op.FreeLive? ==> op.k == |w.live| - 1
  }

  ghost predicate StackRun(ops: seq<Op>) {
    forall i :: 0 <= i < |ops| ==> StackOp(Run(Start(), ops[..i]), ops[i])
  }

  /** Exactly the first k blocks are occupied. */
  ghost predicate IsPrefix(used: seq<bool>, k: nat) {
    forall b :: 0 <= b < |used| ==> used[b] == (b < k)
  }

  lemma PrefixGrows(used: seq<bool>, k: nat, n: nat)
    requires |used| == BLOCKS && IsPrefix(used, k) && k + n <= BLOCKS
    ensures IsPrefix(Fill(used, k, n, true), k + n)
    ensures HintAfter(Fill(used, k, n, true), k + n) <= k + n
  {
  }

  lemma PrefixShrinks(used: seq<bool>, k: nat, n: nat)
    requires |used| == BLOCKS && IsPrefix(used, k + n) && k + n <= BLOCKS
    ensures IsPrefix(Fill(used, k, n, false), k)
  {
  }

  /** Each region starts where the ones before it end. */
  ghost predicate Tiled(live: seq<Region>) {
    live == [] ||
    var front, last := live[..|live| - 1], live[|live| - 1];
    Tiled(front) && 1 <= last.len && last.start == TotalLen(front)
  }

  lemma TiledPush(live: seq<Region>, n: nat)
    requires Tiled(live) && n > 0
    ensures
      var live' := live + [Region(TotalLen(live), n)];
      Tiled(live') && TotalLen(live') == TotalLen(live) + n
  {
    var live' := live + [Region(TotalLen(live), n)];
    assert live'[..|live|] == live;
  }

  /** The occupied blocks are exactly [0, k), tiled by the live regions, and the hint is at most k. */
  ghost predicate StackShape(w: World) {
    var k := TotalLen(w.live);
    && WellFormed(w.pool)
    && k <= BLOCKS
    && w.pool.hint <= k
    && IsPrefix(w.pool.used, k)
    && Tiled(w.live)
  }

  lemma StackAlloc(w: World, size: nat)
    requires StackShape(w)
    ensures
      var n := Blocks16(size);
      var k := TotalLen(w.live);
      Placement(w.pool, size) == (if n <= BLOCKS && k + Sought(n) <= BLOCKS then Some(k) else None)
  {
    var n := Blocks16(size);
    var m := Sought(n);
    var k := TotalLen(w.live);
    PlacementIsNextFit(w.pool, size);
    if n <= BLOCKS && k + m <= BLOCKS {
      assert RunInWindow(w.pool.used, w.pool.hint, BLOCKS, k, m);
    }
    match Placement(w.pool, size)
    case None =>
    case Some(s) =>
      assert !w.pool.used[s];
  }

  lemma PushHasShape(w: World, n: nat)
    requires StackShape(w) && TotalLen(w.live) + n <= BLOCKS
    ensures StackShape(Placed(w, TotalLen(w.live), n))
  {
    PrefixGrows(w.pool.used, TotalLen(w.live), n);
    if n > 0 {
      TiledPush(w.live, n);
    }
  }

  lemma StackPush(w: World, size: nat)
    requires StackShape(w)
    ensures StackShape(Step(w, Alloc(size)))
  {
    StackAlloc(w, size);
    if Placement(w.pool, size).Some? {
      StepPlaces(w, size);
      PushHasShape(w, Blocks16(size));
    } else {
      assert Step(w, Alloc(size)) == w;
    }
  }

  lemma StackPop(w: World)
    requires StackShape(w) && w.live != []
    ensures StackShape(Step(w, FreeLive(|w.live| - 1)))
  {
    var k := |w.live| - 1;
    var r := w.live[k];
    assert Without(w.live, k) == w.live[..k];
    FreeClearsRequest(r.start, r.len);
    PrefixShrinks(w.pool.used, r.start, r.len);
  }

  lemma StackStep(w: World, op: Op)
    requires StackShape(w) && StackOp(w, op)
    ensures StackShape(Step(w, op))
  {
    match op
    case Alloc(size) => StackPush(w, size);
    case FreeLive(k) =>
      if k < |w.live| {
        StackPop(w);
      }
    case FreeAll =>
    case Init =>
  }

  lemma {:induction false} StackRunHasShape(ops: seq<Op>)
    requires StackRun(ops)
    ensures StackShape(Run(Start(), ops))
    decreases |ops|
  {
    if ops != [] {
      var n := |ops| - 1;
      var front := ops[..n];
      forall i | 0 <= i < n
        ensures StackOp(Run(Start(), front[..i]), front[i])
      {
        assert front[..i] == ops[..i];
        assert StackOp(Run(Start(), ops[..i]), ops[i]);
      }
      StackRunHasShape(front);
      assert StackOp(Run(Start(), ops[..n]), ops[n]);
      StackStep(Run(Start(), front), ops[n]);
    }
  }

  lemma StackAnswer(w: World, size: nat)
    requires StackShape(w) && CountUsed(w.pool.used) == TotalLen(w.live) && 1 <= size <= BLOCKS
    ensures Placement(w.pool, size).Some? <==> size <= BLOCKS - CountUsed(w.pool.used)
  {
    StackAlloc(w, size);
    assert Blocks16(size) == size;
  }

  /** Under stack discipline the pool never fragments: the occupied blocks are a prefix [0, k),
      the hint is at most k, and pool_alloc succeeds iff the request fits in what is left. */
  lemma StackNeverFragments(ops: seq<Op>, size: nat)
    requires StackRun(ops) && 1 <= size <= BLOCKS
    ensures
      var w := Run(Start(), ops);
      && StackShape(w)
      && (Placement(w.pool, size).Some? <==> size <= BLOCKS - CountUsed(w.pool.used))
  {
    EveryRunIsSafe(ops);
    StackRunHasShape(ops);
    StackAnswer(Run(Start(), ops), size);
  }

  // ---------- NULL with room, reached from the start ----------

  /** Six ordinary calls, each free releasing a whole live region, after which a request for 16
      blocks is refused although blocks 4..19 are free: that run crosses the hint. */
  ghost function FragmentingRun(): seq<Op> {
    [Alloc(10), Alloc(10), FreeLive(0), Alloc(4), Alloc(4075), FreeLive(0)]
  }

  /** Exactly [0, a) and [b, c) are occupied. */
  ghost predicate Looks(w: World, hint: nat, a: nat, b: nat, c: nat, live: seq<Region>) {
    && WellFormed(w.pool)
    && w.pool.hint == hint
    && w.live == live
    && forall i :: 0 <= i < BLOCKS ==> (w.pool.used[i] <==> (i < a || b <= i < c))
  }

  lemma PlacedAt(p: Pool, size: nat, s: nat)
    requires WellFormed(p) && 1 <= size <= BLOCKS && LeastRun(p.used, p.hint, BLOCKS, s, size)
    ensures Placement(p, size) == Some(s)
  {
    FirstFitIsLeast(p.used, p.hint, BLOCKS, size);
    var first := FirstFit(p.used, p.hint, BLOCKS, size);
    assert first.Some? && first.value == s;
  }

  lemma AllocLands(w: World, size: nat, s: nat)
    requires WellFormed(w.pool) && 1 <= size <= BLOCKS && LeastRun(w.pool.used, w.pool.hint, BLOCKS, s, size)
    ensures Step(w, Alloc(size)) == Placed(w, s, size)
  {
    PlacedAt(w.pool, size, s);
    StepPlaces(w, size);
  }

  lemma FragmentFirstTwo(w: World)
    requires Looks(w, 0, 0, 0, 0, [])
    ensures Looks(Step(Step(w, Alloc(10)), Alloc(10)), 20, 20, 20, 20, [Region(0, 10), Region(10, 10)])
  {
    AllocLands(w, 10, 0);
    var w1 := Step(w, Alloc(10));
    assert Looks(w1, 10, 10, 10, 10, [Region(0, 10)]);
    AllocLands(w1, 10, 10);
  }

  lemma FragmentFirstThree(w: World)
    requires Looks(w, 0, 0, 0, 0, [])
    ensures Looks(Step(Step(Step(w, Alloc(10)), Alloc(10)), FreeLive(0)), 0, 0, 10, 20, [Region(10, 10)])
  {
    FragmentFirstTwo(w);
    FreeClearsRequest(0, 10);
  }

  lemma FragmentFour(w: World)
    requires Looks(w, 0, 0, 10, 20, [Region(10, 10)])
    ensures Looks(Step(w, Alloc(4)), 4, 4, 10, 20, [Region(10, 10), Region(0, 4)])
  {
    AllocLands(w, 4, 0);
  }

  lemma FragmentFill(w: World)
    requires Looks(w, 0, 0, 10, 20, [Region(10, 10)])
    ensures Looks(Step(Step(w, Alloc(4)), Alloc(4075)), 4095, 4, 10, 4095,
      [Region(10, 10), Region(0, 4), Region(20, 4075)])
  {
    FragmentFour(w);
    var w1 := Step(w, Alloc(4));
    assert w1.pool.used[19];
    assert LeastRun(w1.pool.used, 4, BLOCKS, 20, 4075);
    AllocLands(w1, 4075, 20);
  }

  lemma FragmentStuck(w: World)
    requires Looks(w, 10, 4, 20, 4095, w.live)
    ensures Placement(w.pool, 16) == None && RunInWindow(w.pool.used, 0, BLOCKS, 4, 16)
  {
    PlacementIsNextFit(w.pool, 16);
    forall t: nat
      ensures !RunInWindow(w.pool.used, 10, BLOCKS, t, 16)
    {
      if 10 <= t && t + 16 <= BLOCKS {
        assert w.pool.used[if t < 20 then 20 else t];
      }
    }
  }

  ghost function FirstThree(): seq<Op> { [Alloc(10), Alloc(10), FreeLive(0)] }

  ghost function FirstFive(): seq<Op> { FirstThree() + [Alloc(4)] + [Alloc(4075)] }

  lemma RunSnoc(w: World, ops: seq<Op>, op: Op)
    requires WellFormed(w.pool)
    ensures Run(w, ops + [op]) == Step(Run(w, ops), op)
  {
    assert (ops + [op])[..|ops|] == ops;
  }

  lemma RunThree(w: World, a: Op, b: Op, c: Op)
    requires WellFormed(w.pool)
    ensures Run(w, [a, b, c]) == Step(Step(Step(w, a), b), c)
  {
    assert [a, b, c][..2] == [a, b] && [a, b][..1] == [a] && [a][..0] == [];
    assert Run(w, [a]) == Step(w, a);
    assert Run(w, [a, b]) == Step(Run(w, [a]), b);
  }

  lemma AfterThree()
    ensures Looks(Run(Start(), FirstThree()), 0, 0, 10, 20, [Region(10, 10)])
  {
    FragmentFirstThree(Start());
    RunThree(Start(), Alloc(10), Alloc(10), FreeLive(0));
  }

  lemma AfterFive()
    ensures Looks(Run(Start(), FirstFive()), 4095, 4, 10, 4095, [Region(10, 10), Region(0, 4), Region(20, 4075)])
  {
    AfterThree();
    var w := Run(Start(), FirstThree());
    FragmentFill(w);
    RunSnoc(Start(), FirstThree(), Alloc(4));
    RunSnoc(Start(), FirstThree() + [Alloc(4)], Alloc(4075));
  }

  lemma NullWithRoomIsReachable()
    ensures
      var w := Run(Start(), FragmentingRun());
      && Placement(w.pool, 16) == None
      && RunInWindow(w.pool.used, 0, BLOCKS, 4, 16)
      && !NullIsExact(w.pool)
  {
    AfterFive();
    var w := Run(Start(), FirstFive());
    assert FragmentingRun() == FirstFive() + [FreeLive(0)];
    RunSnoc(Start(), FirstFive(), FreeLive(0));
    FreeClearsRequest(10, 10);
    FragmentStuck(Step(w, FreeLive(0)));
    assert !NoRun(Step(w, FreeLive(0)).pool.used, 0, BLOCKS, 16);
  }
}
