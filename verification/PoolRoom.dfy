/** What malloc takes, and what free and reset give back: the effect of each operation on the room
    in the pages, page by page. */
module PoolRoom {
  import opened MachineIntegers
  import opened Options
  import opened PoolModel
  import opened PoolArena
  import opened PoolRuns
  import Runs

  // ---------------------------------------------------------------- an unused page is whole

  /** A page without users offers its whole room. */
  predicate Idle(b: Block) {
    b.quote == 0 ==> b.last == b.node + SMALL_NODE_SIZE
  }

  ghost predicate IdleOk(blocks: seq<Block>) {
    forall i :: 0 <= i < |blocks| ==> Idle(blocks[i])
  }

  lemma CarveIdle(ar: Arena, carved: map<nat, nat>, i: nat, size: nat)
    requires ArenaInv(ar, carved) && IdleOk(ar.blocks) && i < |ar.blocks|
    ensures IdleOk(ar.blocks[i := Carve(ar.blocks[i], size)])
  {
    QuoteIsBounded(ar, carved, i);
  }

  lemma NewBlockIdle(ar: Arena, page: nat, size: nat)
    requires IdleOk(ar.blocks) && ar.current < |ar.blocks|
    ensures IdleOk(AddBlock(ar, page, size).blocks)
  {
    var blocks' := AddBlock(ar, page, size).blocks;
    forall k | 0 <= k < |blocks'|
      ensures Idle(blocks'[k])
    {
      if k < |ar.blocks| {
        BumpKeepsFields(ar.blocks, ar.current, k);
      }
    }
  }

  lemma MallocIdle(ar: Arena, carved: map<nat, nat>, size: nat, page: Option<nat>)
    requires ArenaInv(ar, carved) && IdleOk(ar.blocks)
    ensures IdleOk(ArenaMalloc(ar, size, page).0.blocks)
  {
    var i := FirstFit(ar.blocks, ar.current, size);
    if i < |ar.blocks| {
      CarveIdle(ar, carved, i, size);
    } else if page.Some? {
      NewBlockIdle(ar, page.value, size);
    }
  }

  lemma FreeIdle(ar: Arena, p: nat)
    requires 0 < |ar.blocks| && ar.blocks[0].node == ar.base + POOL_SIZE && IdleOk(ar.blocks)
    ensures IdleOk(ArenaFree(ar, p).blocks)
  {
  }

  /** What an operation makes of the pool, whatever its client holds. */
  function PoolAfter(p: Pool, op: Op): Pool
    requires p.arena.current < |p.arena.blocks|
  {
    match op
    case MallocOp(size, region, page) => Malloc(p, size, region, page).0
    case FreeOp(a) => FreeMemory(p, a)
    case ResetOp => ResetPool(p)
  }

  lemma OperationIdle(p: Pool, carved: map<nat, nat>, op: Op)
    requires ArenaInv(p.arena, carved) && IdleOk(p.arena.blocks)
    ensures IdleOk(PoolAfter(p, op).arena.blocks)
  {
    match op
    case MallocOp(size, region, page) =>
      MallocIdle(p.arena, carved, size, page);
      MallocIdle(p.arena, carved, LARGE_NODE_SIZE, page);
    case FreeOp(a) => FreeIdle(p.arena, a);
    case ResetOp =>
  }

  lemma StepIsPoolAfter(v: World, op: Op, w: World)
    requires Step(v, op, w)
    ensures w.pool == PoolAfter(v.pool, op)
  {
  }

  /** The invariant, and the room of the unused pages. */
  ghost predicate RoomInv(w: World) {
    Inv(w) && IdleOk(w.pool.arena.blocks)
  }

  lemma StepRoom(v: World, op: Op, w: World)
    requires RoomInv(v) && Step(v, op, w)
    ensures RoomInv(w)
  {
    StepKeeps(v, op, w);
    StepIsPoolAfter(v, op, w);
    OperationIdle(v.pool, Carved(v.small, v.pool.large), op);
  }

  lemma RunIdle(base: nat, ops: seq<Op>, ws: seq<World>, n: nat)
    requires base > 0 && base % MP_ALIGNMENT == 0
    requires Runs.IsRun(Start(base), Step, ops, ws) && n < |ws|
    ensures RoomInv(ws[n])
  {
    CreateEstablishes(base);
    forall v, op, w | RoomInv(v) && Step(v, op, w)
      ensures RoomInv(w)
    {
      StepRoom(v, op, w);
    }
    Runs.Invariant(Start(base), Step, ops, ws, RoomInv, n);
  }

  function Users(w: World, b: Block): nat {
    |SmallIn(w.small, b)| + RecordsIn(w.pool.large, b)
  }

  /** Over every run, a page in which nothing is live offers all its room behind the node again. */
  lemma UnusedPageIsWhole(base: nat, ops: seq<Op>, ws: seq<World>, n: nat, i: nat)
    requires base > 0 && base % MP_ALIGNMENT == 0
    requires Runs.IsRun(Start(base), Step, ops, ws) && n < |ws| && i < |ws[n].pool.arena.blocks|
    ensures var b := ws[n].pool.arena.blocks[i]; Users(ws[n], b) == 0 ==> b.last == b.node + 32
  {
    RunIdle(base, ops, ws, n);
    QuoteCountsUsers(ws[n], i);
    assert Idle(ws[n].pool.arena.blocks[i]);
  }

  // ---------------------------------------------------------------- free

  /** Page i has lost a user. If it has others, only its count goes down; otherwise the page is whole
      again, its failures are forgotten, and the next malloc starts from the head. */
  predicate GaveBack(ar: Arena, ar': Arena, i: nat, last: bool)
    requires i < |ar.blocks|
  {
    && |ar'.blocks| == |ar.blocks| && ar'.base == ar.base
    && (forall j :: 0 <= j < |ar.blocks| && j != i ==> ar'.blocks[j] == ar.blocks[j])
    && var b := ar.blocks[i];
       if last then ar'.blocks[i] == Block(b.node, b.end, b.node + 32, 0, 0) && ar'.current == 0
       else b.quote > 0 && ar'.blocks[i] == b.(quote := b.quote - 1) && ar'.current == ar.current
  }

  lemma ArenaGivesBack(ar: Arena, carved: map<nat, nat>, p: nat) returns (i: nat)
    requires ArenaInv(ar, carved) && p in carved
    ensures i < |ar.blocks| && InBlock(ar.blocks[i], p)
    ensures GaveBack(ar, ArenaFree(ar, p), i, ar.blocks[i].quote == 1)
  {
    FreeFindsOwner(ar, carved, p);
    i := OwningBlock(ar.blocks, 0, p);
    assert BlockShape(ar, i);
    ReleaseGivesBack(ar, i);
  }

  lemma ReleaseGivesBack(ar: Arena, i: nat)
    requires i < |ar.blocks| && ar.blocks[0].node == ar.base + POOL_SIZE && 0 < ar.blocks[i].quote
    ensures GaveBack(ar, Release(ar, i), i, ar.blocks[i].quote == 1)
  {
  }

  /** Freeing a small range touches exactly the page that holds it, and gives the page back when
      nothing else in it is live. */
  lemma FreeGivesBack(w: World, p: nat) returns (i: nat)
    requires Inv(w) && p in w.small
    ensures i < |w.pool.arena.blocks| && InBlock(w.pool.arena.blocks[i], p)
    ensures GaveBack(w.pool.arena, FreeMemory(w.pool, p).arena, i, Users(w, w.pool.arena.blocks[i]) == 1)
    ensures FreeMemory(w.pool, p).large == w.pool.large
  {
    FreeSmallIs(w, p);
    i := ArenaGivesBack(w.pool.arena, Carved(w.small, w.pool.large), p);
    QuoteCountsUsers(w, i);
  }

  // ---------------------------------------------------------------- reset

  /** Resetting makes every page whole and drops the records. */
  lemma ResetGivesBack(p: Pool)
    ensures var p' := ResetPool(p);
            && p'.large == [] && p'.arena.current == 0 && p'.arena.base == p.arena.base
            && |p'.arena.blocks| == |p.arena.blocks|
            && forall i :: 0 <= i < |p.arena.blocks| ==>
                 var b := p.arena.blocks[i]; p'.arena.blocks[i] == Block(b.node, b.end, b.node + 32, 0, 0)
  {
  }

  // ---------------------------------------------------------------- malloc

  /** The least aligned address at which a page could serve a request, and whether it can. */
  predicate CanServe(b: Block, size: nat, a: nat) {
    a % 16 == 0 && b.last <= a < b.last + 16 && a + size <= b.end
  }

  lemma FitsIffCanServe(ar: Arena, i: nat, size: nat)
    requires ChainShape(ar) && i < |ar.blocks|
    ensures Fits(ar.blocks[i], size) <==> CanServe(ar.blocks[i], size, AlignUp(ar.blocks[i].last))
    ensures forall a :: CanServe(ar.blocks[i], size, a) ==> a == AlignUp(ar.blocks[i].last)
  {
    assert BlockShape(ar, i);
    FitIsExact(ar.blocks[i], size);
  }

  /** A small request is served by the first page from `current_` on that has room for it at an
      aligned address: the range lies directly behind what the page has given out, and nothing but
      that page's bump pointer and count changes. */
  lemma ServedByFirstPage(ar: Arena, size: nat, page: Option<nat>, i: nat, a: nat)
    requires ChainShape(ar) && ar.current <= i < |ar.blocks| && CanServe(ar.blocks[i], size, a)
    requires forall j, c :: ar.current <= j < i ==> !CanServe(ar.blocks[j], size, c)
    ensures ArenaMalloc(ar, size, page) ==
            (Arena(ar.base, ar.blocks[i := ar.blocks[i].(last := a + size, quote := Increment(ar.blocks[i].quote))], ar.current), a)
  {
    FitsIffCanServe(ar, i, size);
    forall j | ar.current <= j < i
      ensures !Fits(ar.blocks[j], size)
    {
      FitsIffCanServe(ar, j, size);
    }
  }

  /** The walk ends behind the last node that had failed five times, the end of the chain apart, or
      where it would have stood without any. */
  lemma {:induction false} AdvancesBehindFailures(blocks: seq<Block>, i: nat, current: nat)
    requires i < |blocks| && current <= i
    ensures var r := AdvanceCurrent(blocks, i, current);
            && (r == current || (i < r < |blocks| && blocks[r - 1].failed >= 5))
            && forall j :: i <= j < |blocks| - 1 && r <= j ==> blocks[j].failed < 5
    decreases |blocks| - i
  {
    if i + 1 < |blocks| {
      AdvancesBehindFailures(blocks, i + 1, if blocks[i].failed >= 5 then i + 1 else current);
    }
  }

  /** If none has, null is answered and nothing changes unless the system gives a page. That page
      serves the request behind its node; every other page from `current_` on counts one failure
      more, except the one that was last; and `current_` moves behind the last of these pages that
      had failed five times. */
  lemma ServedByNewPage(ar: Arena, size: nat, page: Option<nat>)
    requires ChainShape(ar) && (page.Some? ==> page.value % 16 == 0)
    requires forall j, c :: ar.current <= j < |ar.blocks| ==> !CanServe(ar.blocks[j], size, c)
    ensures page.None? ==> ArenaMalloc(ar, size, page) == (ar, 0)
    ensures page.Some? ==>
              var n, (ar', a) := |ar.blocks|, ArenaMalloc(ar, size, page);
              && a == page.value + 32 && ar'.base == ar.base
              && |ar'.blocks| == n + 1 && ar'.blocks[n] == Block(page.value, page.value + 4096, a + size, 1, 0)
              && (forall j :: 0 <= j < n ==>
                    ar'.blocks[j] == if ar.current <= j < n - 1 then ar.blocks[j].(failed := Increment(ar.blocks[j].failed))
                                     else ar.blocks[j])
              && (ar'.current == ar.current || (ar.current < ar'.current < n && ar.blocks[ar'.current - 1].failed >= 5))
              && (forall j :: ar'.current <= j < n - 1 ==> ar.blocks[j].failed < 5)
  {
    forall j | ar.current <= j < |ar.blocks|
      ensures !Fits(ar.blocks[j], size)
    {
      FitsIffCanServe(ar, j, size);
    }
    if page.Some? {
      FirstAddress(page.value);
      AdvancesBehindFailures(ar.blocks, ar.current, ar.current);
    }
  }

  // ---------------------------------------------------------------- large requests

  /** A large request takes the first empty one of the first five records, and then no page changes. */
  lemma LargeReusesRecord(p: Pool, size: nat, region: nat, page: Option<nat>, k: nat)
    requires p.arena.current < |p.arena.blocks| && size > 4064
    requires k < 5 && k < |p.large| && p.large[k].address == 0 && forall j :: 0 <= j < k ==> p.large[j].address != 0
    ensures Malloc(p, size, Some(region), page) ==
            (Pool(p.arena, p.large[k := Large(p.large[k].at, region, size % 0x1_0000_0000)]), region)
  {
  }

  /** Otherwise a record of 24 bytes is carved like a small request and linked first; without room
      for it the region is given up, null is answered and nothing changes. */
  lemma LargeCarvesRecord(p: Pool, size: nat, region: nat, page: Option<nat>)
    requires ChainShape(p.arena) && size > 4064
    requires forall j :: 0 <= j < 5 && j < |p.large| ==> p.large[j].address != 0
    ensures var (arena, at) := Malloc(Pool(p.arena, []), 24, None, page);
            Malloc(p, size, Some(region), page) ==
            if at == 0 then (p, 0) else (Pool(arena.arena, [Large(at, region, size % 0x1_0000_0000)] + p.large), region)
  {
    var i := FirstFit(p.arena.blocks, p.arena.current, 24);
    if i < |p.arena.blocks| {
      assert BlockShape(p.arena, i);
    }
  }

  lemma NothingToGive(p: Pool, size: nat, region: Option<nat>, page: Option<nat>)
    requires p.arena.current < |p.arena.blocks|
    ensures Malloc(p, 0, region, page) == (p, 0)
    ensures size > 4064 ==> Malloc(p, size, None, page) == (p, 0)
    ensures 0 < size <= 4064 ==> Malloc(p, size, region, page).1 == ArenaMalloc(p.arena, size, page).1
                                 && Malloc(p, size, region, page).0 == Pool(ArenaMalloc(p.arena, size, page).0, p.large)
  {
  }

  /** An occupied record carries the length its region was asked for, as far as its 32 bits go. */
  ghost predicate SizesOk(large: seq<Large>, big: map<nat, nat>) {
    forall k :: 0 <= k < |large| && large[k].address in big ==> large[k].size == big[large[k].address] % 0x1_0000_0000
  }

  lemma MallocSizes(p: Pool, big: map<nat, nat>, size: nat, a: nat, page: Option<nat>)
    requires p.arena.current < |p.arena.blocks| && SizesOk(p.large, big) && size > 4064 && a !in big
    requires forall k :: 0 <= k < |p.large| ==> p.large[k].address != a
    ensures var (p', answer) := Malloc(p, size, Some(a), page);
            SizesOk(p'.large, if answer == 0 then big else big[a := size])
  {
  }

  lemma FreeSizes(p: Pool, big: map<nat, nat>, a: nat)
    requires SizesOk(p.large, big) && 0 !in big
    ensures SizesOk(FreeMemory(p, a).large, big - {a})
  {
  }

  lemma NewRegionIsUnnamed(w: World, a: nat, n: nat)
    requires Inv(w) && Fresh(w, a, n)
    ensures a !in w.big && 0 !in w.big && forall k :: 0 <= k < |w.pool.large| ==> w.pool.large[k].address != a
  {
    NewBigOk(w.pool.arena, w.big, a, n);
  }

  lemma StepSizes(v: World, op: Op, w: World)
    requires Inv(v) && SizesOk(v.pool.large, v.big) && Step(v, op, w)
    ensures SizesOk(w.pool.large, w.big)
  {
    match op
    case MallocOp(size, region, page) =>
      if size > 4064 && region.Some? {
        NewRegionIsUnnamed(v, region.value, size);
        MallocSizes(v.pool, v.big, size, region.value, page);
      }
    case FreeOp(p) =>
      NullIsNotHeld(v);
      FreeSizes(v.pool, v.big, p);
    case ResetOp =>
  }

  /** This holds over every run. */
  lemma RecordsCarryLengths(base: nat, ops: seq<Op>, ws: seq<World>, n: nat)
    requires base > 0 && base % MP_ALIGNMENT == 0
    requires Runs.IsRun(Start(base), Step, ops, ws) && n < |ws|
    ensures SizesOk(ws[n].pool.large, ws[n].big)
  {
    CreateEstablishes(base);
    var inv := (w: World) => Inv(w) && SizesOk(w.pool.large, w.big);
    forall v, op, w | inv(v) && Step(v, op, w)
      ensures inv(w)
    {
      StepKeeps(v, op, w);
      StepSizes(v, op, w);
    }
    Runs.Invariant(Start(base), Step, ops, ws, inv, n);
  }
}
