/** The pool together with its client, over every run of malloc, valid free and reset. */
module PoolRuns {
  import opened MachineIntegers
  import opened Options
  import opened PoolModel
  import opened PoolArena
  import Runs

  /** What the client was given and has not freed, start address to size: `small` for requests
      of at most 4064 bytes and `big` for the others. */
  datatype World = World(pool: Pool, small: map<nat, nat>, big: map<nat, nat>)

  datatype Op =
    | MallocOp(size: nat, region: Option<nat>, page: Option<nat>)
    | FreeOp(p: nat)
    | ResetOp

  function Records(large: seq<Large>): map<nat, nat> {
    if large == [] then map[] else Records(large[1..])[large[0].at := LARGE_NODE_SIZE]
  }

  /** The ranges taken from pages: the client's small ranges and the linked records. */
  function Carved(small: map<nat, nat>, large: seq<Large>): map<nat, nat> {
    small + Records(large)
  }

  /** An aligned range of n bytes clear of every page. */
  ghost predicate Clear(ar: Arena, a: nat, n: nat) {
    && a > 0
    && n > 0
    && a % MP_ALIGNMENT == 0
    && forall i :: 0 <= i < |ar.blocks| ==> Apart(PageStart(ar, i), PAGE_SIZE, a, n)
  }

  ghost predicate BigOk(ar: Arena, big: map<nat, nat>) {
    && (forall a :: a in big ==> Clear(ar, a, big[a]))
    && (forall a, b :: a in big && b in big && a != b ==> Apart(a, big[a], b, big[b]))
  }

  /** The linked records are distinct and are not client memory. */
  ghost predicate RecordsApart(large: seq<Large>, small: map<nat, nat>) {
    && (forall k :: 0 <= k < |large| ==> large[k].at !in small)
    && (forall k, l :: 0 <= k < l < |large| ==> large[k].at != large[l].at)
  }

  ghost predicate Named(large: seq<Large>, a: nat) {
    exists k :: 0 <= k < |large| && large[k].address == a
  }

  /** The occupied records name exactly the client's regions, each once. */
  ghost predicate RecordsName(large: seq<Large>, big: map<nat, nat>) {
    && (forall k :: 0 <= k < |large| ==> large[k].address == 0 || large[k].address in big)
    && (forall k :: 0 <= k < |large| && large[k].address == 0 ==> large[k].size == 0)
    && (forall k, l :: 0 <= k < l < |large| && large[k].address == large[l].address ==> large[k].address == 0)
    && (forall a :: a in big ==> Named(large, a))
  }

  ghost predicate Inv(w: World) {
    && ArenaInv(w.pool.arena, Carved(w.small, w.pool.large))
    && BigOk(w.pool.arena, w.big)
    && RecordsApart(w.pool.large, w.small)
    && RecordsName(w.pool.large, w.big)
  }

  // ---------------------------------------------------------------- steps and runs

  /** posix_memalign's promise: the answer is aligned, not null, and clear of what is allocated. */
  ghost predicate Fresh(w: World, a: nat, n: nat) {
    && Clear(w.pool.arena, a, n)
    && forall b :: b in w.big ==> Apart(b, w.big[b], a, n)
  }

  ghost predicate Legal(w: World, op: Op) {
    match op
    case MallocOp(size, region, page) =>
      && (region.Some? && size > 0 ==> Fresh(w, region.value, size))
      && (page.Some? ==> Fresh(w, page.value, PAGE_SIZE))
      && (region.Some? && page.Some? ==> Apart(region.value, size, page.value, PAGE_SIZE))
    case FreeOp(p) => p in w.small || p in w.big || p == 0
    case ResetOp => true
  }

  /** malloc starts its walk at `current_`, so that must be a node of the chain. */
  function Apply(w: World, op: Op): World
    requires w.pool.arena.current < |w.pool.arena.blocks|
  {
    match op
    case MallocOp(size, region, page) =>
      var (pool, a) := Malloc(w.pool, size, region, page);
      if a == 0 then w.(pool := pool)
      else if size > PAGE_SIZE - SMALL_NODE_SIZE then World(pool, w.small, w.big[a := size])
      else World(pool, w.small[a := size], w.big)
    case FreeOp(p) => World(FreeMemory(w.pool, p), w.small - {p}, w.big - {p})
    case ResetOp => World(ResetPool(w.pool), map[], map[])
  }

  ghost predicate Step(v: World, op: Op, w: World) {
    && v.pool.arena.current < |v.pool.arena.blocks|
    && Legal(v, op)
    && w == Apply(v, op)
  }

  function Start(base: nat): World {
    World(CreatePool(base), map[], map[])
  }

  // ---------------------------------------------------------------- each step keeps Inv

  lemma CreateEstablishes(base: nat)
    requires base > 0 && base % MP_ALIGNMENT == 0
    ensures Inv(Start(base))
  {
    var ar := CreatePool(base).arena;
    assert Carved(map[], []) == map[];
    assert CarvedIn(map[], ar.blocks[0]) == {};
    assert BlockShape(ar, 0);
  }

  /** A page holds every range carved from it, so no region starts where a range starts. */
  lemma CarvedIsNotBig(ar: Arena, carved: map<nat, nat>, big: map<nat, nat>, a: nat)
    requires ArenaInv(ar, carved) && BigOk(ar, big) && a in carved
    ensures a > 0 && a !in big
  {
    var i :| 0 <= i < |ar.blocks| && Holds(ar.blocks[i], a, carved[a]);
    assert BlockShape(ar, i);
    forall b | b in big
      ensures b != a
    {
      assert Apart(PageStart(ar, i), PAGE_SIZE, b, big[b]);
    }
  }

  /** malloc keeps the pages there were and adds at most the page it was given. */
  lemma MallocPages(ar: Arena, size: nat, page: Option<nat>, a: nat, n: nat)
    requires ChainShape(ar) && Clear(ar, a, n)
    requires page.Some? ==> Apart(page.value, PAGE_SIZE, a, n)
    ensures Clear(ArenaMalloc(ar, size, page).0, a, n)
  {
    var ar' := ArenaMalloc(ar, size, page).0;
    forall i | 0 <= i < |ar'.blocks|
      ensures Apart(PageStart(ar', i), PAGE_SIZE, a, n)
    {
      if i < |ar.blocks| {
        BumpKeepsFields(ar.blocks, ar.current, i);
        assert PageStart(ar', i) == PageStart(ar, i);
      }
    }
  }

  lemma BigSurvivesMalloc(ar: Arena, big: map<nat, nat>, size: nat, page: Option<nat>)
    requires ChainShape(ar) && BigOk(ar, big)
    requires page.Some? ==> forall b :: b in big ==> Apart(b, big[b], page.value, PAGE_SIZE)
    ensures BigOk(ArenaMalloc(ar, size, page).0, big)
  {
    forall a | a in big
      ensures Clear(ArenaMalloc(ar, size, page).0, a, big[a])
    {
      MallocPages(ar, size, page, a, big[a]);
    }
  }

  lemma NewSmall(large: seq<Large>, small: map<nat, nat>, a: nat, n: nat)
    requires RecordsApart(large, small) && a !in Carved(small, large)
    ensures Carved(small[a := n], large) == Carved(small, large)[a := n]
    ensures RecordsApart(large, small[a := n])
  {
    InRecords(large, a);
  }

  lemma SmallMallocKeeps(w: World, size: nat, region: Option<nat>, page: Option<nat>)
    requires Inv(w) && 0 < size <= PAGE_SIZE - SMALL_NODE_SIZE
    requires page.Some? ==> Fresh(w, page.value, PAGE_SIZE)
    ensures Inv(Apply(w, MallocOp(size, region, page)))
  {
    var a := ArenaMalloc(w.pool.arena, size, page).1;
    MallocKeeps(w.pool.arena, Carved(w.small, w.pool.large), size, page);
    if a != 0 {
      BigSurvivesMalloc(w.pool.arena, w.big, size, page);
      NewSmall(w.pool.large, w.small, a, size);
    }
  }

  /** A free record takes a fresh region. */
  lemma ReuseRecordOk(large: seq<Large>, big: map<nat, nat>, k: nat, a: nat, n: nat, size: nat)
    requires RecordsName(large, big) && k < |large| && large[k].address == 0
    requires a > 0 && a !in big && 0 !in big
    ensures RecordsName(large[k := large[k].(address := a, size := size)], big[a := n])
    ensures Records(large[k := large[k].(address := a, size := size)]) == Records(large)
  {
    SameRecords(large, large[k := large[k].(address := a, size := size)]);
    var large', big' := large[k := large[k].(address := a, size := size)], big[a := n];
    forall b | b in big'
      ensures Named(large', b)
    {
      if b == a {
        assert large'[k].address == b;
      } else {
        assert Named(large, b);
        var j :| 0 <= j < |large| && large[j].address == b;
        assert large'[j].address == b;
      }
    }
  }

  lemma {:induction false} SameRecords(large: seq<Large>, large': seq<Large>)
    requires |large| == |large'|
    requires forall k :: 0 <= k < |large| ==> large[k].at == large'[k].at
    ensures Records(large) == Records(large')
  {
    if large != [] {
      SameRecords(large[1..], large'[1..]);
    }
  }

  lemma {:induction false} InRecords(large: seq<Large>, a: nat)
    ensures a in Records(large) <==> exists k :: 0 <= k < |large| && large[k].at == a
    ensures a in Records(large) ==> Records(large)[a] == LARGE_NODE_SIZE
  {
    if large != [] {
      InRecords(large[1..], a);
      if a in Records(large[1..]) {
        var k :| 0 <= k < |large| - 1 && large[1..][k].at == a;
        assert large[k + 1].at == a;
      }
      if k :| 0 < k < |large| && large[k].at == a {
        assert large[1..][k - 1].at == a;
      }
    }
  }

  lemma NewRecordApart(large: seq<Large>, small: map<nat, nat>, r: Large)
    requires RecordsApart(large, small) && r.at !in Carved(small, large)
    ensures RecordsApart([r] + large, small)
    ensures Carved(small, [r] + large) == Carved(small, large)[r.at := LARGE_NODE_SIZE]
  {
    assert ([r] + large)[1..] == large;
    InRecords(large, r.at);
  }

  lemma NewRecordName(large: seq<Large>, big: map<nat, nat>, r: Large, n: nat)
    requires RecordsName(large, big) && r.address > 0 && r.address !in big
    ensures RecordsName([r] + large, big[r.address := n])
  {
    var large', big' := [r] + large, big[r.address := n];
    forall b | b in big'
      ensures Named(large', b)
    {
      if b == r.address {
        assert large'[0].address == b;
      } else {
        assert Named(large, b);
        var j :| 0 <= j < |large| && large[j].address == b;
        assert large'[j + 1].address == b;
      }
    }
  }

  lemma NewBigOk(ar: Arena, big: map<nat, nat>, a: nat, n: nat)
    requires BigOk(ar, big) && Clear(ar, a, n)
    requires forall b :: b in big ==> Apart(b, big[b], a, n)
    ensures a !in big && 0 !in big && BigOk(ar, big[a := n])
  {
  }

  lemma LargeMallocKeeps(w: World, size: nat, region: Option<nat>, page: Option<nat>)
    requires Inv(w) && size > PAGE_SIZE - SMALL_NODE_SIZE
    requires Legal(w, MallocOp(size, region, page))
    ensures Inv(Apply(w, MallocOp(size, region, page)))
  {
    if region.Some? {
      var k := FreeRecord(w.pool.large, 0);
      if k < |w.pool.large| {
        NewBigOk(w.pool.arena, w.big, region.value, size);
        ReuseRecordOk(w.pool.large, w.big, k, region.value, size, size % UINT32);
        ReuseApart(w.pool.large, w.small, k, region.value, size % UINT32);
      } else {
        NewRecordKeeps(w, size, region.value, page);
      }
    }
  }

  lemma ReuseApart(large: seq<Large>, small: map<nat, nat>, k: nat, a: nat, size: nat)
    requires RecordsApart(large, small) && k < |large|
    ensures RecordsApart(large[k := large[k].(address := a, size := size)], small)
  {
  }

  lemma NewRecordKeeps(w: World, size: nat, a: nat, page: Option<nat>)
    requires Inv(w) && Legal(w, MallocOp(size, Some(a), page)) && size > 0
    ensures var (ar', at) := ArenaMalloc(w.pool.arena, LARGE_NODE_SIZE, page);
            if at == 0 then ar' == w.pool.arena
            else Inv(World(Pool(ar', [Large(at, a, size % UINT32)] + w.pool.large), w.small, w.big[a := size]))
  {
    var (ar', at) := ArenaMalloc(w.pool.arena, LARGE_NODE_SIZE, page);
    MallocKeeps(w.pool.arena, Carved(w.small, w.pool.large), LARGE_NODE_SIZE, page);
    if at != 0 {
      BigSurvivesMalloc(w.pool.arena, w.big, LARGE_NODE_SIZE, page);
      MallocPages(w.pool.arena, LARGE_NODE_SIZE, page, a, size);
      NewBigOk(ar', w.big, a, size);
      NewRecordApart(w.pool.large, w.small, Large(at, a, size % UINT32));
      NewRecordName(w.pool.large, w.big, Large(at, a, size % UINT32), size);
    }
  }

  /** Freeing a region empties its record; the record stays linked and the pages do not change. */
  lemma FreeBigKeeps(w: World, p: nat)
    requires Inv(w) && p in w.big
    ensures Inv(Apply(w, FreeOp(p)))
  {
    SmallIsNotBig(w, p);
    FreeRecordOk(w.pool.large, w.small, w.big, p);
    FewerBig(w.pool.arena, w.big, p);
  }

  lemma SmallIsNotBig(w: World, p: nat)
    requires Inv(w) && p in w.big
    ensures p != 0 && p !in w.small
  {
    var carved := Carved(w.small, w.pool.large);
    forall a | a in w.small
      ensures a != p
    {
      assert a in carved;
      CarvedIsNotBig(w.pool.arena, carved, w.big, a);
    }
  }

  lemma FewerBig(ar: Arena, big: map<nat, nat>, p: nat)
    requires BigOk(ar, big)
    ensures BigOk(ar, big - {p})
  {
  }

  lemma FreeRecordOk(large: seq<Large>, small: map<nat, nat>, big: map<nat, nat>, p: nat)
    requires RecordsName(large, big) && RecordsApart(large, small) && p in big && p != 0 && p !in small
    ensures var k := RecordOf(large, 0, p);
            && k < |large|
            && var large' := large[k := large[k].(address := 0, size := 0)];
            && RecordsName(large', big - {p})
            && RecordsApart(large', small - {p})
            && Carved(small - {p}, large') == Carved(small, large)
  {
    assert Named(large, p);
    var k := RecordOf(large, 0, p);
    assert small - {p} == small;
    SameRecords(large, large[k := large[k].(address := 0, size := 0)]);
    EmptyRecordNames(large, big, k);
  }

  lemma EmptyRecordNames(large: seq<Large>, big: map<nat, nat>, k: nat)
    requires RecordsName(large, big) && k < |large| && large[k].address != 0
    ensures RecordsName(large[k := large[k].(address := 0, size := 0)], big - {large[k].address})
  {
    var large' := large[k := large[k].(address := 0, size := 0)];
    forall b | b in big && b != large[k].address
      ensures Named(large', b)
    {
      assert Named(large, b);
      var j :| 0 <= j < |large| && large[j].address == b;
      assert large'[j].address == b;
    }
  }

  lemma FreeSmallKeeps(w: World, p: nat)
    requires Inv(w) && p in w.small
    ensures Inv(Apply(w, FreeOp(p)))
  {
    FreeSmallIs(w, p);
    FreeKeeps(w.pool.arena, Carved(w.small, w.pool.large), p);
    FreePages(w.pool.arena, p, w.big);
  }

  /** Freeing a small range touches no record and no region. */
  lemma FreeSmallIs(w: World, p: nat)
    requires Inv(w) && p in w.small
    ensures Apply(w, FreeOp(p)) == World(Pool(ArenaFree(w.pool.arena, p), w.pool.large), w.small - {p}, w.big)
    ensures RecordsApart(w.pool.large, w.small - {p})
    ensures Carved(w.small - {p}, w.pool.large) == Carved(w.small, w.pool.large) - {p}
  {
    CarvedIsNotBig(w.pool.arena, Carved(w.small, w.pool.large), w.big, p);
    FreeSmallRecords(w.pool.large, w.small, w.big, p);
  }

  lemma FreeSmallRecords(large: seq<Large>, small: map<nat, nat>, big: map<nat, nat>, p: nat)
    requires RecordsName(large, big) && RecordsApart(large, small) && p in small && p !in big && p != 0
    ensures RecordOf(large, 0, p) == |large| && big - {p} == big
    ensures RecordsApart(large, small - {p})
    ensures Carved(small - {p}, large) == Carved(small, large) - {p}
  {
    InRecords(large, p);
  }

  lemma FreePages(ar: Arena, p: nat, big: map<nat, nat>)
    requires BigOk(ar, big)
    ensures BigOk(ArenaFree(ar, p), big)
  {
    var ar' := ArenaFree(ar, p);
    assert forall i :: 0 <= i < |ar.blocks| ==> PageStart(ar', i) == PageStart(ar, i);
    forall a | a in big
      ensures Clear(ar', a, big[a])
    {
      assert Clear(ar, a, big[a]);
    }
  }

  lemma NullIsNotHeld(w: World)
    requires Inv(w)
    ensures w.small - {0} == w.small && w.big - {0} == w.big
  {
    forall a | a in w.small
      ensures a != 0
    {
      assert a in Carved(w.small, w.pool.large);
      CarvedIsNotBig(w.pool.arena, Carved(w.small, w.pool.large), w.big, a);
    }
  }

  /** Freeing the null pointer changes nothing, though it may match an empty record. */
  lemma FreeNullKeeps(w: World)
    requires Inv(w)
    ensures Apply(w, FreeOp(0)) == w
  {
    NullIsNotHeld(w);
    NullIsNowhere(w.pool, w.big);
  }

  lemma NullIsNowhere(p: Pool, big: map<nat, nat>)
    requires ChainShape(p.arena) && RecordsName(p.large, big)
    ensures FreeMemory(p, 0) == p
  {
    forall i | 0 <= i < |p.arena.blocks|
      ensures p.arena.blocks[i].node > 0
    {
      assert BlockShape(p.arena, i);
    }
    var k := RecordOf(p.large, 0, 0);
    if k < |p.large| {
      assert p.large[k := p.large[k].(address := 0, size := 0)] == p.large;
    }
  }

  lemma ResetPoolKeeps(w: World)
    requires Inv(w)
    ensures Inv(Apply(w, ResetOp))
  {
    ResetKeeps(w.pool.arena, Carved(w.small, w.pool.large));
    assert Carved(map[], []) == map[];
  }

  lemma StepKeeps(v: World, op: Op, w: World)
    requires Inv(v) && Step(v, op, w)
    ensures Inv(w)
  {
    match op
    case MallocOp(size, region, page) =>
      if size > PAGE_SIZE - SMALL_NODE_SIZE {
        LargeMallocKeeps(v, size, region, page);
      } else if size > 0 {
        SmallMallocKeeps(v, size, region, page);
      }
    case FreeOp(p) =>
      if p in v.big { FreeBigKeeps(v, p); } else if p in v.small { FreeSmallKeeps(v, p); } else { FreeNullKeeps(v); }
    case ResetOp => ResetPoolKeeps(v);
  }

  /** In every world a client can reach, the whole invariant holds; in particular `current_` is
      always a node of the chain, so no malloc starts from a null pointer. */
  lemma RunKeeps(base: nat, ops: seq<Op>, ws: seq<World>, n: nat)
    requires base > 0 && base % MP_ALIGNMENT == 0
    requires Runs.IsRun(Start(base), Step, ops, ws) && n < |ws|
    ensures Inv(ws[n])
  {
    CreateEstablishes(base);
    forall v, op, w | Inv(v) && Step(v, op, w)
      ensures Inv(w)
    {
      StepKeeps(v, op, w);
    }
    Runs.Invariant(Start(base), Step, ops, ws, Inv, n);
  }

  // ---------------------------------------------------------------- what the client can rely on

  /** Everything handed to the client and not given back. */
  function Held(w: World): map<nat, nat> {
    w.small + w.big
  }

  /** One range the client holds: aligned, inside one page or clear of all of them, touching no
      header (a page's SmallNode, and the Pool record in the head page) and no linked record. */
  ghost predicate SoundRange(w: World, a: nat, n: nat) {
    var ar := w.pool.arena;
    && a % MP_ALIGNMENT == 0
    && n > 0
    && ((exists i :: 0 <= i < |ar.blocks| && InPage(ar, i, a, n)) || Clear(ar, a, n))
    && (forall i :: 0 <= i < |ar.blocks| ==> ClearOfHeader(ar, i, a, n))
    && (forall k :: 0 <= k < |w.pool.large| ==> Apart(w.pool.large[k].at, LARGE_NODE_SIZE, a, n))
  }

  predicate InPage(ar: Arena, i: nat, a: nat, n: nat)
    requires i < |ar.blocks|
  {
    PageStart(ar, i) <= a && a + n <= ar.blocks[i].end
  }

  predicate ClearOfHeader(ar: Arena, i: nat, a: nat, n: nat)
    requires i < |ar.blocks|
  {
    a + n <= PageStart(ar, i) || ar.blocks[i].node + SMALL_NODE_SIZE <= a
  }

  lemma HeldInPage(ar: Arena, i: nat, j: nat, a: nat, n: nat)
    requires ChainShape(ar) && i < |ar.blocks| && j < |ar.blocks| && n > 0
    requires Holds(ar.blocks[i], a, n)
    ensures InPage(ar, i, a, n) && ClearOfHeader(ar, j, a, n)
  {
    assert BlockShape(ar, i) && BlockShape(ar, j);
    assert i < j ==> Apart(PageStart(ar, i), PAGE_SIZE, PageStart(ar, j), PAGE_SIZE);
    assert j < i ==> Apart(PageStart(ar, j), PAGE_SIZE, PageStart(ar, i), PAGE_SIZE);
  }

  lemma PageRangeIsSound(ar: Arena, i: nat, a: nat, n: nat)
    requires ChainShape(ar) && i < |ar.blocks| && n > 0 && Holds(ar.blocks[i], a, n)
    ensures InPage(ar, i, a, n)
    ensures forall j :: 0 <= j < |ar.blocks| ==> ClearOfHeader(ar, j, a, n)
  {
    HeldInPage(ar, i, i, a, n);
    forall j | 0 <= j < |ar.blocks|
      ensures ClearOfHeader(ar, j, a, n)
    {
      HeldInPage(ar, i, j, a, n);
    }
  }

  lemma SmallMissesRecords(w: World, a: nat, k: nat)
    requires Inv(w) && a in w.small && k < |w.pool.large|
    ensures a in Carved(w.small, w.pool.large) && Carved(w.small, w.pool.large)[a] == w.small[a]
    ensures Apart(w.pool.large[k].at, LARGE_NODE_SIZE, a, w.small[a])
  {
    InRecords(w.pool.large, a);
    InRecords(w.pool.large, w.pool.large[k].at);
  }

  lemma SmallIsSound(w: World, a: nat)
    requires Inv(w) && a in w.small
    ensures SoundRange(w, a, w.small[a])
  {
    var ar, carved := w.pool.arena, Carved(w.small, w.pool.large);
    InRecords(w.pool.large, a);
    assert a in carved && carved[a] == w.small[a];
    var i :| 0 <= i < |ar.blocks| && Holds(ar.blocks[i], a, carved[a]);
    PageRangeIsSound(ar, i, a, w.small[a]);
    forall k | 0 <= k < |w.pool.large|
      ensures Apart(w.pool.large[k].at, LARGE_NODE_SIZE, a, w.small[a])
    {
      SmallMissesRecords(w, a, k);
    }
  }

  lemma BigIsSound(w: World, a: nat)
    requires Inv(w) && a in w.big
    ensures SoundRange(w, a, w.big[a])
  {
    var ar, n, carved := w.pool.arena, w.big[a], Carved(w.small, w.pool.large);
    assert Clear(ar, a, n);
    forall i | 0 <= i < |ar.blocks|
      ensures ClearOfHeader(ar, i, a, n)
    {
      assert BlockShape(ar, i) && Apart(PageStart(ar, i), PAGE_SIZE, a, n);
    }
    forall k | 0 <= k < |w.pool.large|
      ensures Apart(w.pool.large[k].at, LARGE_NODE_SIZE, a, n)
    {
      InRecords(w.pool.large, w.pool.large[k].at);
      CarvedIsClear(ar, carved, w.pool.large[k].at, a, n);
    }
  }

  lemma CarvedIsClear(ar: Arena, carved: map<nat, nat>, c: nat, a: nat, n: nat)
    requires ArenaInv(ar, carved) && c in carved && Clear(ar, a, n)
    ensures Apart(c, carved[c], a, n)
  {
    var i :| 0 <= i < |ar.blocks| && Holds(ar.blocks[i], c, carved[c]);
    assert BlockShape(ar, i) && Apart(PageStart(ar, i), PAGE_SIZE, a, n);
  }

  lemma HeldApart(w: World, a: nat, b: nat)
    requires Inv(w) && a in Held(w) && b in Held(w) && a != b
    ensures Apart(a, Held(w)[a], b, Held(w)[b])
  {
    var carved := Carved(w.small, w.pool.large);
    InRecords(w.pool.large, a);
    InRecords(w.pool.large, b);
    if a !in w.big && b in w.big {
      CarvedIsClear(w.pool.arena, carved, a, b, w.big[b]);
    } else if b !in w.big && a in w.big {
      CarvedIsClear(w.pool.arena, carved, b, a, w.big[a]);
    }
  }

  /** The live small ranges inside one page. */
  function SmallIn(small: map<nat, nat>, b: Block): set<nat> {
    set a | a in small && InBlock(b, a)
  }

  /** How many linked records lie inside one page. */
  function RecordsIn(large: seq<Large>, b: Block): nat {
    if large == [] then 0 else (if InBlock(b, large[0].at) then 1 else 0) + RecordsIn(large[1..], b)
  }

  /** Distinct records have distinct addresses, so counting either counts the other. */
  lemma {:induction false} RecordsCount(large: seq<Large>, b: Block)
    requires forall k, l :: 0 <= k < l < |large| ==> large[k].at != large[l].at
    ensures RecordsIn(large, b) == |CarvedIn(Records(large), b)|
  {
    if large == [] {
      assert CarvedIn(Records(large), b) == {};
    } else {
      var rest := large[1..];
      RecordsCount(rest, b);
      InRecords(rest, large[0].at);
      CarvedInAdd(Records(rest), b, large[0].at, LARGE_NODE_SIZE);
    }
  }

  lemma CarvedSplits(small: map<nat, nat>, large: seq<Large>, b: Block)
    requires RecordsApart(large, small)
    ensures |CarvedIn(Carved(small, large), b)| == |SmallIn(small, b)| + |CarvedIn(Records(large), b)|
  {
    forall a | a in small
      ensures a !in Records(large)
    {
      InRecords(large, a);
    }
    assert CarvedIn(Carved(small, large), b) == SmallIn(small, b) + CarvedIn(Records(large), b);
    assert SmallIn(small, b) !! CarvedIn(Records(large), b);
  }

  /** A page's reference count is its live small ranges plus the records it hosts. */
  lemma QuoteCountsUsers(w: World, i: nat)
    requires Inv(w) && i < |w.pool.arena.blocks|
    ensures var b := w.pool.arena.blocks[i];
            b.quote == |SmallIn(w.small, b)| + RecordsIn(w.pool.large, b)
  {
    RecordsCount(w.pool.large, w.pool.arena.blocks[i]);
    CarvedSplits(w.small, w.pool.large, w.pool.arena.blocks[i]);
  }

  /** The allocator's promise, over every run: in every world reached from a fresh pool by any
      mallocs, valid frees and resets, everything the client holds is sound and pairwise
      disjoint, and every page counts exactly its users. */
  lemma PoolIsSafe(base: nat, ops: seq<Op>, ws: seq<World>, n: nat)
    requires base > 0 && base % MP_ALIGNMENT == 0
    requires Runs.IsRun(Start(base), Step, ops, ws) && n < |ws|
    ensures forall a :: a in Held(ws[n]) ==> SoundRange(ws[n], a, Held(ws[n])[a])
    ensures forall a, b :: a in Held(ws[n]) && b in Held(ws[n]) && a != b ==>
              Apart(a, Held(ws[n])[a], b, Held(ws[n])[b])
    ensures forall i :: 0 <= i < |ws[n].pool.arena.blocks| ==>
              var b := ws[n].pool.arena.blocks[i];
              b.quote == |SmallIn(ws[n].small, b)| + RecordsIn(ws[n].pool.large, b)
    ensures ws[n].pool.arena.current < |ws[n].pool.arena.blocks|
  {
    RunKeeps(base, ops, ws, n);
    var w := ws[n];
    forall a | a in Held(w)
      ensures SoundRange(w, a, Held(w)[a])
    {
      if a in w.big { BigIsSound(w, a); } else { SmallIsSound(w, a); }
    }
    forall a, b | a in Held(w) && b in Held(w) && a != b
      ensures Apart(a, Held(w)[a], b, Held(w)[b])
    {
      HeldApart(w, a, b);
    }
    forall i | 0 <= i < |w.pool.arena.blocks|
      ensures w.pool.arena.blocks[i].quote ==
              |SmallIn(w.small, w.pool.arena.blocks[i])| + RecordsIn(w.pool.large, w.pool.arena.blocks[i])
    {
      QuoteCountsUsers(w, i);
    }
  }
}
