/** What every operation on the chain of pages keeps. `carved` is the set of ranges handed out
    of the pages and not yet given back: start address to size. */
module PoolArena {
  import opened MachineIntegers
  import opened Options
  import opened PoolModel

  /** Where page i begins: the head page begins at the Pool record, 24 bytes before its node. */
  function PageStart(ar: Arena, i: nat): nat
    requires i < |ar.blocks|
  {
    if i == 0 then ar.base else ar.blocks[i].node
  }

  predicate BlockShape(ar: Arena, i: nat)
    requires i < |ar.blocks|
  {
    var b := ar.blocks[i];
    && PageStart(ar, i) > 0
    && PageStart(ar, i) % MP_ALIGNMENT == 0
    && b.end == PageStart(ar, i) + PAGE_SIZE
    && b.node + SMALL_NODE_SIZE <= b.last <= b.end
  }

  predicate Holds(b: Block, a: nat, n: nat) {
    b.node + SMALL_NODE_SIZE <= a && a + n <= b.last
  }

  predicate InBlock(b: Block, a: nat) {
    b.node <= a < b.end
  }

  function CarvedIn(carved: map<nat, nat>, b: Block): set<nat> {
    set a | a in carved && InBlock(b, a)
  }

  ghost predicate ChainShape(ar: Arena) {
    && 0 < |ar.blocks|
    && ar.current < |ar.blocks|
    && ar.blocks[0].node == ar.base + POOL_SIZE
    && (forall i :: 0 <= i < |ar.blocks| ==> BlockShape(ar, i))
    && (forall i, j :: 0 <= i < j < |ar.blocks| ==> Apart(PageStart(ar, i), PAGE_SIZE, PageStart(ar, j), PAGE_SIZE))
  }

  ghost predicate RangesOk(blocks: seq<Block>, carved: map<nat, nat>) {
    && (forall a :: a in carved ==> a % MP_ALIGNMENT == 0 && carved[a] > 0)
    && (forall a :: a in carved ==> exists i :: 0 <= i < |blocks| && Holds(blocks[i], a, carved[a]))
    && (forall a, b :: a in carved && b in carved && a != b ==> Apart(a, carved[a], b, carved[b]))
  }

  ghost predicate CountsOk(blocks: seq<Block>, carved: map<nat, nat>) {
    forall i :: 0 <= i < |blocks| ==> blocks[i].quote == |CarvedIn(carved, blocks[i])|
  }

  ghost predicate ArenaInv(ar: Arena, carved: map<nat, nat>) {
    && ChainShape(ar)
    && RangesOk(ar.blocks, carved)
    && CountsOk(ar.blocks, carved)
  }

  /** A page the system allocator may answer with: aligned, non-null and clear of every page. */
  ghost predicate FreshPage(ar: Arena, page: nat) {
    && page > 0
    && page % MP_ALIGNMENT == 0
    && forall i :: 0 <= i < |ar.blocks| ==> Apart(PageStart(ar, i), PAGE_SIZE, page, PAGE_SIZE)
  }

  // ---------------------------------------------------------------- small facts

  /** The pointer difference at the fit test never goes negative. */
  lemma FitIsExact(b: Block, size: nat)
    requires b.last <= b.end && b.end % MP_ALIGNMENT == 0
    ensures AlignUp(b.last) <= b.end
    ensures Fits(b, size) <==> AlignUp(b.last) + size <= b.end
  {
  }

  /** An address lies in at most one page, even when the end of the page counts as inside and
      the first node is not at the start of its page. */
  lemma OwnerIsUnique(ar: Arena, i: nat, j: nat, a: nat)
    requires ChainShape(ar)
    requires i < |ar.blocks| && j < |ar.blocks|
    requires ar.blocks[i].node + SMALL_NODE_SIZE <= a <= ar.blocks[i].end && a < ar.blocks[i].end
    requires ar.blocks[j].node <= a <= ar.blocks[j].end
    ensures i == j
  {
    assert BlockShape(ar, i) && BlockShape(ar, j);
    assert i < j ==> Apart(PageStart(ar, i), PAGE_SIZE, PageStart(ar, j), PAGE_SIZE);
    assert j < i ==> Apart(PageStart(ar, j), PAGE_SIZE, PageStart(ar, i), PAGE_SIZE);
  }

  /** The same page shape with other counters is the same page. */
  lemma SameWindow(carved: map<nat, nat>, b: Block, c: Block)
    requires b.node == c.node && b.end == c.end
    ensures CarvedIn(carved, b) == CarvedIn(carved, c)
  {
  }

  lemma CarvedInAdd(carved: map<nat, nat>, b: Block, a: nat, n: nat)
    requires a !in carved
    ensures CarvedIn(carved[a := n], b) == CarvedIn(carved, b) + (if InBlock(b, a) then {a} else {})
    ensures |CarvedIn(carved[a := n], b)| == |CarvedIn(carved, b)| + (if InBlock(b, a) then 1 else 0)
  {
    assert CarvedIn(carved[a := n], b) == CarvedIn(carved, b) + (if InBlock(b, a) then {a} else {});
  }

  lemma CarvedInRemove(carved: map<nat, nat>, b: Block, a: nat)
    requires a in carved
    ensures CarvedIn(carved - {a}, b) == CarvedIn(carved, b) - {a}
    ensures |CarvedIn(carved - {a}, b)| == |CarvedIn(carved, b)| - (if InBlock(b, a) then 1 else 0)
  {
    assert CarvedIn(carved - {a}, b) == CarvedIn(carved, b) - {a};
    if InBlock(b, a) {
      assert a in CarvedIn(carved, b);
    }
  }

  lemma {:induction false} IntervalSize(s: set<nat>, lo: nat, hi: nat)
    requires lo <= hi
    requires forall a :: a in s ==> lo <= a < hi
    ensures |s| <= hi - lo
    decreases hi - lo
  {
    if lo == hi {
      assert s == {};
    } else {
      var rest := s - {hi - 1};
      IntervalSize(rest, lo, hi - 1);
      assert s <= rest + {hi - 1};
      assert |s| <= |rest + {hi - 1}| <= |rest| + 1;
    }
  }

  /** A reference count is far from the 32-bit wrap in every pool that keeps the invariant. */
  lemma QuoteIsBounded(ar: Arena, carved: map<nat, nat>, i: nat)
    requires ArenaInv(ar, carved) && i < |ar.blocks|
    ensures ar.blocks[i].quote <= PAGE_SIZE
  {
    var b := ar.blocks[i];
    assert BlockShape(ar, i);
    IntervalSize(CarvedIn(carved, b), b.node, b.end);
  }

  // ---------------------------------------------------------------- malloc

  /** A range inside page j, below its bump pointer, is clear of the tail of any page i. */
  lemma TailIsClear(ar: Arena, i: nat, j: nat, a: nat, n: nat, c: nat, m: nat)
    requires ChainShape(ar) && i < |ar.blocks| && j < |ar.blocks|
    requires ar.blocks[i].last <= a && a + n <= ar.blocks[i].end && 0 < n
    requires Holds(ar.blocks[j], c, m) && 0 < m
    ensures a != c && Apart(a, n, c, m)
  {
    assert BlockShape(ar, i) && BlockShape(ar, j);
    assert i < j ==> Apart(PageStart(ar, i), PAGE_SIZE, PageStart(ar, j), PAGE_SIZE);
    assert j < i ==> Apart(PageStart(ar, j), PAGE_SIZE, PageStart(ar, i), PAGE_SIZE);
  }

  lemma ReplaceBlockKeepsShape(ar: Arena, i: nat, b: Block, current: nat)
    requires ChainShape(ar) && i < |ar.blocks| && current < |ar.blocks|
    requires b.node == ar.blocks[i].node && b.end == ar.blocks[i].end
    requires b.node + SMALL_NODE_SIZE <= b.last <= b.end
    ensures ChainShape(Arena(ar.base, ar.blocks[i := b], current))
  {
    var ar' := Arena(ar.base, ar.blocks[i := b], current);
    forall k | 0 <= k < |ar'.blocks|
      ensures PageStart(ar', k) == PageStart(ar, k) && BlockShape(ar', k)
    {
      assert BlockShape(ar, k);
    }
  }

  lemma CarveRanges(blocks: seq<Block>, carved: map<nat, nat>, i: nat, a: nat, size: nat)
    requires RangesOk(blocks, carved) && i < |blocks| && 0 < size
    requires a == AlignUp(blocks[i].last) && blocks[i].node + SMALL_NODE_SIZE <= a
    requires forall c :: c in carved ==> a != c && Apart(a, size, c, carved[c])
    ensures RangesOk(blocks[i := Carve(blocks[i], size)], carved[a := size])
  {
    var blocks', carved' := blocks[i := Carve(blocks[i], size)], carved[a := size];
    forall c | c in carved'
      ensures exists k :: 0 <= k < |blocks'| && Holds(blocks'[k], c, carved'[c])
    {
      if c == a {
        assert Holds(blocks'[i], c, carved'[c]);
      } else {
        var k :| 0 <= k < |blocks| && Holds(blocks[k], c, carved[c]);
        assert Holds(blocks'[k], c, carved'[c]);
      }
    }
  }

  lemma CarveCount(ar: Arena, carved: map<nat, nat>, i: nat, a: nat, size: nat, k: nat)
    requires ArenaInv(ar, carved) && i < |ar.blocks| && k < |ar.blocks| && 0 < size
    requires a == AlignUp(ar.blocks[i].last) && a + size <= ar.blocks[i].end && a !in carved
    ensures var b := ar.blocks[i := Carve(ar.blocks[i], size)][k];
            b.quote == |CarvedIn(carved[a := size], b)|
  {
    var b := ar.blocks[i := Carve(ar.blocks[i], size)][k];
    QuoteIsBounded(ar, carved, i);
    assert BlockShape(ar, i) && BlockShape(ar, k);
    SameWindow(carved[a := size], ar.blocks[k], b);
    CarvedInAdd(carved, ar.blocks[k], a, size);
    if InBlock(ar.blocks[k], a) {
      OwnerIsUnique(ar, i, k, a);
    }
  }

  lemma CarveKeeps(ar: Arena, carved: map<nat, nat>, i: nat, size: nat)
    requires ArenaInv(ar, carved) && i < |ar.blocks| && 0 < size
    requires Fits(ar.blocks[i], size)
    ensures var a := AlignUp(ar.blocks[i].last);
            && a !in carved
            && ArenaInv(ar.(blocks := ar.blocks[i := Carve(ar.blocks[i], size)]), carved[a := size])
  {
    var a := AlignUp(ar.blocks[i].last);
    assert BlockShape(ar, i);
    FitIsExact(ar.blocks[i], size);
    forall c | c in carved
      ensures a != c && Apart(a, size, c, carved[c])
    {
      var j :| 0 <= j < |ar.blocks| && Holds(ar.blocks[j], c, carved[c]);
      TailIsClear(ar, i, j, a, size, c, carved[c]);
    }
    ReplaceBlockKeepsShape(ar, i, Carve(ar.blocks[i], size), ar.current);
    CarveRanges(ar.blocks, carved, i, a, size);
    var blocks' := ar.blocks[i := Carve(ar.blocks[i], size)];
    forall k | 0 <= k < |ar.blocks|
      ensures blocks'[k].quote == |CarvedIn(carved[a := size], blocks'[k])|
    {
      CarveCount(ar, carved, i, a, size, k);
    }
  }

  lemma BumpKeepsFields(blocks: seq<Block>, from: nat, i: nat)
    requires i < |blocks|
    ensures var b := BumpFailed(blocks, from)[i];
            b == blocks[i].(failed := b.failed)
  {
  }

  lemma FirstAddress(page: nat)
    requires page % MP_ALIGNMENT == 0
    ensures AlignUp(page + SMALL_NODE_SIZE) == page + SMALL_NODE_SIZE
  {
  }

  lemma NewBlockShape(ar: Arena, page: nat, size: nat)
    requires ChainShape(ar) && FreshPage(ar, page)
    requires 0 < size <= PAGE_SIZE - SMALL_NODE_SIZE
    ensures AlignUp(page + SMALL_NODE_SIZE) == page + SMALL_NODE_SIZE
    ensures ChainShape(AddBlock(ar, page, size))
  {
    FirstAddress(page);
    var ar' := AddBlock(ar, page, size);
    forall k | 0 <= k < |ar'.blocks|
      ensures BlockShape(ar', k) && (k < |ar.blocks| ==> PageStart(ar', k) == PageStart(ar, k))
    {
      if k < |ar.blocks| {
        BumpKeepsFields(ar.blocks, ar.current, k);
        assert BlockShape(ar, k);
      }
    }
  }

  /** Nothing already carved touches a fresh page. */
  lemma FreshPageIsClear(ar: Arena, page: nat, j: nat, c: nat, m: nat)
    requires ChainShape(ar) && FreshPage(ar, page)
    requires j < |ar.blocks| && Holds(ar.blocks[j], c, m) && 0 < m
    ensures Apart(page, PAGE_SIZE, c, m)
  {
    assert BlockShape(ar, j) && Apart(PageStart(ar, j), PAGE_SIZE, page, PAGE_SIZE);
  }

  lemma NewBlockRanges(ar: Arena, carved: map<nat, nat>, page: nat, size: nat)
    requires ChainShape(ar) && RangesOk(ar.blocks, carved) && FreshPage(ar, page)
    requires 0 < size <= PAGE_SIZE - SMALL_NODE_SIZE
    ensures page + SMALL_NODE_SIZE !in carved
    ensures RangesOk(AddBlock(ar, page, size).blocks, carved[page + SMALL_NODE_SIZE := size])
  {
    NewBlockShape(ar, page, size);
    var a := page + SMALL_NODE_SIZE;
    var blocks', carved' := AddBlock(ar, page, size).blocks, carved[a := size];
    forall c | c in carved
      ensures c != a && Apart(a, size, c, carved[c])
      ensures exists k :: 0 <= k < |blocks'| && Holds(blocks'[k], c, carved[c])
    {
      var k :| 0 <= k < |ar.blocks| && Holds(ar.blocks[k], c, carved[c]);
      FreshPageIsClear(ar, page, k, c, carved[c]);
      BumpKeepsFields(ar.blocks, ar.current, k);
      assert Holds(blocks'[k], c, carved[c]);
    }
    assert Holds(blocks'[|ar.blocks|], a, size);
  }

  /** A brand-new page always has room for a request that is not large. */
  lemma NewBlockKeeps(ar: Arena, carved: map<nat, nat>, page: nat, size: nat)
    requires ArenaInv(ar, carved) && FreshPage(ar, page)
    requires 0 < size <= PAGE_SIZE - SMALL_NODE_SIZE
    ensures var a := AlignUp(page + SMALL_NODE_SIZE);
            && a == page + SMALL_NODE_SIZE
            && a !in carved
            && ArenaInv(AddBlock(ar, page, size), carved[a := size])
  {
    NewBlockShape(ar, page, size);
    NewBlockRanges(ar, carved, page, size);
    NewBlockCounts(ar, carved, page, size);
  }

  lemma NewBlockCounts(ar: Arena, carved: map<nat, nat>, page: nat, size: nat)
    requires ArenaInv(ar, carved) && FreshPage(ar, page)
    requires page + SMALL_NODE_SIZE !in carved
    ensures CountsOk(AddBlock(ar, page, size).blocks, carved[page + SMALL_NODE_SIZE := size])
  {
    var a := page + SMALL_NODE_SIZE;
    var blocks' := AddBlock(ar, page, size).blocks;
    forall k | 0 <= k < |blocks'|
      ensures blocks'[k].quote == |CarvedIn(carved[a := size], blocks'[k])|
    {
      CarvedInAdd(carved, blocks'[k], a, size);
      if k < |ar.blocks| {
        assert BlockShape(ar, k) && Apart(PageStart(ar, k), PAGE_SIZE, page, PAGE_SIZE);
        SameWindow(carved, ar.blocks[k], blocks'[k]);
      } else {
        NewPageIsEmpty(ar, carved, page, blocks'[k]);
      }
    }
  }

  lemma NewPageIsEmpty(ar: Arena, carved: map<nat, nat>, page: nat, b: Block)
    requires ChainShape(ar) && RangesOk(ar.blocks, carved) && FreshPage(ar, page)
    requires b.node == page && b.end == page + PAGE_SIZE
    ensures CarvedIn(carved, b) == {}
  {
    forall c | c in carved
      ensures !InBlock(b, c)
    {
      var j :| 0 <= j < |ar.blocks| && Holds(ar.blocks[j], c, carved[c]);
      FreshPageIsClear(ar, page, j, c, carved[c]);
    }
  }

  /** A small request answers null and changes nothing, or carves a range that was free. */
  lemma MallocKeeps(ar: Arena, carved: map<nat, nat>, size: nat, page: Option<nat>)
    requires ArenaInv(ar, carved)
    requires 0 < size <= PAGE_SIZE - SMALL_NODE_SIZE
    requires page.Some? ==> FreshPage(ar, page.value)
    ensures var (ar', a) := ArenaMalloc(ar, size, page);
            if a == 0 then ar' == ar
            else a !in carved && ArenaInv(ar', carved[a := size])
    ensures ArenaMalloc(ar, size, page).1 == 0 <==>
            page.None? && FirstFit(ar.blocks, ar.current, size) == |ar.blocks|
  {
    var i := FirstFit(ar.blocks, ar.current, size);
    if i < |ar.blocks| {
      assert BlockShape(ar, i);
      CarveKeeps(ar, carved, i, size);
    } else if page.Some? {
      NewBlockKeeps(ar, carved, page.value, size);
    }
  }

  // ---------------------------------------------------------------- free and reset

  /** freeMemory finds the page a live range came from, in spite of its inclusive end test. */
  lemma FreeFindsOwner(ar: Arena, carved: map<nat, nat>, p: nat)
    requires ArenaInv(ar, carved) && p in carved
    ensures var i := OwningBlock(ar.blocks, 0, p);
            && i < |ar.blocks|
            && Holds(ar.blocks[i], p, carved[p])
            && 0 < ar.blocks[i].quote
  {
    var k :| 0 <= k < |ar.blocks| && Holds(ar.blocks[k], p, carved[p]);
    assert BlockShape(ar, k);
    var i := OwningBlock(ar.blocks, 0, p);
    OwnerIsUnique(ar, k, i, p);
    assert p in CarvedIn(carved, ar.blocks[i]);
  }

  lemma ReleaseCount(ar: Arena, carved: map<nat, nat>, i: nat, p: nat, k: nat)
    requires ChainShape(ar) && CountsOk(ar.blocks, carved) && p in carved
    requires i < |ar.blocks| && k < |ar.blocks|
    requires ar.blocks[i].node + SMALL_NODE_SIZE <= p < ar.blocks[i].end && 0 < ar.blocks[i].quote
    ensures var b := Release(ar, i).blocks[k];
            b.quote == |CarvedIn(carved - {p}, b)|
  {
    SameWindow(carved - {p}, ar.blocks[k], Release(ar, i).blocks[k]);
    CarvedInRemove(carved, ar.blocks[k], p);
    if InBlock(ar.blocks[k], p) {
      OwnerIsUnique(ar, i, k, p);
    }
  }

  /** A page is rewound only when nothing in it is live, so no remaining range is uncovered. */
  lemma ReleaseRange(ar: Arena, carved: map<nat, nat>, i: nat, p: nat, c: nat, k: nat)
    requires ChainShape(ar) && CountsOk(ar.blocks, carved) && p in carved && c in carved && c != p
    requires i < |ar.blocks| && k < |ar.blocks|
    requires ar.blocks[i].node + SMALL_NODE_SIZE <= p < ar.blocks[i].end && 0 < ar.blocks[i].quote
    requires Holds(ar.blocks[k], c, carved[c]) && 0 < carved[c]
    ensures Holds(Release(ar, i).blocks[k], c, carved[c])
  {
    ReleaseCount(ar, carved, i, p, k);
    assert BlockShape(ar, k);
    assert c in CarvedIn(carved - {p}, Release(ar, i).blocks[k]);
  }

  lemma FreeKeeps(ar: Arena, carved: map<nat, nat>, p: nat)
    requires ArenaInv(ar, carved) && p in carved
    ensures ArenaInv(ArenaFree(ar, p), carved - {p})
  {
    FreeFindsOwner(ar, carved, p);
    var i := OwningBlock(ar.blocks, 0, p);
    var ar' := ArenaFree(ar, p);
    assert BlockShape(ar, i) && BlockShape(ar, 0);
    ReplaceBlockKeepsShape(ar, i, ar'.blocks[i], ar'.current);
    forall k | 0 <= k < |ar.blocks|
      ensures ar'.blocks[k].quote == |CarvedIn(carved - {p}, ar'.blocks[k])|
    {
      ReleaseCount(ar, carved, i, p, k);
    }
    forall c | c in carved && c != p
      ensures exists k :: 0 <= k < |ar'.blocks| && Holds(ar'.blocks[k], c, carved[c])
    {
      var k :| 0 <= k < |ar.blocks| && Holds(ar.blocks[k], c, carved[c]);
      ReleaseRange(ar, carved, i, p, c, k);
    }
  }

  lemma ResetKeeps(ar: Arena, carved: map<nat, nat>)
    requires ArenaInv(ar, carved)
    ensures ArenaInv(ArenaReset(ar), map[])
  {
    var ar' := ArenaReset(ar);
    forall k | 0 <= k < |ar'.blocks|
      ensures PageStart(ar', k) == PageStart(ar, k) && BlockShape(ar', k)
      ensures ar'.blocks[k].quote == |CarvedIn(map[], ar'.blocks[k])|
    {
      assert BlockShape(ar, k);
      assert CarvedIn(map[], ar'.blocks[k]) == {};
    }
  }
}
