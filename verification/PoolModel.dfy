/** The value model of the memory pool (src/memory/MemoryPool.cc): what each pool operation
    does to the chain of pages, to the large-region records and to the addresses it returns.
    Addresses are natural numbers and 0 is the null pointer. The system allocator appears as
    the `region` and `page` arguments: the answers `posix_memalign` gave, None being failure. */
module PoolModel {
  import opened MachineIntegers
  import opened Options

  const PAGE_SIZE: nat := 4096
  const MP_ALIGNMENT: nat := 16
  // LP64 sizes of the three records the pool stores inside its own pages.
  const POOL_SIZE: nat := 24
  const SMALL_NODE_SIZE: nat := 32
  const LARGE_NODE_SIZE: nat := 24

  /** A SmallNode: `node` is the address of the node itself. */
  datatype Block = Block(node: nat, end: nat, last: nat, quote: nat, failed: nat)

  /** A LargeNode stored at address `at`; `address` is 0 when the record is free. */
  datatype Large = Large(at: nat, address: nat, size: nat)

  /** The chain reached from `head_` in list order; `current` is the position of `current_`. */
  datatype Arena = Arena(base: nat, blocks: seq<Block>, current: nat)

  datatype Pool = Pool(arena: Arena, large: seq<Large>)

  // ---------------------------------------------------------------- arithmetic

  function AlignUp(n: nat): (r: nat)
    ensures r % MP_ALIGNMENT == 0 && n <= r < n + MP_ALIGNMENT
  {
    (n + MP_ALIGNMENT - 1) / MP_ALIGNMENT * MP_ALIGNMENT
  }

  predicate Apart(a: nat, m: nat, b: nat, n: nat) {
    a + m <= b || b + n <= a
  }

  // ---------------------------------------------------------------- pages

  /** The pointer difference is compared as an `unsigned long`. */
  predicate Fits(b: Block, size: nat) {
    AsUnsigned(b.end - AlignUp(b.last)) >= size
  }

  function FirstFit(blocks: seq<Block>, i: nat, size: nat): (r: nat)
    requires i <= |blocks|
    ensures i <= r <= |blocks|
    ensures r < |blocks| ==> Fits(blocks[r], size)
    ensures forall j :: i <= j < r ==> !Fits(blocks[j], size)
    decreases |blocks| - i
  {
    if i == |blocks| || Fits(blocks[i], size) then i else FirstFit(blocks, i + 1, size)
  }

  /** The walk of mallocSmallNode: a node that failed five times pushes `current_` past itself. */
  function AdvanceCurrent(blocks: seq<Block>, i: nat, current: nat): (r: nat)
    requires i < |blocks| && current < |blocks|
    ensures r < |blocks|
    decreases |blocks| - i
  {
    if i + 1 == |blocks| then current
    else AdvanceCurrent(blocks, i + 1, if blocks[i].failed >= 5 then i + 1 else current)
  }

  function BumpFailed(blocks: seq<Block>, from: nat): (r: seq<Block>)
    ensures |r| == |blocks|
  {
    seq(|blocks|, i requires 0 <= i < |blocks| =>
      if from <= i && i + 1 < |blocks|
      then blocks[i].(failed := Increment(blocks[i].failed))
      else blocks[i])
  }

  function Carve(b: Block, size: nat): Block {
    b.(last := AlignUp(b.last) + size, quote := Increment(b.quote))
  }

  function AddBlock(ar: Arena, page: nat, size: nat): Arena
    requires ar.current < |ar.blocks|
  {
    var block := Block(page, page + PAGE_SIZE, AlignUp(page + SMALL_NODE_SIZE) + size, 1, 0);
    Arena(ar.base,
          BumpFailed(ar.blocks, ar.current) + [block],
          AdvanceCurrent(ar.blocks, ar.current, ar.current))
  }

  /** The arena after a walk from `current` has counted failures as far as node i. */
  function CountedUpTo(ar: Arena, i: nat): Arena {
    ar.(blocks := seq(|ar.blocks|, k requires 0 <= k < |ar.blocks| =>
      if ar.current <= k < i then ar.blocks[k].(failed := Increment(ar.blocks[k].failed)) else ar.blocks[k]))
  }

  function CountAt(ar: Arena, i: nat): Arena
    requires i < |ar.blocks|
  {
    ar.(blocks := ar.blocks[i := ar.blocks[i].(failed := Increment(ar.blocks[i].failed))])
  }

  lemma CountedOneMore(ar: Arena, i: nat)
    requires ar.current <= i < |ar.blocks|
    ensures CountedUpTo(ar, i).blocks[i] == ar.blocks[i]
    ensures CountAt(CountedUpTo(ar, i), i) == CountedUpTo(ar, i + 1)
  {
  }

  lemma CountedEnds(ar: Arena)
    requires ar.current < |ar.blocks|
    ensures CountedUpTo(ar, ar.current) == ar
    ensures CountedUpTo(ar, |ar.blocks| - 1) == ar.(blocks := BumpFailed(ar.blocks, ar.current))
  {
    assert CountedUpTo(ar, ar.current).blocks == ar.blocks;
    assert CountedUpTo(ar, |ar.blocks| - 1).blocks == BumpFailed(ar.blocks, ar.current);
  }

  function ArenaMalloc(ar: Arena, size: nat, page: Option<nat>): (Arena, nat)
    requires ar.current < |ar.blocks|
  {
    var i := FirstFit(ar.blocks, ar.current, size);
    if i < |ar.blocks| then
      (ar.(blocks := ar.blocks[i := Carve(ar.blocks[i], size)]), AlignUp(ar.blocks[i].last))
    else if page.None? then
      (ar, 0)
    else
      (AddBlock(ar, page.value, size), AlignUp(page.value + SMALL_NODE_SIZE))
  }

  /** The first block passing freeMemory's test, which includes both ends. */
  function OwningBlock(blocks: seq<Block>, i: nat, p: nat): (r: nat)
    requires i <= |blocks|
    ensures i <= r <= |blocks|
    ensures r < |blocks| ==> blocks[r].node <= p <= blocks[r].end
    ensures forall j :: i <= j < r ==> !(blocks[j].node <= p <= blocks[j].end)
    decreases |blocks| - i
  {
    if i == |blocks| || blocks[i].node <= p <= blocks[i].end then i else OwningBlock(blocks, i + 1, p)
  }

  function Release(ar: Arena, i: nat): Arena
    requires i < |ar.blocks|
  {
    var b := ar.blocks[i];
    var quote := Decrement(b.quote);
    if quote != 0 then
      ar.(blocks := ar.blocks[i := b.(quote := quote)])
    else
      var start := if i == 0 then ar.base + POOL_SIZE + SMALL_NODE_SIZE else b.node + SMALL_NODE_SIZE;
      ar.(blocks := ar.blocks[i := b.(quote := 0, last := start, failed := 0)], current := 0)
  }

  function ArenaFree(ar: Arena, p: nat): Arena {
    var i := OwningBlock(ar.blocks, 0, p);
    if i < |ar.blocks| then Release(ar, i) else ar
  }

  function Rewound(b: Block): Block {
    b.(last := b.node + SMALL_NODE_SIZE, failed := 0, quote := 0)
  }

  function ArenaReset(ar: Arena): Arena {
    Arena(ar.base,
          seq(|ar.blocks|, i requires 0 <= i < |ar.blocks| => Rewound(ar.blocks[i])),
          0)
  }

  // ---------------------------------------------------------------- the whole pool

  /** createPool: the first page carries the Pool record, the head node and the first free byte. */
  function CreatePool(base: nat): Pool {
    var node := base + POOL_SIZE;
    Pool(Arena(base, [Block(node, base + PAGE_SIZE, node + SMALL_NODE_SIZE, 0, 0)], 0), [])
  }

  /** The bounded search for a free record: at most the first five records are looked at. */
  function FreeRecord(large: seq<Large>, i: nat): (r: nat)
    requires i <= |large|
    ensures i <= r <= |large|
    ensures r < |large| ==> large[r].address == 0 && (r <= 4 || r == i)
    ensures forall j :: i <= j < r && (j <= 4 || j == i) ==> large[j].address != 0
    decreases |large| - i
  {
    if i == |large| then i
    else if large[i].address == 0 then i
    else if i > 3 then |large|
    else FreeRecord(large, i + 1)
  }

  function MallocLarge(p: Pool, size: nat, region: Option<nat>, page: Option<nat>): (Pool, nat)
    requires p.arena.current < |p.arena.blocks|
  {
    if region.None? then (p, 0)
    else
      var k := FreeRecord(p.large, 0);
      if k < |p.large| then
        (p.(large := p.large[k := p.large[k].(address := region.value, size := size % UINT32)]), region.value)
      else
        var (arena, at) := ArenaMalloc(p.arena, LARGE_NODE_SIZE, page);
        if at == 0 then (p.(arena := arena), 0)
        else (Pool(arena, [Large(at, region.value, size % UINT32)] + p.large), region.value)
  }

  function Malloc(p: Pool, size: nat, region: Option<nat>, page: Option<nat>): (Pool, nat)
    requires p.arena.current < |p.arena.blocks|
  {
    if size == 0 then (p, 0)
    else if size > PAGE_SIZE - SMALL_NODE_SIZE then MallocLarge(p, size, region, page)
    else
      var (arena, a) := ArenaMalloc(p.arena, size, page);
      (p.(arena := arena), a)
  }

  function RecordOf(large: seq<Large>, i: nat, p: nat): (r: nat)
    requires i <= |large|
    ensures i <= r <= |large|
    ensures r < |large| ==> large[r].address == p
    ensures forall j :: i <= j < r ==> large[j].address != p
    decreases |large| - i
  {
    if i == |large| || large[i].address == p then i else RecordOf(large, i + 1, p)
  }

  function FreeMemory(p: Pool, ptr: nat): Pool {
    var k := RecordOf(p.large, 0, ptr);
    if k < |p.large| then p.(large := p.large[k := p.large[k].(address := 0, size := 0)])
    else p.(arena := ArenaFree(p.arena, ptr))
  }

  function ResetPool(p: Pool): Pool {
    Pool(ArenaReset(p.arena), [])
  }
}
