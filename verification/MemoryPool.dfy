/** The pool as the source has it: two linked lists walked by loops and updated in place.
    Every method is proved to do what the function of the same name in PoolModel does. */
module MemoryPoolObject {
  import opened MachineIntegers
  import opened Options
  import opened PoolModel

  class SmallNode {
    const node: nat
    var end: nat
    var last: nat
    var quote: nat
    var failed: nat
    var next: SmallNode?
    ghost const index: nat  // its place in the chain

    constructor (node: nat, end: nat, last: nat, quote: nat, ghost index: nat)
      ensures this.node == node && this.end == end && this.last == last && this.quote == quote
      ensures failed == 0 && next == null && this.index == index
    {
      this.index := index;
      this.node, this.end, this.last, this.quote := node, end, last, quote;
      failed, next := 0, null;
    }
  }

  class LargeNode {
    const at: nat
    var address: nat
    var size: nat
    var next: LargeNode?
    ghost const rank: nat  // how many records follow it

    constructor (at: nat, address: nat, size: nat, next: LargeNode?, ghost rank: nat)
      ensures this.at == at && this.address == address && this.size == size && this.next == next && this.rank == rank
    {
      this.rank := rank;
      this.at, this.address, this.size, this.next := at, address, size, next;
    }
  }

  function BlockOf(n: SmallNode): Block
    reads n
  {
    Block(n.node, n.end, n.last, n.quote, n.failed)
  }

  function RecordFrom(n: LargeNode): Large
    reads n
  {
    Large(n.at, n.address, n.size)
  }

  /** What follows position i in a linked list. */
  function After<T>(nodes: seq<T>, i: nat): Option<T> {
    if i + 1 < |nodes| then Some(nodes[i + 1]) else None
  }

  ghost predicate Links(n: SmallNode, next: Option<SmallNode>)
    reads n
  {
    match next case None => n.next == null case Some(m) => n.next == m
  }

  ghost predicate LinksLarge(n: LargeNode, next: Option<LargeNode>)
    reads n
  {
    match next case None => n.next == null case Some(m) => n.next == m
  }

  class MemoryPool {
    const base: nat
    var head: SmallNode
    var current: SmallNode
    var largeList: LargeNode?

    // The nodes reached from head and from largeList, in list order, and the two lists' values.
    ghost var chain: seq<SmallNode>
    ghost var records: seq<LargeNode>
    ghost var arena: Arena
    ghost var large: seq<Large>

    ghost predicate ValidChain()
      reads this`head, this`chain, this`arena, chain
    {
      && 0 < |chain| == |arena.blocks|
      && head == chain[0]
      && (forall i :: 0 <= i < |chain| ==> arena.blocks[i] == BlockOf(chain[i]))
      && (forall i {:trigger After(chain, i)} :: 0 <= i < |chain| ==> Links(chain[i], After(chain, i)))
      && (forall i :: 0 <= i < |chain| ==> chain[i].index == i)
      && arena.current < |chain|
    }

    ghost predicate ValidRecords()
      reads this`largeList, this`records, this`large, records
    {
      && |records| == |large|
      && largeList == (if |records| > 0 then records[0] else null)
      && (forall i :: 0 <= i < |records| ==> large[i] == RecordFrom(records[i]))
      && (forall i {:trigger After(records, i)} :: 0 <= i < |records| ==> LinksLarge(records[i], After(records, i)))
      && (forall i :: 0 <= i < |records| ==> records[i].rank == |records| - 1 - i)
    }

    /** Both lists are acyclic, `current` is a node of the chain, and the ghosts are their values. */
    ghost predicate Valid()
      reads this, chain, records
    {
      && ValidChain()
      && ValidRecords()
      && arena.base == base
      && current == chain[arena.current]
    }

    ghost function View(): Pool
      reads this
    {
      Pool(arena, large)
    }

    constructor (base: nat)
      ensures Valid() && fresh(chain) && records == []
      ensures View() == CreatePool(base)
    {
      this.base := base;
      var node := base + POOL_SIZE;
      var n := new SmallNode(node, base + PAGE_SIZE, node + SMALL_NODE_SIZE, 0, 0);
      head, current, largeList := n, n, null;
      chain, records, arena, large := [n], [], CreatePool(base).arena, [];
    }

    /** Storing into the three counters of one node. */
    method SetNode(n: SmallNode, ghost i: nat, last: nat, quote: nat, failed: nat)
      requires ValidChain() && i < |chain| && n == chain[i]
      modifies this`arena, n
      ensures ValidChain() && n.next == old(n.next)
      ensures arena == old(arena).(blocks :=
        old(arena).blocks[i := old(arena).blocks[i].(last := last, quote := quote, failed := failed)])
    {
      n.last := last;
      n.quote := quote;
      n.failed := failed;
      arena := arena.(blocks := arena.blocks[i := BlockOf(n)]);
    }

    /** The walk of mallocSmallNode from `current` has come to node i and would make node c the new
        `current`. */
    ghost predicate Walked(ar: Arena, last: SmallNode, i: nat, newCurrent: SmallNode, c: nat)
      reads this`head, this`chain, this`arena, chain
    {
      && ValidChain() && arena == CountedUpTo(ar, i)
      && ar.current <= i < |chain| == |ar.blocks| && c < |chain|
      && last == chain[i] && newCurrent == chain[c]
      && AdvanceCurrent(ar.blocks, ar.current, ar.current) == AdvanceCurrent(ar.blocks, i, c)
    }

    /** One turn of it: the node counts a failure, and a node that had five of them pushes `current`
        past itself. */
    method CountFailure(last: SmallNode, newCurrent: SmallNode, ghost ar: Arena, ghost i: nat, ghost c: nat)
      returns (next: SmallNode, current': SmallNode, ghost c': nat)
      requires Walked(ar, last, i, newCurrent, c) && last.next != null
      modifies this`arena, last
      ensures Walked(ar, next, i + 1, current', c')
    {
      assert Links(last, After(chain, i));
      CountedOneMore(ar, i);
      current', c' := newCurrent, c;
      if last.failed >= 5 {
        current', c' := last.next, i + 1;
      }
      SetNode(last, i, last.last, last.quote, Increment(last.failed));
      next := last.next;
    }

    /** The whole walk: every node but the last counts a failure. */
    method CountFailures() returns (last: SmallNode, newCurrent: SmallNode)
      requires ValidChain() && current == chain[arena.current]
      modifies this`arena, chain
      ensures ValidChain() && last == chain[|chain| - 1]
      ensures newCurrent == chain[AdvanceCurrent(old(arena).blocks, old(arena).current, old(arena).current)]
      ensures arena == old(arena).(blocks := BumpFailed(old(arena).blocks, old(arena).current))
    {
      ghost var ar, i, c := arena, arena.current, arena.current;
      newCurrent, last := current, current;
      WalkBegins();
      while last.next != null
        invariant Walked(ar, last, i, newCurrent, c)
        decreases |chain| - i
      {
        last, newCurrent, c := CountFailure(last, newCurrent, ar, i, c);
        i := i + 1;
      }
      WalkEnds(ar, last, i, newCurrent, c);
    }

    lemma WalkBegins()
      requires ValidChain() && current == chain[arena.current]
      ensures Walked(arena, current, arena.current, current, arena.current)
    {
      CountedEnds(arena);
    }

    lemma WalkEnds(ar: Arena, last: SmallNode, i: nat, newCurrent: SmallNode, c: nat)
      requires Walked(ar, last, i, newCurrent, c) && last.next == null
      ensures last == chain[|chain| - 1]
      ensures AdvanceCurrent(ar.blocks, ar.current, ar.current) == c
      ensures arena == ar.(blocks := BumpFailed(ar.blocks, ar.current))
    {
      assert Links(last, After(chain, i));
      CountedEnds(ar);
    }

    method LinkLast(last: SmallNode, n: SmallNode)
      requires ValidChain() && last == chain[|chain| - 1]
      requires n !in chain && n.next == null && n.index == |chain|
      modifies this`arena, this`chain, last
      ensures ValidChain() && chain == old(chain) + [n]
      ensures arena == old(arena).(blocks := old(arena).blocks + [BlockOf(n)])
    {
      last.next := n;
      chain := chain + [n];
      arena := arena.(blocks := arena.blocks + [BlockOf(n)]);
      assert forall i :: 0 <= i < |chain| - 2 ==> After(chain, i) == old(After(chain, i));
    }

    /** A new page with one range carved from it, linked at the end of the chain. */
    method MallocSmallNode(size: nat, page: Option<nat>) returns (addr: nat)
      requires ValidChain() && current == chain[arena.current]
      modifies this`arena, this`chain, this`current, chain
      ensures ValidChain() && current == chain[arena.current]
      ensures page.None? ==> addr == 0 && arena == old(arena) && chain == old(chain)
      ensures page.Some? ==> |chain| == |old(chain)| + 1 && old(chain) <= chain && fresh(chain[|old(chain)|])
      ensures page.Some? ==> addr == AlignUp(page.value + SMALL_NODE_SIZE)
      ensures page.Some? ==> arena == AddBlock(old(arena), page.value, size)
    {
      if page.None? {
        return 0;
      }
      addr := AlignUp(page.value + SMALL_NODE_SIZE);
      AppendPage(page.value, addr + size);
    }

    method AppendPage(page: nat, last: nat)
      requires ValidChain() && current == chain[arena.current]
      modifies this`arena, this`chain, this`current, chain
      ensures ValidChain() && current == chain[arena.current]
      ensures |chain| == |old(chain)| + 1 && old(chain) <= chain && fresh(chain[|old(chain)|])
      ensures var ar := old(arena);
              arena == Arena(ar.base, BumpFailed(ar.blocks, ar.current) + [Block(page, page + PAGE_SIZE, last, 1, 0)],
                             AdvanceCurrent(ar.blocks, ar.current, ar.current))
    {
      ghost var next := AdvanceCurrent(arena.blocks, arena.current, arena.current);
      var smallNode := new SmallNode(page, page + PAGE_SIZE, last, 1, |chain|);
      var cur, newCurrent := CountFailures();
      LinkLast(cur, smallNode);
      MoveCurrent(newCurrent, next);
    }

    method MoveCurrent(n: SmallNode, ghost k: nat)
      requires ValidChain() && k < |chain| && n == chain[k]
      modifies this`current, this`arena
      ensures ValidChain() && current == chain[arena.current]
      ensures arena == old(arena).(current := k)
    {
      current := n;
      arena := arena.(current := k);
    }

    /** The walk of malloc: the first node from `current` on with room for the request. */
    method FindFit(size: nat) returns (cur: SmallNode?, ghost i: nat)
      requires ValidChain() && current == chain[arena.current]
      ensures i == FirstFit(arena.blocks, arena.current, size)
      ensures cur == if i < |chain| then chain[i] else null
    {
      cur := current;
      i := arena.current;
      while cur != null && !(AsUnsigned(cur.end - AlignUp(cur.last)) >= size)
        invariant i <= |chain|
        invariant cur == if i < |chain| then chain[i] else null
        invariant FirstFit(arena.blocks, arena.current, size) == FirstFit(arena.blocks, i, size)
        decreases |chain| - i
      {
        assert Links(cur, After(chain, i));
        cur := cur.next;
        i := i + 1;
      }
    }

    /** malloc for a request that is not large. */
    method MallocFromPages(size: nat, page: Option<nat>) returns (addr: nat)
      requires ValidChain() && current == chain[arena.current]
      modifies this`arena, this`chain, this`current, chain
      ensures ValidChain() && current == chain[arena.current]
      ensures fresh(set n | n in chain && n !in old(chain))
      ensures (arena, addr) == ArenaMalloc(old(arena), size, page)
    {
      var cur, i := FindFit(size);
      if cur != null {
        addr := AlignUp(cur.last);
        SetNode(cur, i, addr + size, Increment(cur.quote), cur.failed);
      } else {
        addr := MallocSmallNode(size, page);
      }
    }

    method Malloc(size: nat, region: Option<nat>, page: Option<nat>) returns (addr: nat)
      requires Valid()
      modifies this, chain, records
      ensures Valid()
      ensures fresh(set n | n in chain && n !in old(chain)) && fresh(set n | n in records && n !in old(records))
      ensures (View(), addr) == PoolModel.Malloc(old(View()), size, region, page)
    {
      if size == 0 {
        return 0;
      }
      if size > PAGE_SIZE - SMALL_NODE_SIZE {
        addr := MallocLargeNode(size, region, page);
      } else {
        addr := MallocFromPages(size, page);
      }
    }

    /** The bounded walk of mallocLargeNode over the records. */
    method FindFreeRecord() returns (largeNode: LargeNode?, ghost i: nat)
      requires ValidRecords()
      ensures i == FreeRecord(large, 0)
      ensures largeNode == if i < |records| then records[i] else null
    {
      var count := 0;
      largeNode := largeList;
      i := 0;
      while largeNode != null
        invariant i <= |records| && count == i
        invariant largeNode == if i < |records| then records[i] else null
        invariant FreeRecord(large, 0) == FreeRecord(large, i)
        decreases |records| - i
      {
        if largeNode.address == 0 {
          return;
        }
        if count > 3 {
          return null, |records|;
        }
        count := count + 1;
        assert LinksLarge(largeNode, After(records, i));
        largeNode := largeNode.next;
        i := i + 1;
      }
    }

    method SetRecord(largeNode: LargeNode, ghost i: nat, address: nat, size: nat)
      requires ValidRecords() && i < |records| && largeNode == records[i]
      modifies this`large, largeNode
      ensures ValidRecords()
      ensures large == old(large)[i := old(large)[i].(address := address, size := size)]
    {
      largeNode.size := size;
      largeNode.address := address;
      large := large[i := RecordFrom(largeNode)];
    }

    method PushRecord(at: nat, address: nat, size: nat)
      requires ValidRecords()
      modifies this`large, this`largeList, this`records
      ensures ValidRecords() && fresh(set n | n in records && n !in old(records))
      ensures large == [Large(at, address, size)] + old(large)
    {
      var record := new LargeNode(at, address, size, largeList, |records|);
      largeList := record;
      records := [record] + records;
      large := [RecordFrom(record)] + large;
      assert forall i :: 0 < i < |records| ==> After(records, i) == old(After(records, i - 1));
    }

    method MallocLargeNode(size: nat, region: Option<nat>, page: Option<nat>) returns (addr: nat)
      requires Valid()
      modifies this, chain, records
      ensures Valid()
      ensures fresh(set n | n in chain && n !in old(chain)) && fresh(set n | n in records && n !in old(records))
      ensures (View(), addr) == MallocLarge(old(View()), size, region, page)
    {
      if region.None? {
        return 0;
      }
      addr := region.value;
      var largeNode, i := FindFreeRecord();
      if largeNode != null {
        SetRecord(largeNode, i, addr, size % UINT32);
        return;
      }
      addr := NewRecord(addr, size % UINT32, page);
    }

    /** A record for the region, taken from the pages; without one the region is given up. */
    method NewRecord(region: nat, size: nat, page: Option<nat>) returns (addr: nat)
      requires Valid()
      modifies this, chain
      ensures Valid()
      ensures fresh(set n | n in chain && n !in old(chain)) && fresh(set n | n in records && n !in old(records))
      ensures var (ar, at) := ArenaMalloc(old(arena), LARGE_NODE_SIZE, page);
              arena == ar && (if at == 0 then addr == 0 && large == old(large)
                              else addr == region && large == [Large(at, region, size)] + old(large))
    {
      var at := MallocFromPages(LARGE_NODE_SIZE, page);
      if at == 0 {
        return 0;
      }
      PushRecord(at, region, size);
      addr := region;
    }

    method FreeMemory(p: nat)
      requires Valid()
      modifies this, chain, records
      ensures Valid() && chain == old(chain) && records == old(records)
      ensures View() == PoolModel.FreeMemory(old(View()), p)
    {
      var largeNode, k := FindRecord(p);
      if largeNode != null {
        SetRecord(largeNode, k, 0, 0);
        return;
      }
      FreeFromPages(p);
    }

    method FreeFromPages(p: nat)
      requires ValidChain() && arena.base == base && current == chain[arena.current]
      modifies this`arena, this`current, chain
      ensures ValidChain() && current == chain[arena.current]
      ensures arena == ArenaFree(old(arena), p)
    {
      var small, i := FindOwner(p);
      if small != null {
        ReleaseFrom(small, i);
      }
    }

    method FindRecord(p: nat) returns (largeNode: LargeNode?, ghost k: nat)
      requires ValidRecords()
      ensures k == RecordOf(large, 0, p)
      ensures largeNode == if k < |records| then records[k] else null
    {
      largeNode := largeList;
      k := 0;
      while largeNode != null && largeNode.address != p
        invariant k <= |records|
        invariant largeNode == if k < |records| then records[k] else null
        invariant RecordOf(large, 0, p) == RecordOf(large, k, p)
        decreases |records| - k
      {
        assert LinksLarge(largeNode, After(records, k));
        largeNode := largeNode.next;
        k := k + 1;
      }
    }

    method FindOwner(p: nat) returns (small: SmallNode?, ghost i: nat)
      requires ValidChain()
      ensures i == OwningBlock(arena.blocks, 0, p)
      ensures small == if i < |chain| then chain[i] else null
    {
      small := head;
      i := 0;
      while small != null && !(small.node <= p <= small.end)
        invariant i <= |chain|
        invariant small == if i < |chain| then chain[i] else null
        invariant OwningBlock(arena.blocks, 0, p) == OwningBlock(arena.blocks, i, p)
        decreases |chain| - i
      {
        assert Links(small, After(chain, i));
        small := small.next;
        i := i + 1;
      }
    }

    method ReleaseFrom(small: SmallNode, ghost i: nat)
      requires ValidChain() && arena.base == base && current == chain[arena.current]
      requires i < |chain| && small == chain[i]
      modifies this`arena, this`current, small
      ensures ValidChain() && current == chain[arena.current]
      ensures arena == Release(old(arena), i)
    {
      var quote := Decrement(small.quote);
      if quote != 0 {
        SetNode(small, i, small.last, quote, small.failed);
      } else {
        if small == head {
          SetNode(small, i, base + POOL_SIZE + SMALL_NODE_SIZE, quote, 0);
        } else {
          SetNode(small, i, small.node + SMALL_NODE_SIZE, quote, 0);
        }
        current := head;
        arena := arena.(current := 0);
      }
    }

    method ResetPool()
      requires Valid()
      modifies this, chain
      ensures Valid() && chain == old(chain)
      ensures View() == PoolModel.ResetPool(old(View()))
    {
      largeList, records, large := null, [], [];
      current := head;
      arena := arena.(current := 0);
      RewindAll();
    }

    method RewindAll()
      requires ValidChain() && arena.current == 0
      modifies this`arena, chain
      ensures ValidChain() && arena == ArenaReset(old(arena))
    {
      ghost var ar := arena;
      var small: SmallNode? := head;
      ghost var i := 0;
      while small != null
        invariant 0 <= i <= |chain|
        invariant small == if i < |chain| then chain[i] else null
        invariant ValidChain() && arena == ar.(blocks := arena.blocks)
        invariant forall j :: 0 <= j < |chain| ==>
          arena.blocks[j] == if j < i then Rewound(ar.blocks[j]) else ar.blocks[j]
        decreases |chain| - i
      {
        assert Links(small, After(chain, i));
        SetNode(small, i, small.node + SMALL_NODE_SIZE, 0, 0);
        small := small.next;
        i := i + 1;
      }
      assert arena.blocks == ArenaReset(ar).blocks;
    }
  }
}
