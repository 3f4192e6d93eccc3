/** The order book in place: an arena of nodes, two price maps and an index, updated by each
    operation and proved to be the simple book of `Books`. */
module OrderBooks {
  import opened Types
  import opened Sequences
  import opened Arenas
  import Books
  import opened Links

  datatype InsertError = ArenaFull | DuplicateIntent

  datatype InsertOutcome = Ok(idx: ArenaIdx) | Err(error: InsertError)

  datatype TopView = TopView(price: u64, arenaIdx: ArenaIdx, order: Order)

  /** Hang a freshly allocated node behind the old tail of its level, if there is one. */
  method LinkTail(arena: Arena<OrderNode>, oldTail: ArenaIdx, idx: ArenaIdx, order: Order, ghost before: Nodes)
    requires arena.Valid()
    requires idx !in before && arena.abs.live == before[idx := OrderNode(order, SENTINEL, SENTINEL)]
    requires oldTail.IsValid() ==> oldTail in before
    modifies arena, arena.slots
    ensures arena.Valid()
    ensures arena.abs.live == LinkAtTail(before, oldTail, idx, order)
  {
    hide Refines;
    if oldTail.IsValid() {
      var tailNode := arena.Get(oldTail);
      var linked := arena.Write(oldTail, tailNode.value.(next := idx));
      linked := arena.Write(idx, OrderNode(order, SENTINEL, oldTail));
    }
  }

  /** The level a node has joined at the tail. */
  method Grow(level: PriceLevel, idx: ArenaIdx, order: Order) returns (grown: PriceLevel)
    requires level.len < U32_MAX
    ensures grown == GrownLevel(level, idx, order)
  {
    if level.tail.IsValid() {
      grown := level.(tail := idx);
    } else {
      grown := level.(head := idx, tail := idx);
    }
    grown := grown.(totalQty := WrapAdd(grown.totalQty, order.quantity), len := grown.len + 1);
  }

  /** Free a node and relink its two neighbours around it. */
  method Detach(arena: Arena<OrderNode>, idx: ArenaIdx) returns (node: OrderNode)
    requires arena.Valid() && idx in arena.abs.live
    modifies arena, arena.slots
    ensures arena.Valid()
    ensures node == old(arena.abs.live)[idx]
    ensures arena.abs.live == Spliced(old(arena.abs.live), idx)
  {
    hide Refines;
    var removed := arena.Remove(idx);
    node := removed.value;
    var prevNode := arena.Get(node.prev);
    if prevNode.Some? {
      var linked := arena.Write(node.prev, prevNode.value.(next := node.next));
    }
    var nextNode := arena.Get(node.next);
    if nextNode.Some? {
      var linked := arena.Write(node.next, nextNode.value.(prev := node.prev));
    }
  }

  /** Free the head of a level and clear its successor's back link. */
  method DetachHead(arena: Arena<OrderNode>, head: ArenaIdx) returns (node: OrderNode, hasNext: bool)
    requires arena.Valid() && head in arena.abs.live
    requires arena.abs.live[head].prev == SENTINEL && SENTINEL !in arena.abs.live
    modifies arena, arena.slots
    ensures arena.Valid()
    ensures node == old(arena.abs.live)[head]
    ensures hasNext <==> node.next in old(arena.abs.live) && node.next != head
    ensures arena.abs.live == Spliced(old(arena.abs.live), head)
  {
    hide Refines;
    var removed := arena.Remove(head);
    node := removed.value;
    var nextNode := arena.Get(node.next);
    hasNext := nextNode.Some?;
    if hasNext {
      var linked := arena.Write(node.next, nextNode.value.(prev := SENTINEL));
    }
  }

  /** The level a node has left, wherever the node stood. */
  method Shrink(level: PriceLevel, node: OrderNode) returns (shrunk: PriceLevel)
    requires 0 < level.len
    ensures shrunk == ShrunkLevel(level, node)
  {
    shrunk := level;
    if !node.prev.IsValid() {
      shrunk := shrunk.(head := node.next);
    }
    if !node.next.IsValid() {
      shrunk := shrunk.(tail := node.prev);
    }
    shrunk := shrunk.(totalQty := WrapSub(shrunk.totalQty, node.order.quantity), len := shrunk.len - 1);
  }

  /** The level its head has left, as `pop_top` computes it. */
  method ShrinkHead(level: PriceLevel, node: OrderNode, hasNext: bool) returns (shrunk: PriceLevel)
    requires 0 < level.len && node.prev == SENTINEL
    requires if hasNext then node.next.IsValid() else node.next == SENTINEL
    ensures shrunk == ShrunkLevel(level, node)
  {
    if hasNext {
      shrunk := level.(head := node.next);
    } else {
      shrunk := level.(head := SENTINEL, tail := SENTINEL);
    }
    shrunk := shrunk.(totalQty := WrapSub(shrunk.totalQty, node.order.quantity), len := shrunk.len - 1);
  }

  method LevelDepth(levels: LevelMap, side: Side, maxLevels: nat) returns (r: seq<(u64, u64)>)
    ensures |r| <= maxLevels
    ensures r <= Totals(levels, side, levels.Keys)
    ensures |r| < maxLevels ==> r == Totals(levels, side, levels.Keys)
  {
    var prices := levels.Keys;
    r := [];
    while prices != {} && |r| < maxLevels
      invariant |r| <= maxLevels
      invariant prices <= levels.Keys
      invariant r + Totals(levels, side, prices) == Totals(levels, side, levels.Keys)
      decreases |prices|
    {
      var price := Books.Best(side, prices);
      r := r + [(price, levels[price].totalQty)];
      prices := prices - {price};
    }
  }

  lemma CancelAt(b: Books.Book, hash: IntentHash)
    ensures var i := IndexWhere(b.resting, Books.WithHash(hash));
            Books.CancelHash(b, hash) ==
            if i < |b.resting| then (b.(resting := RemoveAt(b.resting, i)), Some(b.resting[i])) else (b, None)
    ensures Books.CancelHash(b, hash).1.Some? <==> exists o :: o in b.resting && o.intentHash == hash
  {
  }

  class OrderBook {
    const instrumentId: u32
    const arena: Arena<OrderNode>
    var bids: LevelMap
    var asks: LevelMap
    var index: map<IntentHash, ArenaIdx>
    ghost var arrivals: seq<ArenaIdx>

    ghost function Repr(): set<object> {
      {this, arena, arena.slots}
    }

    ghost function View(): Shape
      reads this, arena
    {
      Shape(arena.abs.live, bids, asks, index, arrivals)
    }

    ghost predicate Valid()
      reads this, arena, arena.slots
    {
      && arena.Valid()
      && Inv(View())
    }

    /** The simple book this structure stands for. */
    ghost function Contents(): Books.Book
      requires Valid()
      reads this, arena, arena.slots
    {
      Books.Book(arena.slots.Length, Orders(arena.abs.live, arrivals))
    }

    constructor (instrumentId: u32, capacity: u32)
      requires 0 < capacity < U32_MAX
      ensures Valid() && fresh(Repr())
      ensures this.instrumentId == instrumentId
      ensures Contents() == Books.Book(capacity, [])
    {
      this.instrumentId := instrumentId;
      arena := new Arena(capacity);
      bids, asks, index := map[], map[], map[];
      arrivals := [];
      EmptyInv();
      new;
      hide Refines, Inv;
    }

    /** No slot leaks: occupied slots, index entries and resting orders are equally many. */
    lemma Census()
      requires Valid()
      ensures arena.len == |index| == |Contents().resting| == |arena.abs.live|
      ensures |Contents().resting| <= arena.slots.Length < U32_MAX
    {
      hide SideOk;
      DistinctSize(arrivals, arena.abs.live.Keys);
      IndexSize(View());
    }

    method LevelsOf(side: Side) returns (levels: LevelMap)
      ensures levels == View().Levels(side)
    {
      levels := if side == Bid then bids else asks;
    }

    method SetLevels(side: Side, levels: LevelMap)
      modifies this`bids, this`asks
      ensures View() == old(View()).WithLevels(side, levels)
    {
      if side == Bid {
        bids := levels;
      } else {
        asks := levels;
      }
    }

    /** Store a shrunken level, or drop it when it has become empty. */
    method StoreLevel(side: Side, price: u64, level: PriceLevel)
      modifies this`bids, this`asks
      ensures View() == old(View()).WithLevels(side, ShrunkLevels(old(View()).Levels(side), price, level))
    {
      var levels := LevelsOf(side);
      if level.len == 0 {
        SetLevels(side, levels - {price});
      } else {
        SetLevels(side, levels[price := level]);
      }
    }

    /** Thread a freshly allocated node into its level, the index and the arrivals. */
    method Thread(idx: ArenaIdx, order: Order, ghost before: Shape)
      requires arena.Valid() && CanInsert(before, idx, order)
      requires View() == before.(live := before.live[idx := OrderNode(order, SENTINEL, SENTINEL)])
      modifies Repr()
      ensures arena.Valid() && View() == AfterInsert(before, idx, order)
    {
      hide Refines, Inv, LinkAtTail, GrownLevel;
      LevelBounds(before, order.side, order.price);
      var levels := LevelsOf(order.side);
      var level := LevelAt(levels, order.price);
      LinkTail(arena, level.tail, idx, order, before.live);
      level := Grow(level, idx, order);
      SetLevels(order.side, levels[order.price := level]);
      index := index[order.intentHash := idx];
      arrivals := arrivals + [idx];
    }

    method Insert(order: Order) returns (r: InsertOutcome)
      requires Valid()
      modifies Repr()
      ensures Valid()
      ensures match Books.Insert(old(Contents()), order)
              case Inserted(book) =>
                r.Ok? && Contents() == book && r.idx in arena.abs.live && arena.abs.live[r.idx].order == order
              case RefusedDuplicate => r == Err(InsertError.DuplicateIntent) && Contents() == old(Contents())
              case RefusedFull => r == Err(ArenaFull) && Contents() == old(Contents())
    {
      hide Refines, Inv, AfterInsert;
      ghost var i := HashFound(View(), order.intentHash);
      Census();
      if order.intentHash in index {
        return Err(InsertError.DuplicateIntent);
      }
      var slot := arena.Alloc(OrderNode(order, SENTINEL, SENTINEL));
      if slot == None {
        return Err(ArenaFull);
      }
      var idx := slot.value;
      InsertKeepsInv(old(View()), idx, order);
      InsertedNodes(old(View()), idx, order);
      Thread(idx, order, old(View()));
      return Ok(idx);
    }

    method Cancel(hash: IntentHash) returns (r: Option<Order>)
      requires Valid()
      modifies Repr()
      ensures Valid()
      ensures (Contents(), r) == Books.CancelHash(old(Contents()), hash)
      ensures r.Some? <==> exists o :: o in old(Contents()).resting && o.intentHash == hash
      ensures r.Some? ==> r.value in old(Contents()).resting && r.value.intentHash == hash
    {
      hide Refines, Inv, Spliced, ShrunkLevel, Books.CancelHash;
      ghost var i := HashFound(View(), hash);
      CancelAt(Contents(), hash);
      if hash !in index {
        return None;
      }
      UnlinkKeepsInv(View(), i);
      Unlinkable(View(), i);
      var idx := index[hash];
      index := index - {hash};
      var node := Detach(arena, idx);

      var levels := LevelsOf(node.order.side);
      var level := levels[node.order.price];
      level := Shrink(level, node);
      StoreLevel(node.order.side, node.order.price, level);
      arrivals := RemoveAt(arrivals, i);
      assert View() == AfterUnlink(old(View()), i);
      return Some(node.order);
    }

    method PopTop(side: Side) returns (r: Option<Order>)
      requires Valid()
      modifies Repr()
      ensures Valid()
      ensures r == Books.Top(old(Contents()), side)
      ensures Contents() == Books.PopTop(old(Contents()), side)
    {
      hide Refines, Inv, Spliced, ShrunkLevel;
      ghost var i := TopFound(View(), side);
      var levels := LevelsOf(side);
      if levels.Keys == {} {
        return None;
      }
      UnlinkKeepsInv(View(), i);
      Unlinkable(View(), i);
      HeadUnlinkable(View(), i);
      var price := Books.Best(side, levels.Keys);
      var level := levels[price];
      var node, hasNext := DetachHead(arena, level.head);
      level := ShrinkHead(level, node, hasNext);
      StoreLevel(side, price, level);
      index := index - {node.order.intentHash};
      arrivals := RemoveAt(arrivals, i);
      assert View() == AfterUnlink(old(View()), i);
      return Some(node.order);
    }

    method ReduceTop(side: Side, qty: u64)
      requires Valid()
      modifies Repr()
      ensures Valid()
      ensures Contents() == Books.ReduceTop(old(Contents()), side, qty)
    {
      hide Refines, Inv;
      ghost var i := TopFound(View(), side);
      var levels := LevelsOf(side);
      if levels.Keys == {} {
        return;
      }
      ReduceKeepsInv(View(), i, qty);
      Unlinkable(View(), i);
      var price := Books.Best(side, levels.Keys);
      var level := levels[price];
      var headNode := arena.Get(level.head);
      var lowered := arena.Write(level.head, Lowered(headNode.value, qty));
      SetLevels(side, levels[price := level.(totalQty := WrapSub(level.totalQty, qty))]);
      assert View() == AfterReduce(old(View()), i, qty);
    }

    method PeekTop(side: Side) returns (r: Option<TopView>)
      requires Valid()
      ensures r.None? <==> Books.Top(Contents(), side).None?
      ensures r.Some? ==> r.value.order == Books.Top(Contents(), side).value && r.value.price == r.value.order.price
      ensures r.Some? ==> r.value.arenaIdx in arena.abs.live && arena.abs.live[r.value.arenaIdx].order == r.value.order
    {
      hide Refines, Inv;
      ghost var i := TopFound(View(), side);
      var levels := LevelsOf(side);
      if levels.Keys == {} {
        return None;
      }
      var price := Books.Best(side, levels.Keys);
      var head := levels[price].head;
      if !head.IsValid() {
        return None;
      }
      var node := arena.Get(head);
      if node.None? {
        return None;
      }
      return Some(TopView(price, head, node.value.order));
    }

    method IsCrossed() returns (r: bool)
      requires Valid()
      ensures r == Books.IsCrossed(Contents().resting)
    {
      LevelKeys(View(), Bid);
      LevelKeys(View(), Ask);
      r := bids.Keys != {} && asks.Keys != {} && Books.Best(Bid, bids.Keys) >= Books.Best(Ask, asks.Keys);
    }

    /** `bid_depth` and `ask_depth`: (price, stored total) from the best price on. */
    method Depth(side: Side, maxLevels: nat) returns (r: seq<(u64, u64)>)
      requires Valid()
      ensures |r| <= maxLevels
      ensures r <= Books.Depth(Contents().resting, side)
      ensures |r| < maxLevels ==> r == Books.Depth(Contents().resting, side)
    {
      TotalsAreDepth(View(), side);
      var levels := LevelsOf(side);
      r := LevelDepth(levels, side, maxLevels);
    }
  }
}
