/** The order book's linked structure as a value: arena nodes threaded into one doubly linked FIFO
    per price, two price maps and the intent index, with the invariant that every book operation
    keeps and the facts the operations rest on. */
module Links {
  import opened Types
  import opened Sequences
  import opened Arenas
  import opened Books

  datatype OrderNode = OrderNode(order: Order, next: ArenaIdx, prev: ArenaIdx)

  datatype PriceLevel = PriceLevel(head: ArenaIdx, tail: ArenaIdx, len: u32, totalQty: u64)

  const EMPTY_LEVEL: PriceLevel := PriceLevel(SENTINEL, SENTINEL, 0, 0)

  type Nodes = map<ArenaIdx, OrderNode>
  type LevelMap = map<u64, PriceLevel>

  /** `arrivals` lists the live handles in the order they were inserted. */
  datatype Shape = Shape(
    live: Nodes,
    bids: LevelMap,
    asks: LevelMap,
    index: map<IntentHash, ArenaIdx>,
    arrivals: seq<ArenaIdx>)
  {
    function Levels(side: Side): LevelMap {
      match side
      case Bid => bids
      case Ask => asks
    }

    function WithLevels(side: Side, levels: LevelMap): Shape {
      match side
      case Bid => this.(bids := levels)
      case Ask => this.(asks := levels)
    }
  }

  // ---------------------------------------------------------------------------
  // The invariant
  // ---------------------------------------------------------------------------

  function OnLevel(live: Nodes, side: Side, price: u64): ArenaIdx -> bool {
    (h: ArenaIdx) => h in live && live[h].order.side == side && live[h].order.price == price
  }

  /** The handles a price level must thread, oldest first. */
  function Chain(live: Nodes, arrivals: seq<ArenaIdx>, side: Side, price: u64): seq<ArenaIdx> {
    Filter(arrivals, OnLevel(live, side, price))
  }

  ghost predicate Covered(live: Nodes, handles: seq<ArenaIdx>) {
    forall i :: 0 <= i < |handles| ==> handles[i] in live
  }

  function Orders(live: Nodes, handles: seq<ArenaIdx>): (r: seq<Order>)
    requires Covered(live, handles)
    ensures |r| == |handles|
    ensures forall i :: 0 <= i < |handles| ==> r[i] == live[handles[i]].order
  {
    seq(|handles|, i requires 0 <= i < |handles| => live[handles[i]].order)
  }

  function Before(chain: seq<ArenaIdx>, i: nat): ArenaIdx {
    if 0 < i <= |chain| then chain[i - 1] else SENTINEL
  }

  function After(chain: seq<ArenaIdx>, i: nat): ArenaIdx {
    if i + 1 < |chain| then chain[i + 1] else SENTINEL
  }

  ghost predicate NodeLinked(live: Nodes, chain: seq<ArenaIdx>, i: nat)
    requires i < |chain|
  {
    chain[i] in live && live[chain[i]].prev == Before(chain, i) && live[chain[i]].next == After(chain, i)
  }

  /** I1 and I7: every handle is live and linked to its two neighbours. */
  ghost predicate Linked(live: Nodes, chain: seq<ArenaIdx>) {
    forall i :: 0 <= i < |chain| ==> NodeLinked(live, chain, i)
  }

  /** I1, I2, I3 and I7 for one level. The stored total is the true total modulo 2^64. */
  ghost predicate LevelOk(live: Nodes, level: PriceLevel, chain: seq<ArenaIdx>) {
    && chain != []
    && Linked(live, chain)
    && Covered(live, chain)
    && level.head == chain[0]
    && level.tail == chain[|chain| - 1]
    && level.len == |chain|
    && level.totalQty == Mod64(SumQty(Orders(live, chain)))
  }

  ghost predicate ArrivalsOk(live: Nodes, arrivals: seq<ArenaIdx>) {
    && SENTINEL !in live
    && Distinct(arrivals)
    && (forall h :: h in arrivals <==> h in live)
    && Covered(live, arrivals)
  }

  /** A price has a level exactly when orders rest there, and the level threads them. */
  ghost predicate PriceOk(live: Nodes, arrivals: seq<ArenaIdx>, side: Side, levels: LevelMap, price: u64) {
    if price in levels then LevelOk(live, levels[price], Chain(live, arrivals, side, price))
    else Chain(live, arrivals, side, price) == []
  }

  ghost predicate SideOk(live: Nodes, arrivals: seq<ArenaIdx>, side: Side, levels: LevelMap) {
    forall price: u64 :: PriceOk(live, arrivals, side, levels, price)
  }

  /** I4 and I5: the index is the inverse of "intent hash of". */
  ghost predicate IndexOk(live: Nodes, index: map<IntentHash, ArenaIdx>) {
    && (forall h :: h in live ==> live[h].order.intentHash in index && index[live[h].order.intentHash] == h)
    && (forall k :: k in index ==> index[k] in live && live[index[k]].order.intentHash == k)
  }

  ghost predicate Inv(s: Shape) {
    && ArrivalsOk(s.live, s.arrivals)
    && SideOk(s.live, s.arrivals, Bid, s.bids)
    && SideOk(s.live, s.arrivals, Ask, s.asks)
    && IndexOk(s.live, s.index)
  }

  lemma EmptyInv()
    ensures Inv(Shape(map[], map[], map[], map[], []))
  {
  }

  lemma PriceOkAt(s: Shape, side: Side, price: u64)
    requires Inv(s)
    ensures PriceOk(s.live, s.arrivals, side, s.Levels(side), price)
  {
  }

  // ---------------------------------------------------------------------------
  // Frames
  // ---------------------------------------------------------------------------

  /** Two node maps that agree on where the given handles belong. */
  ghost predicate SameKeys(live: Nodes, live': Nodes, handles: seq<ArenaIdx>) {
    forall i :: 0 <= i < |handles| ==>
      handles[i] in live && handles[i] in live'
      && live[handles[i]].order.side == live'[handles[i]].order.side
      && live[handles[i]].order.price == live'[handles[i]].order.price
  }

  lemma {:induction false} ChainFrame(live: Nodes, live': Nodes, arrivals: seq<ArenaIdx>, side: Side, price: u64)
    requires SameKeys(live, live', arrivals)
    ensures Chain(live, arrivals, side, price) == Chain(live', arrivals, side, price)
  {
    FilterCongruent(arrivals, OnLevel(live, side, price), OnLevel(live', side, price));
  }

  lemma {:induction false} LevelFrame(live: Nodes, live': Nodes, level: PriceLevel, chain: seq<ArenaIdx>)
    requires LevelOk(live, level, chain)
    requires forall i :: 0 <= i < |chain| ==> chain[i] in live' && live'[chain[i]] == live[chain[i]]
    ensures LevelOk(live', level, chain)
  {
    assert Orders(live', chain) == Orders(live, chain);
    forall i | 0 <= i < |chain|
      ensures NodeLinked(live', chain, i)
    {
      assert NodeLinked(live, chain, i);
    }
  }

  lemma {:induction false} ChainMembers(live: Nodes, arrivals: seq<ArenaIdx>, side: Side, price: u64)
    requires ArrivalsOk(live, arrivals)
    ensures var chain := Chain(live, arrivals, side, price);
            && Distinct(chain)
            && forall i :: 0 <= i < |chain| ==>
                 chain[i] in live && live[chain[i]].order.side == side && live[chain[i]].order.price == price
  {
    FilterDistinct(arrivals, OnLevel(live, side, price));
    FilterMembers(arrivals, OnLevel(live, side, price));
  }

  /** The chain of handles read as orders is the FIFO of the simple book. */
  lemma {:induction false} ChainIsQueue(live: Nodes, arrivals: seq<ArenaIdx>, side: Side, price: u64)
    requires Covered(live, arrivals)
    ensures Covered(live, Chain(live, arrivals, side, price))
    ensures Orders(live, Chain(live, arrivals, side, price)) == Queue(Orders(live, arrivals), side, price)
  {
    if arrivals != [] {
      ChainIsQueue(live, arrivals[1..], side, price);
      assert Orders(live, arrivals)[1..] == Orders(live, arrivals[1..]);
      assert Orders(live, arrivals)[0] == live[arrivals[0]].order;
    }
  }

  /** The occupied prices are the keys of the price map. */
  lemma {:induction false} LevelKeys(s: Shape, side: Side)
    requires Inv(s)
    ensures Prices(Orders(s.live, s.arrivals), side) == s.Levels(side).Keys
  {
    var resting := Orders(s.live, s.arrivals);
    forall p: u64
      ensures p in Prices(resting, side) <==> p in s.Levels(side)
    {
      PricesAreQueues(resting, side, p);
      ChainIsQueue(s.live, s.arrivals, side, p);
      PriceOkAt(s, side, p);
    }
  }

  /** (price, stored total) of the given levels, best first. */
  function Totals(levels: LevelMap, side: Side, prices: set<u64>): seq<(u64, u64)>
    requires prices <= levels.Keys
    decreases |prices|
  {
    if prices == {} then []
    else
      var p := Best(side, prices);
      [(p, levels[p].totalQty)] + Totals(levels, side, prices - {p})
  }

  lemma {:induction false} TotalsOf(s: Shape, side: Side, prices: set<u64>)
    requires Inv(s) && prices <= s.Levels(side).Keys
    ensures Totals(s.Levels(side), side, prices) == DepthOf(Orders(s.live, s.arrivals), side, prices)
    decreases |prices|
  {
    if prices != {} {
      var p := Best(side, prices);
      PriceOkAt(s, side, p);
      ChainIsQueue(s.live, s.arrivals, side, p);
      TotalsOf(s, side, prices - {p});
    }
  }

  /** The stored totals, read best first, are the depth of the simple book. */
  lemma {:induction false} TotalsAreDepth(s: Shape, side: Side)
    requires Inv(s)
    ensures Totals(s.Levels(side), side, s.Levels(side).Keys) == Depth(Orders(s.live, s.arrivals), side)
  {
    LevelKeys(s, side);
    TotalsOf(s, side, s.Levels(side).Keys);
  }

  /** The intent index finds the one resting order with that hash. */
  lemma {:induction false} HashFound(s: Shape, hash: IntentHash) returns (i: nat)
    requires Inv(s)
    ensures IndexWhere(Orders(s.live, s.arrivals), WithHash(hash)) == i
    ensures hash in s.index <==> i < |s.arrivals|
    ensures hash in s.index ==> s.arrivals[i] == s.index[hash]
  {
    var resting := Orders(s.live, s.arrivals);
    i := IndexWhere(resting, WithHash(hash));
    if hash in s.index {
      var k :| 0 <= k < |s.arrivals| && s.arrivals[k] == s.index[hash];
      assert WithHash(hash)(resting[k]);
      assert i <= k;
      assert resting[i].intentHash == hash;
      assert s.arrivals[i] in s.live;
    } else {
      assert forall k :: 0 <= k < |s.arrivals| ==> s.arrivals[k] in s.live;
    }
  }

  /** The head of the best level is the top of the simple book. */
  lemma {:induction false} TopFound(s: Shape, side: Side) returns (i: nat)
    requires Inv(s)
    ensures TopIndex(Orders(s.live, s.arrivals), side) == i
    ensures i < |s.arrivals| <==> s.Levels(side).Keys != {}
    ensures s.Levels(side).Keys != {} ==>
              var p := Best(side, s.Levels(side).Keys);
              && s.arrivals[i] == s.Levels(side)[p].head
              && s.arrivals[i] in s.live
              && s.live[s.arrivals[i]].order.side == side && s.live[s.arrivals[i]].order.price == p
              && s.live[s.arrivals[i]].prev == SENTINEL && s.arrivals[i].IsValid()
  {
    hide IndexOk, SideOk, SumQty, Mod64, Filter, Queue, IndexWhere;
    var resting := Orders(s.live, s.arrivals);
    LevelKeys(s, side);
    TopIndexFound(resting, side);
    i := TopIndex(resting, side);
    if s.Levels(side).Keys != {} {
      var p := Best(side, s.Levels(side).Keys);
      var pred := OnLevel(s.live, side, p);
      assert forall j :: 0 <= j < |s.arrivals| ==> pred(s.arrivals[j]) == AtLevel(side, p)(resting[j]);
      IndexWhereIs(s.arrivals, pred, i);
      FilterHead(s.arrivals, pred);
      PriceOkAt(s, side, p);
      assert NodeLinked(s.live, Chain(s.live, s.arrivals, side, p), 0);
    }
  }

  /** The intent index has one entry per resting order. */
  lemma {:induction false} IndexSize(s: Shape)
    requires Inv(s)
    ensures |s.index| == |s.arrivals|
  {
    hide SideOk;
    var hashes := seq(|s.arrivals|, i requires 0 <= i < |s.arrivals| => s.live[s.arrivals[i]].order.intentHash);
    forall k | k in hashes
      ensures k in s.index.Keys
    {
      var i :| 0 <= i < |hashes| && hashes[i] == k;
      assert s.arrivals[i] in s.live;
    }
    forall k | k in s.index.Keys
      ensures k in hashes
    {
      var i :| 0 <= i < |s.arrivals| && s.arrivals[i] == s.index[k];
      assert hashes[i] == k;
    }
    forall i, j | 0 <= i < j < |hashes|
      ensures hashes[i] != hashes[j]
    {
      assert s.arrivals[i] in s.live && s.arrivals[j] in s.live;
    }
    DistinctSize(hashes, s.index.Keys);
  }

  // ---------------------------------------------------------------------------
  // Insertion at the tail
  // ---------------------------------------------------------------------------

  function LinkAtTail(live: Nodes, tail: ArenaIdx, h: ArenaIdx, order: Order): Nodes
    requires tail.IsValid() ==> tail in live
  {
    if tail.IsValid() then
      live[tail := live[tail].(next := h)][h := OrderNode(order, SENTINEL, tail)]
    else
      live[h := OrderNode(order, SENTINEL, SENTINEL)]
  }

  function GrownLevel(level: PriceLevel, h: ArenaIdx, order: Order): PriceLevel
    requires level.len < U32_MAX
  {
    PriceLevel(if level.tail.IsValid() then level.head else h, h, level.len + 1, WrapAdd(level.totalQty, order.quantity))
  }

  function LevelAt(levels: LevelMap, price: u64): PriceLevel {
    if price in levels then levels[price] else EMPTY_LEVEL
  }

  ghost predicate CanInsert(s: Shape, h: ArenaIdx, order: Order) {
    && Inv(s)
    && h !in s.live && h.IsValid()
    && order.intentHash !in s.index
    && |s.arrivals| < U32_MAX
  }

  lemma {:induction false} LevelBounds(s: Shape, side: Side, price: u64)
    requires Inv(s)
    ensures LevelAt(s.Levels(side), price).len <= |s.arrivals|
    ensures LevelAt(s.Levels(side), price).tail.IsValid() <==> price in s.Levels(side)
    ensures price in s.Levels(side) ==>
              var tail := s.Levels(side)[price].tail;
              tail in s.live && s.live[tail].order.side == side && s.live[tail].order.price == price
  {
    PriceOkAt(s, side, price);
    ChainMembers(s.live, s.arrivals, side, price);
  }

  ghost function AfterInsert(s: Shape, h: ArenaIdx, order: Order): Shape
    requires CanInsert(s, h, order)
  {
    LevelBounds(s, order.side, order.price);
    var levels := s.Levels(order.side);
    var level := LevelAt(levels, order.price);
    s.WithLevels(order.side, levels[order.price := GrownLevel(level, h, order)])
    .(live := LinkAtTail(s.live, level.tail, h, order),
      index := s.index[order.intentHash := h],
      arrivals := s.arrivals + [h])
  }

  lemma {:induction false} TailLinked(live: Nodes, chain: seq<ArenaIdx>, h: ArenaIdx, order: Order)
    requires Linked(live, chain) && Distinct(chain) && h !in live && SENTINEL !in live && h.IsValid()
    ensures var tail := Before(chain, |chain|);
            && (tail.IsValid() ==> tail in live)
            && Linked(LinkAtTail(live, tail, h, order), chain + [h])
  {
    var tail := Before(chain, |chain|);
    if chain != [] {
      assert NodeLinked(live, chain, |chain| - 1);
    }
    var live', chain' := LinkAtTail(live, tail, h, order), chain + [h];
    forall i | 0 <= i < |chain'|
      ensures NodeLinked(live', chain', i)
    {
      if i < |chain| {
        assert NodeLinked(live, chain, i);
      }
    }
  }

  lemma {:induction false} GrownLevelOk(live: Nodes, level: PriceLevel, chain: seq<ArenaIdx>, h: ArenaIdx, order: Order)
    requires (level == EMPTY_LEVEL && chain == []) || LevelOk(live, level, chain)
    requires Distinct(chain) && h !in live && SENTINEL !in live && h.IsValid()
    requires |chain| < U32_MAX
    ensures level.len < U32_MAX && (level.tail.IsValid() ==> level.tail in live)
    ensures LevelOk(LinkAtTail(live, level.tail, h, order), GrownLevel(level, h, order), chain + [h])
  {
    assert Linked(live, chain);
    assert level.tail == Before(chain, |chain|);
    TailLinked(live, chain, h, order);
    var live', chain' := LinkAtTail(live, level.tail, h, order), chain + [h];
    assert Covered(live', chain');
    assert Orders(live', chain') == Orders(live, chain) + [order];
    SumConcat(Orders(live, chain), [order]);
    WrapAddOfSum(SumQty(Orders(live, chain)), order.quantity);
  }

  lemma {:induction false} ChainAppend(live: Nodes, live': Nodes, arrivals: seq<ArenaIdx>, h: ArenaIdx, side: Side, price: u64)
    requires Covered(live, arrivals) && h in live' && Covered(live', arrivals)
    requires forall g :: g in live && g in live' ==> live'[g].order == live[g].order
    ensures var chain := Chain(live, arrivals, side, price);
            Chain(live', arrivals + [h], side, price) ==
            if side == live'[h].order.side && price == live'[h].order.price then chain + [h] else chain
  {
    ChainFrame(live, live', arrivals, side, price);
    FilterConcat(arrivals, [h], OnLevel(live', side, price));
  }

  lemma {:induction false} InsertedChain(s: Shape, h: ArenaIdx, order: Order, side: Side, price: u64)
    requires CanInsert(s, h, order)
    ensures var t := AfterInsert(s, h, order);
            var chain := Chain(s.live, s.arrivals, side, price);
            Chain(t.live, t.arrivals, side, price) ==
            if side == order.side && price == order.price then chain + [h] else chain
  {
    hide IndexOk, SideOk, Chain, LinkAtTail, GrownLevel;
    InsertedNodes(s, h, order);
    ChainAppend(s.live, AfterInsert(s, h, order).live, s.arrivals, h, side, price);
  }

  lemma {:induction false} InsertPrice(s: Shape, h: ArenaIdx, order: Order, side: Side, price: u64)
    requires CanInsert(s, h, order)
    ensures var t := AfterInsert(s, h, order); PriceOk(t.live, t.arrivals, side, t.Levels(side), price)
  {
    hide LevelOk, IndexOk, SideOk, Filter, Mod64;
    LevelBounds(s, order.side, order.price);
    InsertedChain(s, h, order, side, price);
    PriceOkAt(s, side, price);
    ChainMembers(s.live, s.arrivals, side, price);
    var t := AfterInsert(s, h, order);
    var chain := Chain(s.live, s.arrivals, side, price);
    if side == order.side && price == order.price {
      GrownLevelOk(s.live, LevelAt(s.Levels(side), price), chain, h, order);
    } else if price in s.Levels(side) {
      LevelFrame(s.live, t.live, s.Levels(side)[price], chain);
    }
  }

  lemma {:induction false} InsertSide(s: Shape, h: ArenaIdx, order: Order, side: Side)
    requires CanInsert(s, h, order)
    ensures var t := AfterInsert(s, h, order); SideOk(t.live, t.arrivals, side, t.Levels(side))
  {
    var t := AfterInsert(s, h, order);
    forall price: u64
      ensures PriceOk(t.live, t.arrivals, side, t.Levels(side), price)
    {
      InsertPrice(s, h, order, side, price);
    }
  }

  lemma {:induction false} IndexGrows(live: Nodes, live': Nodes, index: map<IntentHash, ArenaIdx>, h: ArenaIdx)
    requires IndexOk(live, index)
    requires h !in live && live'.Keys == live.Keys + {h}
    requires forall g :: g in live ==> live'[g].order == live[g].order
    requires live'[h].order.intentHash !in index
    ensures IndexOk(live', index[live'[h].order.intentHash := h])
  {
  }

  lemma {:induction false} InsertedNodes(s: Shape, h: ArenaIdx, order: Order)
    requires CanInsert(s, h, order)
    ensures var t := AfterInsert(s, h, order);
            && t.live.Keys == s.live.Keys + {h}
            && (forall g :: g in s.live ==> t.live[g].order == s.live[g].order)
            && t.live[h].order == order
            && ArrivalsOk(t.live, t.arrivals)
  {
    LevelBounds(s, order.side, order.price);
  }

  lemma {:induction false} OrdersAppend(live: Nodes, live': Nodes, arrivals: seq<ArenaIdx>, h: ArenaIdx)
    requires Covered(live, arrivals) && h in live' && Covered(live', arrivals + [h])
    requires forall g :: g in live && g in live' ==> live'[g].order == live[g].order
    ensures Orders(live', arrivals + [h]) == Orders(live, arrivals) + [live'[h].order]
  {
  }

  lemma {:induction false} InsertKeepsInv(s: Shape, h: ArenaIdx, order: Order)
    requires CanInsert(s, h, order)
    ensures Inv(AfterInsert(s, h, order))
    ensures var t := AfterInsert(s, h, order);
            Orders(t.live, t.arrivals) == Orders(s.live, s.arrivals) + [order]
  {
    InsertedNodes(s, h, order);
    IndexGrows(s.live, AfterInsert(s, h, order).live, s.index, h);
    OrdersAppend(s.live, AfterInsert(s, h, order).live, s.arrivals, h);
    InsertSide(s, h, order, Bid);
    InsertSide(s, h, order, Ask);
  }

  // ---------------------------------------------------------------------------
  // Removal from any position
  // ---------------------------------------------------------------------------

  /** The node map after `h` is freed and its two neighbours are relinked around it. */
  function Spliced(live: Nodes, h: ArenaIdx): Nodes
    requires h in live
  {
    var node := live[h];
    var freed := live - {h};
    var relinked := if node.prev in freed then freed[node.prev := freed[node.prev].(next := node.next)] else freed;
    if node.next in relinked then relinked[node.next := relinked[node.next].(prev := node.prev)] else relinked
  }

  function ShrunkLevel(level: PriceLevel, node: OrderNode): PriceLevel
    requires level.len > 0
  {
    PriceLevel(if node.prev.IsValid() then level.head else node.next,
               if node.next.IsValid() then level.tail else node.prev,
               level.len - 1,
               WrapSub(level.totalQty, node.order.quantity))
  }

  function ShrunkLevels(levels: LevelMap, price: u64, level: PriceLevel): LevelMap {
    if level.len == 0 then levels - {price} else levels[price := level]
  }

  ghost function AfterUnlink(s: Shape, i: nat): Shape
    requires Inv(s) && i < |s.arrivals|
  {
    var h := s.arrivals[i];
    var node := s.live[h];
    var side, price := node.order.side, node.order.price;
    Unlinkable(s, i);
    s.WithLevels(side, ShrunkLevels(s.Levels(side), price, ShrunkLevel(s.Levels(side)[price], node)))
    .(live := Spliced(s.live, h),
      index := s.index - {node.order.intentHash},
      arrivals := RemoveAt(s.arrivals, i))
  }

  /** A live node's own level exists and threads it. */
  lemma {:induction false} Unlinkable(s: Shape, i: nat)
    requires Inv(s) && i < |s.arrivals|
    ensures var node := s.live[s.arrivals[i]];
            var side, price := node.order.side, node.order.price;
            var chain := Chain(s.live, s.arrivals, side, price);
            var c := |Filter(s.arrivals[..i], OnLevel(s.live, side, price))|;
            && price in s.Levels(side) && s.Levels(side)[price].len > 0
            && LevelOk(s.live, s.Levels(side)[price], chain)
            && c < |chain| && chain[c] == s.arrivals[i]
  {
    var node := s.live[s.arrivals[i]];
    FilterSplit(s.arrivals, i, OnLevel(s.live, node.order.side, node.order.price));
    PriceOkAt(s, node.order.side, node.order.price);
  }

  /** What `pop_top` relies on: the successor link of a chained node is live or the sentinel. */
  lemma {:induction false} HeadUnlinkable(s: Shape, i: nat)
    requires Inv(s) && i < |s.arrivals|
    ensures SENTINEL !in s.live
    ensures var h := s.arrivals[i];
            s.live[h].next == SENTINEL || (s.live[h].next in s.live && s.live[h].next != h)
    ensures var node := s.live[s.arrivals[i]];
            var level := LevelAt(s.Levels(node.order.side), node.order.price);
            node.prev == SENTINEL && node.next == SENTINEL ==> level.len == 1
  {
    var node := s.live[s.arrivals[i]];
    Unlinkable(s, i);
    ChainMembers(s.live, s.arrivals, node.order.side, node.order.price);
    var chain := Chain(s.live, s.arrivals, node.order.side, node.order.price);
    var c := |Filter(s.arrivals[..i], OnLevel(s.live, node.order.side, node.order.price))|;
    assert NodeLinked(s.live, chain, c);
  }

  lemma {:induction false} SplicedNodes(live: Nodes, chain: seq<ArenaIdx>, c: nat)
    requires Linked(live, chain) && Covered(live, chain) && Distinct(chain) && SENTINEL !in live && c < |chain|
    ensures var live' := Spliced(live, chain[c]);
            && live'.Keys == live.Keys - {chain[c]}
            && (forall g :: g in live' ==> live'[g].order == live[g].order)
            && (forall g :: g in live' && g !in chain ==> live'[g] == live[g])
            && Linked(live', RemoveAt(chain, c))
  {
    var live', chain' := Spliced(live, chain[c]), RemoveAt(chain, c);
    assert NodeLinked(live, chain, c);
    forall j | 0 <= j < |chain'|
      ensures NodeLinked(live', chain', j)
    {
      var k := if j < c then j else j + 1;
      assert NodeLinked(live, chain, k);
      assert chain'[j] == chain[k] && chain[k] in live && chain[k] != chain[c];
      assert k == c + 1 ==> chain[k] == live[chain[c]].next;
      assert k + 1 == c ==> chain[k] == live[chain[c]].prev;
      assert k != c + 1 ==> chain[k] != live[chain[c]].next;
      assert k + 1 != c ==> chain[k] != live[chain[c]].prev;
    }
  }

  lemma {:induction false} ShrunkEnds(level: PriceLevel, node: OrderNode, chain: seq<ArenaIdx>, c: nat)
    requires c < |chain| && |chain| > 1 && level.len == |chain| && SENTINEL !in chain
    requires level.head == chain[0] && level.tail == chain[|chain| - 1]
    requires node.prev == Before(chain, c) && node.next == After(chain, c)
    ensures ShrunkLevel(level, node).head == RemoveAt(chain, c)[0]
    ensures ShrunkLevel(level, node).tail == RemoveAt(chain, c)[|chain| - 2]
  {
  }

  lemma {:induction false} ShrunkTotal(live: Nodes, live': Nodes, level: PriceLevel, chain: seq<ArenaIdx>, c: nat)
    requires Covered(live, chain) && c < |chain| && Covered(live', RemoveAt(chain, c))
    requires forall g :: g in live && g in live' ==> live'[g].order == live[g].order
    requires level.totalQty == Mod64(SumQty(Orders(live, chain)))
    ensures WrapSub(level.totalQty, live[chain[c]].order.quantity) == Mod64(SumQty(Orders(live', RemoveAt(chain, c))))
  {
    hide Mod64, SumQty;
    OrdersRemove(live, live', chain, c);
    SumRemove(Orders(live, chain), c);
    WrapSubOfSum(SumQty(Orders(live, chain)), live[chain[c]].order.quantity);
  }

  lemma {:induction false} ShrunkLevelOk(live: Nodes, level: PriceLevel, chain: seq<ArenaIdx>, c: nat)
    requires LevelOk(live, level, chain) && Distinct(chain) && SENTINEL !in live && c < |chain|
    ensures |chain| == 1 <==> ShrunkLevel(level, live[chain[c]]).len == 0
    ensures |chain| > 1 ==> LevelOk(Spliced(live, chain[c]), ShrunkLevel(level, live[chain[c]]), RemoveAt(chain, c))
  {
    SplicedNodes(live, chain, c);
    assert NodeLinked(live, chain, c);
    hide Spliced, Linked, Mod64, SumQty;
    var live', chain' := Spliced(live, chain[c]), RemoveAt(chain, c);
    if |chain| > 1 {
      assert Covered(live', chain');
      ShrunkEnds(level, live[chain[c]], chain, c);
      ShrunkTotal(live, live', level, chain, c);
    }
  }

  lemma {:induction false} ArrivalsShrink(live: Nodes, live': Nodes, arrivals: seq<ArenaIdx>, i: nat)
    requires ArrivalsOk(live, arrivals) && i < |arrivals| && live'.Keys == live.Keys - {arrivals[i]}
    ensures ArrivalsOk(live', RemoveAt(arrivals, i))
  {
    RemoveAtMembers(arrivals, i);
  }

  lemma {:induction false} UnlinkedNodes(s: Shape, i: nat)
    requires Inv(s) && i < |s.arrivals|
    ensures var t, h := AfterUnlink(s, i), s.arrivals[i];
            var side, price := s.live[h].order.side, s.live[h].order.price;
            && t.live.Keys == s.live.Keys - {h}
            && (forall g :: g in t.live ==> t.live[g].order == s.live[g].order)
            && (forall g :: g in t.live && g !in Chain(s.live, s.arrivals, side, price) ==> t.live[g] == s.live[g])
            && ArrivalsOk(t.live, t.arrivals)
  {
    hide IndexOk, SideOk, Distinct, Filter, Spliced, ShrunkLevel;
    var node := s.live[s.arrivals[i]];
    Unlinkable(s, i);
    ChainMembers(s.live, s.arrivals, node.order.side, node.order.price);
    SplicedNodes(s.live, Chain(s.live, s.arrivals, node.order.side, node.order.price),
                 |Filter(s.arrivals[..i], OnLevel(s.live, node.order.side, node.order.price))|);
    ArrivalsShrink(s.live, AfterUnlink(s, i).live, s.arrivals, i);
  }

  lemma {:induction false} UnlinkedChain(s: Shape, i: nat, side: Side, price: u64)
    requires Inv(s) && i < |s.arrivals|
    ensures var t, node := AfterUnlink(s, i), s.live[s.arrivals[i]];
            var chain, c := Chain(s.live, s.arrivals, side, price), |Filter(s.arrivals[..i], OnLevel(s.live, side, price))|;
            if side == node.order.side && price == node.order.price
            then c < |chain| && chain[c] == s.arrivals[i] && Chain(t.live, t.arrivals, side, price) == RemoveAt(chain, c)
            else Chain(t.live, t.arrivals, side, price) == chain
  {
    UnlinkedNodes(s, i);
    Unlinkable(s, i);
    var t := AfterUnlink(s, i);
    assert SameKeys(s.live, t.live, t.arrivals);
    ChainFrame(s.live, t.live, t.arrivals, side, price);
    FilterRemove(s.arrivals, i, OnLevel(s.live, side, price));
  }

  lemma {:induction false} UnlinkOwnPrice(s: Shape, i: nat, side: Side, price: u64)
    requires Inv(s) && i < |s.arrivals|
    requires side == s.live[s.arrivals[i]].order.side && price == s.live[s.arrivals[i]].order.price
    ensures var t := AfterUnlink(s, i); PriceOk(t.live, t.arrivals, side, t.Levels(side), price)
  {
    hide LevelOk, IndexOk, SideOk, Filter, Mod64, Spliced, ShrunkLevel;
    UnlinkedChain(s, i, side, price);
    Unlinkable(s, i);
    ChainMembers(s.live, s.arrivals, side, price);
    var t, chain := AfterUnlink(s, i), Chain(s.live, s.arrivals, side, price);
    var c := |Filter(s.arrivals[..i], OnLevel(s.live, side, price))|;
    var level := ShrunkLevel(s.Levels(side)[price], s.live[chain[c]]);
    ShrunkLevelOk(s.live, s.Levels(side)[price], chain, c);
    assert t.Levels(side) == ShrunkLevels(s.Levels(side), price, level);
    if |chain| > 1 {
      assert LevelOk(t.live, level, RemoveAt(chain, c));
    }
  }

  lemma {:induction false} UnlinkOtherPrice(s: Shape, i: nat, side: Side, price: u64)
    requires Inv(s) && i < |s.arrivals|
    requires side != s.live[s.arrivals[i]].order.side || price != s.live[s.arrivals[i]].order.price
    ensures var t := AfterUnlink(s, i); PriceOk(t.live, t.arrivals, side, t.Levels(side), price)
  {
    hide LevelOk, IndexOk, SideOk, Filter, Mod64, Spliced, ShrunkLevel;
    var node := s.live[s.arrivals[i]];
    UnlinkedChain(s, i, side, price);
    PriceOkAt(s, side, price);
    var t, chain := AfterUnlink(s, i), Chain(s.live, s.arrivals, side, price);
    if price in s.Levels(side) {
      ChainMembers(s.live, s.arrivals, side, price);
      UnlinkedNodes(s, i);
      ChainMembers(s.live, s.arrivals, node.order.side, node.order.price);
      LevelFrame(s.live, t.live, s.Levels(side)[price], chain);
      assert price in t.Levels(side) && t.Levels(side)[price] == s.Levels(side)[price];
    }
  }

  lemma {:induction false} UnlinkSide(s: Shape, i: nat, side: Side)
    requires Inv(s) && i < |s.arrivals|
    ensures var t := AfterUnlink(s, i); SideOk(t.live, t.arrivals, side, t.Levels(side))
  {
    var t := AfterUnlink(s, i);
    forall price: u64
      ensures PriceOk(t.live, t.arrivals, side, t.Levels(side), price)
    {
      if side == s.live[s.arrivals[i]].order.side && price == s.live[s.arrivals[i]].order.price {
        UnlinkOwnPrice(s, i, side, price);
      } else {
        UnlinkOtherPrice(s, i, side, price);
      }
    }
  }

  lemma {:induction false} IndexShrinks(live: Nodes, live': Nodes, index: map<IntentHash, ArenaIdx>, h: ArenaIdx)
    requires IndexOk(live, index)
    requires h in live && live'.Keys == live.Keys - {h}
    requires forall g :: g in live' ==> live'[g].order == live[g].order
    ensures IndexOk(live', index - {live[h].order.intentHash})
  {
  }

  lemma {:induction false} OrdersRemove(live: Nodes, live': Nodes, arrivals: seq<ArenaIdx>, i: nat)
    requires Covered(live, arrivals) && i < |arrivals| && Covered(live', RemoveAt(arrivals, i))
    requires forall g :: g in live && g in live' ==> live'[g].order == live[g].order
    ensures Orders(live', RemoveAt(arrivals, i)) == RemoveAt(Orders(live, arrivals), i)
  {
  }

  lemma {:induction false} UnlinkKeepsInv(s: Shape, i: nat)
    requires Inv(s) && i < |s.arrivals|
    ensures Inv(AfterUnlink(s, i))
    ensures var t := AfterUnlink(s, i);
            Orders(t.live, t.arrivals) == RemoveAt(Orders(s.live, s.arrivals), i)
  {
    UnlinkedNodes(s, i);
    IndexShrinks(s.live, AfterUnlink(s, i).live, s.index, s.arrivals[i]);
    OrdersRemove(s.live, AfterUnlink(s, i).live, s.arrivals, i);
    UnlinkSide(s, i, Bid);
    UnlinkSide(s, i, Ask);
  }

  // ---------------------------------------------------------------------------
  // Changing a quantity in place
  // ---------------------------------------------------------------------------

  function Lowered(node: OrderNode, qty: u64): OrderNode {
    node.(order := node.order.(quantity := WrapSub(node.order.quantity, qty)))
  }

  ghost function AfterReduce(s: Shape, i: nat, qty: u64): Shape
    requires Inv(s) && i < |s.arrivals|
  {
    var h := s.arrivals[i];
    var side, price := s.live[h].order.side, s.live[h].order.price;
    Unlinkable(s, i);
    var level := s.Levels(side)[price];
    s.WithLevels(side, s.Levels(side)[price := level.(totalQty := WrapSub(level.totalQty, qty))])
    .(live := s.live[h := Lowered(s.live[h], qty)])
  }

  lemma {:induction false} LoweredLevelOk(live: Nodes, level: PriceLevel, chain: seq<ArenaIdx>, c: nat, qty: u64)
    requires LevelOk(live, level, chain) && Distinct(chain) && c < |chain|
    ensures LevelOk(live[chain[c] := Lowered(live[chain[c]], qty)],
                    level.(totalQty := WrapSub(level.totalQty, qty)), chain)
  {
    var live' := live[chain[c] := Lowered(live[chain[c]], qty)];
    assert Covered(live', chain);
    forall k | 0 <= k < |chain|
      ensures NodeLinked(live', chain, k)
    {
      assert NodeLinked(live, chain, k);
    }
    assert Orders(live', chain) == Orders(live, chain)[c := live'[chain[c]].order];
    SumUpdate(Orders(live, chain), c, live'[chain[c]].order);
    var sum, q := SumQty(Orders(live, chain)), live[chain[c]].order.quantity;
    WrapSubOfSum(sum, qty);
    WrapSubInSum(sum - q, q, qty);
  }

  lemma {:induction false} ReducePrice(s: Shape, i: nat, qty: u64, side: Side, price: u64)
    requires Inv(s) && i < |s.arrivals|
    ensures var t := AfterReduce(s, i, qty); PriceOk(t.live, t.arrivals, side, t.Levels(side), price)
  {
    hide LevelOk, IndexOk, SideOk, Filter, Mod64;
    var node := s.live[s.arrivals[i]];
    var t := AfterReduce(s, i, qty);
    Unlinkable(s, i);
    PriceOkAt(s, side, price);
    ChainMembers(s.live, s.arrivals, side, price);
    ChainFrame(s.live, t.live, s.arrivals, side, price);
    var chain := Chain(s.live, s.arrivals, side, price);
    if side == node.order.side && price == node.order.price {
      var c := |Filter(s.arrivals[..i], OnLevel(s.live, node.order.side, node.order.price))|;
      LoweredLevelOk(s.live, s.Levels(side)[price], chain, c, qty);
    } else if price in s.Levels(side) {
      LevelFrame(s.live, t.live, s.Levels(side)[price], chain);
    }
  }

  lemma {:induction false} ReduceSide(s: Shape, i: nat, qty: u64, side: Side)
    requires Inv(s) && i < |s.arrivals|
    ensures var t := AfterReduce(s, i, qty); SideOk(t.live, t.arrivals, side, t.Levels(side))
  {
    var t := AfterReduce(s, i, qty);
    forall price: u64
      ensures PriceOk(t.live, t.arrivals, side, t.Levels(side), price)
    {
      ReducePrice(s, i, qty, side, price);
    }
  }

  lemma {:induction false} NodeRewritten(live: Nodes, arrivals: seq<ArenaIdx>, index: map<IntentHash, ArenaIdx>, i: nat, node: OrderNode)
    requires ArrivalsOk(live, arrivals) && IndexOk(live, index) && i < |arrivals|
    requires node.order.intentHash == live[arrivals[i]].order.intentHash
    ensures var live' := live[arrivals[i] := node];
            && ArrivalsOk(live', arrivals)
            && IndexOk(live', index)
            && Orders(live', arrivals) == Orders(live, arrivals)[i := node.order]
  {
  }

  lemma {:induction false} ReduceKeepsInv(s: Shape, i: nat, qty: u64)
    requires Inv(s) && i < |s.arrivals|
    ensures Inv(AfterReduce(s, i, qty))
    ensures var t := AfterReduce(s, i, qty);
            Orders(t.live, t.arrivals) == Orders(s.live, s.arrivals)[i := Lowered(s.live[s.arrivals[i]], qty).order]
  {
    var t, h := AfterReduce(s, i, qty), s.arrivals[i];
    ReduceSide(s, i, qty, Bid);
    ReduceSide(s, i, qty, Ask);
    NodeRewritten(s.live, s.arrivals, s.index, i, t.live[h]);
  }
}
