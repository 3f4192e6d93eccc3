/** The runtime invariant checker of the order book: what the bounded walk accepts, that it never
    rejects a book the operations can reach, and that what it checks is not inductive by itself. */
module Checkers {
  import opened Types
  import opened Sequences
  import opened Arenas
  import opened Books
  import opened Links

  // ---------------------------------------------------------------------------
  // Walking one level
  // ---------------------------------------------------------------------------

  /** `chain` is the whole list of a non-empty level: live, linked both ways from head to tail, and
      as long as the level says. */
  ghost predicate IsList(live: Nodes, level: PriceLevel, chain: seq<ArenaIdx>) {
    && chain != []
    && |chain| == level.len
    && level.head == chain[0]
    && level.tail == chain[|chain| - 1]
    && (forall i :: 0 <= i < |chain| ==> chain[i].IsValid())
    && Linked(live, chain)
  }

  /** What `walk_level` lets through: an empty level, or the whole list of a non-empty one. */
  ghost predicate Walks(live: Nodes, level: PriceLevel, chain: seq<ArenaIdx>) {
    if level.head.IsValid() then IsList(live, level, chain)
    else chain == [] && !level.tail.IsValid() && level.len == 0
  }

  /** Back links alone rule out cycles: on any node map, however corrupt, a doubly linked chain of
      valid handles visits no handle twice. */
  lemma {:induction false} BackLinksRuleOutCycles(live: Nodes, chain: seq<ArenaIdx>)
    requires Linked(live, chain)
    requires forall i :: 0 <= i < |chain| ==> chain[i].IsValid()
    ensures Distinct(chain)
  {
    forall i, j | 0 <= i < j < |chain|
      ensures chain[i] != chain[j]
    {
      NoRevisit(live, chain, i, j);
    }
  }

  lemma {:induction false} NoRevisit(live: Nodes, chain: seq<ArenaIdx>, i: nat, j: nat)
    requires Linked(live, chain) && i < j < |chain|
    requires forall k :: 0 <= k < |chain| ==> chain[k].IsValid()
    ensures chain[i] != chain[j]
  {
    assert NodeLinked(live, chain, i) && NodeLinked(live, chain, j);
    if i > 0 {
      NoRevisit(live, chain, i - 1, j - 1);
    }
  }

  /** The handle after position `k` of a walk that has come as far as `cur`. */
  function Following(visited: seq<ArenaIdx>, k: nat, cur: ArenaIdx): ArenaIdx {
    if k + 1 < |visited| then visited[k + 1] else cur
  }

  ghost predicate Visited(live: Nodes, idxs: seq<ArenaIdx>, cur: ArenaIdx, k: nat)
    requires k < |idxs|
  {
    && idxs[k].IsValid() && idxs[k] in live
    && live[idxs[k]].prev == Before(idxs, k)
    && live[idxs[k]].next == Following(idxs, k, cur)
  }

  /** The walk from `head` has passed `idxs` and stands at `cur`. */
  ghost predicate WalkedTo(live: Nodes, head: ArenaIdx, idxs: seq<ArenaIdx>, cur: ArenaIdx) {
    && (if idxs == [] then cur == head else idxs[0] == head)
    && forall k :: 0 <= k < |idxs| ==> Visited(live, idxs, cur, k)
  }

  lemma {:induction false} WalkStep(live: Nodes, head: ArenaIdx, idxs: seq<ArenaIdx>, cur: ArenaIdx)
    requires WalkedTo(live, head, idxs, cur)
    requires cur.IsValid() && cur in live && live[cur].prev == Before(idxs, |idxs|)
    ensures WalkedTo(live, head, idxs + [cur], live[cur].next)
  {
    var idxs' := idxs + [cur];
    forall k | 0 <= k < |idxs'|
      ensures Visited(live, idxs', live[cur].next, k)
    {
      if k < |idxs| {
        assert Visited(live, idxs, cur, k);
      }
    }
  }

  /** The walk agrees with any list the level might have. */
  lemma {:induction false} WalkAgrees(live: Nodes, level: PriceLevel, idxs: seq<ArenaIdx>, cur: ArenaIdx, chain: seq<ArenaIdx>, n: nat)
    requires WalkedTo(live, level.head, idxs, cur) && IsList(live, level, chain)
    requires n <= |idxs| <= |chain|
    ensures idxs[..n] == chain[..n]
    ensures (if n < |idxs| then idxs[n] else cur) == if n < |chain| then chain[n] else SENTINEL
  {
    if n > 0 {
      WalkAgrees(live, level, idxs, cur, chain, n - 1);
      assert Visited(live, idxs, cur, n - 1);
      assert NodeLinked(live, chain, n - 1);
      assert idxs[..n] == idxs[..n - 1] + [idxs[n - 1]] && chain[..n] == chain[..n - 1] + [chain[n - 1]];
    }
  }

  /** While there is a list, the walk can go on along it, and after `len` steps it is at its end. */
  lemma {:induction false} WalkGoesOn(live: Nodes, level: PriceLevel, idxs: seq<ArenaIdx>, cur: ArenaIdx, chain: seq<ArenaIdx>)
    requires WalkedTo(live, level.head, idxs, cur) && IsList(live, level, chain) && |idxs| <= level.len
    ensures if |idxs| < level.len then cur.IsValid() && cur in live && live[cur].prev == Before(idxs, |idxs|)
            else !cur.IsValid() && Before(idxs, |idxs|) == level.tail
  {
    WalkAgrees(live, level, idxs, cur, chain, |idxs|);
    assert idxs == idxs[..|idxs|];
    assert NodeLinked(live, chain, if |idxs| < |chain| then |idxs| else |idxs| - 1);
  }

  /** A walk that cannot go on, or that does not end at the tail, means there is no list. */
  lemma {:induction false} WalkRefutes(live: Nodes, level: PriceLevel, idxs: seq<ArenaIdx>, cur: ArenaIdx)
    requires WalkedTo(live, level.head, idxs, cur) && |idxs| <= level.len
    requires if |idxs| < level.len then !cur.IsValid() || cur !in live || live[cur].prev != Before(idxs, |idxs|)
             else cur.IsValid() || Before(idxs, |idxs|) != level.tail
    ensures forall chain :: !IsList(live, level, chain)
  {
    forall chain
      ensures !IsList(live, level, chain)
    {
      if IsList(live, level, chain) {
        WalkGoesOn(live, level, idxs, cur, chain);
      }
    }
  }

  lemma {:induction false} WalkEnds(live: Nodes, level: PriceLevel, idxs: seq<ArenaIdx>)
    requires WalkedTo(live, level.head, idxs, SENTINEL) && |idxs| == level.len && level.head.IsValid()
    requires Before(idxs, |idxs|) == level.tail
    ensures IsList(live, level, idxs)
  {
    forall k | 0 <= k < |idxs|
      ensures NodeLinked(live, idxs, k) && idxs[k].IsValid()
    {
      assert Visited(live, idxs, SENTINEL, k);
    }
  }

  /** The walk follows `next` for `len` steps, checking each back link. `None` is a failed assertion.
      It accepts exactly the well-formed lists, and returns the list. */
  method WalkLevel(live: Nodes, level: PriceLevel) returns (r: Option<seq<ArenaIdx>>)
    ensures r.Some? ==> Walks(live, level, r.value) && Distinct(r.value)
    ensures r.None? ==> forall chain :: !Walks(live, level, chain)
  {
    hide WalkedTo, IsList;
    if !level.head.IsValid() {
      if level.tail.IsValid() || level.len != 0 {
        return None;
      }
      return Some([]);
    }
    var idxs: seq<ArenaIdx> := [];
    var cur, prev := level.head, SENTINEL;
    WalkStarts(live, level.head);
    for i := 0 to level.len
      invariant |idxs| == i && prev == Before(idxs, i)
      invariant WalkedTo(live, level.head, idxs, cur)
    {
      if !cur.IsValid() || cur !in live || live[cur].prev != prev {
        WalkRefutes(live, level, idxs, cur);
        return None;
      }
      WalkStep(live, level.head, idxs, cur);
      idxs := idxs + [cur];
      prev := cur;
      cur := live[cur].next;
    }
    if cur.IsValid() || prev != level.tail {
      WalkRefutes(live, level, idxs, cur);
      return None;
    }
    WalkEnds(live, level, idxs);
    ListIsDistinct(live, level, idxs);
    return Some(idxs);
  }

  lemma WalkStarts(live: Nodes, head: ArenaIdx)
    ensures WalkedTo(live, head, [], head)
  {
  }

  lemma ListIsDistinct(live: Nodes, level: PriceLevel, chain: seq<ArenaIdx>)
    requires IsList(live, level, chain)
    ensures Distinct(chain)
  {
    BackLinksRuleOutCycles(live, chain);
  }

  // ---------------------------------------------------------------------------
  // The whole check
  // ---------------------------------------------------------------------------

  /** I1, I2, I3, I5, I7 and the membership half of I4 for one level. The sum is taken in a debug
      build, where it may not overflow, so it must be the stored total itself. */
  ghost predicate LevelPasses(live: Nodes, index: map<IntentHash, ArenaIdx>, level: PriceLevel, chain: seq<ArenaIdx>) {
    && IsList(live, level, chain)
    && Covered(live, chain)
    && SumQty(Orders(live, chain)) == level.totalQty
    && IndexedAll(live, index, chain)
  }

  ghost predicate IndexedAll(live: Nodes, index: map<IntentHash, ArenaIdx>, chain: seq<ArenaIdx>)
    requires Covered(live, chain)
  {
    forall i :: 0 <= i < |chain| ==>
      live[chain[i]].order.intentHash in index && index[live[chain[i]].order.intentHash] == chain[i]
  }

  method CheckLevel(live: Nodes, index: map<IntentHash, ArenaIdx>, level: PriceLevel) returns (r: Option<nat>)
    ensures r.None? ==> forall chain :: !LevelPasses(live, index, level, chain)
    ensures r.Some? ==> r.value == level.len && exists chain :: LevelPasses(live, index, level, chain)
  {
    if !level.head.IsValid() {
      EmptyLevelFails(live, index, level);
      return None;
    }
    var walked := WalkLevel(live, level);
    assert forall chain :: LevelPasses(live, index, level, chain) ==> Walks(live, level, chain);
    if walked.None? {
      return None;
    }
    var idxs := walked.value;
    assert Covered(live, idxs) by {
      forall i | 0 <= i < |idxs|
        ensures idxs[i] in live
      {
        assert NodeLinked(live, idxs, i);
      }
    }
    OnlyOneList(live, level, idxs);
    var orders := Orders(live, idxs);
    var sumQty := 0;
    for i := 0 to |idxs|
      invariant sumQty + SumQty(orders[i..]) == SumQty(orders)
    {
      assert orders[i..][1..] == orders[i + 1..];
      sumQty := sumQty + live[idxs[i]].order.quantity;
    }
    if sumQty != level.totalQty {
      return None;
    }
    for i := 0 to |idxs|
      invariant forall k :: 0 <= k < i ==>
        live[idxs[k]].order.intentHash in index && index[live[idxs[k]].order.intentHash] == idxs[k]
    {
      var hash := live[idxs[i]].order.intentHash;
      if hash !in index || index[hash] != idxs[i] {
        return None;
      }
    }
    assert LevelPasses(live, index, level, idxs);
    return Some(|idxs|);
  }

  lemma EmptyLevelFails(live: Nodes, index: map<IntentHash, ArenaIdx>, level: PriceLevel)
    requires !level.head.IsValid()
    ensures forall chain :: !LevelPasses(live, index, level, chain)
  {
  }

  /** A level has at most one list. */
  lemma {:induction false} OnlyOneList(live: Nodes, level: PriceLevel, chain: seq<ArenaIdx>)
    requires IsList(live, level, chain)
    ensures forall other :: IsList(live, level, other) ==> other == chain
  {
    forall other | IsList(live, level, other)
      ensures other == chain
    {
      SamePrefix(live, level, chain, other, |chain|);
      assert chain[..|chain|] == chain && other[..|chain|] == other;
    }
  }

  lemma {:induction false} SamePrefix(live: Nodes, level: PriceLevel, a: seq<ArenaIdx>, b: seq<ArenaIdx>, n: nat)
    requires IsList(live, level, a) && IsList(live, level, b) && n <= |a|
    ensures a[..n] == b[..n]
  {
    if n > 0 {
      SamePrefix(live, level, a, b, n - 1);
      if n > 1 {
        assert a[n - 2] == a[..n - 1][n - 2] == b[..n - 1][n - 2] == b[n - 2];
        assert NodeLinked(live, a, n - 2) && NodeLinked(live, b, n - 2);
      }
      assert a[..n] == a[..n - 1] + [a[n - 1]] && b[..n] == b[..n - 1] + [b[n - 1]];
    }
  }

  /** Sum of the level lengths over the given prices, in the map's own order. */
  function SumLens(levels: LevelMap, prices: set<u64>): nat
    requires prices <= levels.Keys
    decreases |prices|
  {
    if prices == {} then 0
    else
      var p := Best(Ask, prices);
      levels[p].len + SumLens(levels, prices - {p})
  }

  ghost predicate LevelsPass(live: Nodes, index: map<IntentHash, ArenaIdx>, levels: LevelMap) {
    forall price :: price in levels ==> exists chain :: LevelPasses(live, index, levels[price], chain)
  }

  /** I1 to I5 and I7 as the checker tests them. */
  ghost predicate Passes(s: Shape) {
    && LevelsPass(s.live, s.index, s.bids)
    && LevelsPass(s.live, s.index, s.asks)
    && |s.index| == SumLens(s.bids, s.bids.Keys) + SumLens(s.asks, s.asks.Keys)
  }

  method CheckLevels(live: Nodes, index: map<IntentHash, ArenaIdx>, levels: LevelMap) returns (r: Option<nat>)
    ensures r.Some? <==> LevelsPass(live, index, levels)
    ensures r.Some? ==> r.value == SumLens(levels, levels.Keys)
  {
    hide LevelPasses;
    var prices := levels.Keys;
    var total := 0;
    while prices != {}
      invariant prices <= levels.Keys
      invariant total + SumLens(levels, prices) == SumLens(levels, levels.Keys)
      invariant forall p :: p in levels && p !in prices ==> exists chain :: LevelPasses(live, index, levels[p], chain)
      decreases |prices|
    {
      var p := Best(Ask, prices);
      var len := CheckLevel(live, index, levels[p]);
      if len.None? {
        return None;
      }
      total := total + len.value;
      prices := prices - {p};
    }
    return Some(total);
  }

  method AssertInvariants(live: Nodes, bids: LevelMap, asks: LevelMap, index: map<IntentHash, ArenaIdx>) returns (ok: bool)
    ensures ok <==> Passes(Shape(live, bids, asks, index, []))
  {
    var bidTotal := CheckLevels(live, index, bids);
    if bidTotal.None? {
      return false;
    }
    var askTotal := CheckLevels(live, index, asks);
    if askTotal.None? {
      return false;
    }
    return |index| == bidTotal.value + askTotal.value;
  }

  // ---------------------------------------------------------------------------
  // Reachable books pass
  // ---------------------------------------------------------------------------

  function OnSideAt(side: Side, prices: set<u64>): Order -> bool {
    (o: Order) => o.side == side && o.price in prices
  }

  lemma {:induction false} CountOne(resting: seq<Order>, side: Side, prices: set<u64>, p: u64)
    requires p in prices
    ensures |Filter(resting, OnSideAt(side, prices))| ==
            |Queue(resting, side, p)| + |Filter(resting, OnSideAt(side, prices - {p}))|
  {
    if resting != [] {
      CountOne(resting[1..], side, prices, p);
    }
  }

  lemma {:induction false} CountLevels(s: Shape, side: Side, prices: set<u64>)
    requires Inv(s) && prices <= s.Levels(side).Keys
    ensures SumLens(s.Levels(side), prices) == |Filter(Orders(s.live, s.arrivals), OnSideAt(side, prices))|
    decreases |prices|
  {
    var resting := Orders(s.live, s.arrivals);
    if prices == {} {
      FilterNone(resting, OnSideAt(side, prices));
    } else {
      var p := Best(Ask, prices);
      PriceOkAt(s, side, p);
      ChainIsQueue(s.live, s.arrivals, side, p);
      CountOne(resting, side, prices, p);
      CountLevels(s, side, prices - {p});
    }
  }

  lemma {:induction false} SidesPartition(resting: seq<Order>, bids: set<u64>, asks: set<u64>)
    requires forall i :: 0 <= i < |resting| ==> resting[i].price in (if resting[i].side == Bid then bids else asks)
    ensures |Filter(resting, OnSideAt(Bid, bids))| + |Filter(resting, OnSideAt(Ask, asks))| == |resting|
  {
    if resting != [] {
      assert forall i :: 0 <= i < |resting[1..]| ==> resting[1..][i] == resting[i + 1];
      SidesPartition(resting[1..], bids, asks);
    }
  }

  /** No slot leaks: the level lengths add up to the number of resting orders. */
  lemma {:induction false} LevelLengthsAddUp(s: Shape)
    requires Inv(s)
    ensures SumLens(s.bids, s.bids.Keys) + SumLens(s.asks, s.asks.Keys) == |s.arrivals|
  {
    hide SideOk, IndexOk, SumLens, Filter;
    var resting := Orders(s.live, s.arrivals);
    CountLevels(s, Bid, s.bids.Keys);
    CountLevels(s, Ask, s.asks.Keys);
    LevelKeys(s, Bid);
    LevelKeys(s, Ask);
    forall i | 0 <= i < |resting|
      ensures resting[i].price in (if resting[i].side == Bid then s.bids.Keys else s.asks.Keys)
    {
      assert resting[i] in resting;
      assert resting[i].price in Prices(resting, resting[i].side);
    }
    SidesPartition(resting, s.bids.Keys, s.asks.Keys);
  }

  lemma {:induction false} ReachableLevelPasses(s: Shape, side: Side, price: u64)
    requires Inv(s) && price in s.Levels(side)
    requires SumQty(Queue(Orders(s.live, s.arrivals), side, price)) < U64_MODULUS
    ensures LevelPasses(s.live, s.index, s.Levels(side)[price], Chain(s.live, s.arrivals, side, price))
  {
    hide SideOk, Filter, SumQty;
    PriceOkAt(s, side, price);
    ChainMembers(s.live, s.arrivals, side, price);
    ChainIsQueue(s.live, s.arrivals, side, price);
  }

  lemma {:induction false} PassingLevelFits(s: Shape, side: Side, price: u64)
    requires Inv(s) && LevelsPass(s.live, s.index, s.Levels(side))
    ensures SumQty(Queue(Orders(s.live, s.arrivals), side, price)) < U64_MODULUS
  {
    hide SideOk, IndexOk, Filter, SumQty;
    PriceOkAt(s, side, price);
    ChainIsQueue(s.live, s.arrivals, side, price);
    if price in s.Levels(side) {
      var chain :| LevelPasses(s.live, s.index, s.Levels(side)[price], chain);
      ListIsOwn(s, side, price, chain);
    } else {
      assert Queue(Orders(s.live, s.arrivals), side, price) == [];
      SumNone();
    }
  }

  lemma SumNone()
    ensures SumQty([]) == 0
  {
  }

  /** Of the books that satisfy the invariant the operations keep, the checker accepts exactly those
      in which no level's true total overflows; short of that it never fires after an operation. */
  lemma {:induction false} ReachableBooksPass(s: Shape)
    requires Inv(s)
    ensures Passes(s) <==>
            forall side, price: u64 :: SumQty(Queue(Orders(s.live, s.arrivals), side, price)) < U64_MODULUS
  {
    hide SideOk, IndexOk, LevelPasses, SumQty;
    LevelLengthsAddUp(s);
    IndexSize(s);
    if Passes(s) {
      forall side: Side, price: u64
        ensures SumQty(Queue(Orders(s.live, s.arrivals), side, price)) < U64_MODULUS
      {
        assert LevelsPass(s.live, s.index, s.Levels(side));
        PassingLevelFits(s, side, price);
      }
    }
    if forall side, price: u64 :: SumQty(Queue(Orders(s.live, s.arrivals), side, price)) < U64_MODULUS {
      forall side: Side, price | price in s.Levels(side)
        ensures exists chain :: LevelPasses(s.live, s.index, s.Levels(side)[price], chain)
      {
        ReachableLevelPasses(s, side, price);
      }
      assert LevelsPass(s.live, s.index, s.Levels(Bid));
      assert LevelsPass(s.live, s.index, s.Levels(Ask));
    }
  }

  /** The checks are not inductive: a node filed under a price other than its own passes them all, and
      the next cancel of it looks for a level that does not exist. */
  lemma {:induction false} PassingIsNotEnough(order: Order) returns (s: Shape, h: ArenaIdx)
    requires order.side == Bid && order.price == 1
    ensures Passes(s)
    ensures order.intentHash in s.index && s.index[order.intentHash] == h && h in s.live
    ensures s.live[h].order == order && order.price !in s.Levels(order.side)
  {
    h := ArenaIdx(0, 1);
    var level := PriceLevel(h, h, 1, order.quantity);
    s := Shape(map[h := OrderNode(order, SENTINEL, SENTINEL)], map[2 := level], map[], map[order.intentHash := h], []);
    assert NodeLinked(s.live, [h], 0);
    assert Orders(s.live, [h]) == [order];
    SumOne(order);
    assert LevelPasses(s.live, s.index, level, [h]);
    assert s.bids.Keys == {2};
    assert Best(Ask, s.bids.Keys) == 2;
    assert SumLens(s.bids, s.bids.Keys - {2}) == 0;
  }

  // ---------------------------------------------------------------------------
  // What the checks lack
  // ---------------------------------------------------------------------------

  /** Every node of a level's list carries that level's side and price. */
  ghost predicate FiledByKey(s: Shape) {
    forall side, price, chain :: price in s.Levels(side) && LevelPasses(s.live, s.index, s.Levels(side)[price], chain) ==>
      forall i :: 0 <= i < |chain| ==>
        s.live[chain[i]].order.side == side && s.live[chain[i]].order.price == price
  }

  /** Every occupied slot is the one the index gives for its order. */
  ghost predicate OccupiedIsIndexed(s: Shape) {
    forall h :: h in s.live ==> s.live[h].order.intentHash in s.index && s.index[s.live[h].order.intentHash] == h
  }

  ghost function ListOf(s: Shape, side: Side, price: u64): (chain: seq<ArenaIdx>)
    requires Passes(s) && price in s.Levels(side)
    ensures LevelPasses(s.live, s.index, s.Levels(side)[price], chain)
  {
    assert LevelsPass(s.live, s.index, s.Levels(side));
    var chain :| LevelPasses(s.live, s.index, s.Levels(side)[price], chain);
    chain
  }

  /** The lists of the given levels one after another. */
  ghost function Lists(s: Shape, side: Side, prices: set<u64>): seq<ArenaIdx>
    requires Passes(s) && prices <= s.Levels(side).Keys
    decreases |prices|
  {
    if prices == {} then []
    else
      var p := Best(Ask, prices);
      ListOf(s, side, p) + Lists(s, side, prices - {p})
  }

  ghost predicate Strengthened(s: Shape) {
    Passes(s) && FiledByKey(s) && OccupiedIsIndexed(s)
  }

  lemma {:induction false} ListFacts(s: Shape, side: Side, price: u64)
    requires Strengthened(s) && price in s.Levels(side)
    ensures var chain := ListOf(s, side, price);
            && Distinct(chain) && |chain| == s.Levels(side)[price].len
            && forall i :: 0 <= i < |chain| ==>
                 chain[i] in s.live && s.live[chain[i]].order.side == side && s.live[chain[i]].order.price == price
  {
    var chain := ListOf(s, side, price);
    BackLinksRuleOutCycles(s.live, chain);
  }

  lemma {:induction false} ListsFacts(s: Shape, side: Side, prices: set<u64>)
    requires Strengthened(s) && prices <= s.Levels(side).Keys
    ensures var all := Lists(s, side, prices);
            && |all| == SumLens(s.Levels(side), prices)
            && Distinct(all)
            && forall i :: 0 <= i < |all| ==>
                 all[i] in s.live && s.live[all[i]].order.side == side && s.live[all[i]].order.price in prices
    decreases |prices|
  {
    hide Passes, FiledByKey, OccupiedIsIndexed, ListOf;
    if prices != {} {
      var p := Best(Ask, prices);
      ListFacts(s, side, p);
      ListsFacts(s, side, prices - {p});
    }
  }

  lemma {:induction false} ListsByLevel(s: Shape, side: Side, prices: set<u64>, wanted: Side, price: u64)
    requires Strengthened(s) && prices <= s.Levels(side).Keys
    ensures Filter(Lists(s, side, prices), OnLevel(s.live, wanted, price)) ==
            if wanted == side && price in prices then ListOf(s, side, price) else []
    decreases |prices|
  {
    hide Passes, FiledByKey, OccupiedIsIndexed, ListOf;
    if prices != {} {
      var p := Best(Ask, prices);
      var head, tail := ListOf(s, side, p), Lists(s, side, prices - {p});
      ListFacts(s, side, p);
      ListsByLevel(s, side, prices - {p}, wanted, price);
      FilterConcat(head, tail, OnLevel(s.live, wanted, price));
      if wanted == side && price == p {
        FilterAll(head, OnLevel(s.live, wanted, price));
      } else {
        FilterNone(head, OnLevel(s.live, wanted, price));
      }
    }
  }

  /** A sequence without repetitions that is as long as a set it stays inside covers it. */
  lemma {:induction false} DistinctCovers<T>(s: seq<T>, elements: set<T>, x: T)
    requires Distinct(s) && (forall i :: 0 <= i < |s| ==> s[i] in elements)
    requires |s| == |elements| && x in elements
    ensures x in s
    decreases |s|
  {
    if s != [] && x != s[0] {
      var rest := s[1..];
      assert forall i :: 0 <= i < |rest| ==> rest[i] == s[i + 1];
      DistinctCovers(rest, elements - {s[0]}, x);
    }
  }

  lemma {:induction false} ListsCoverIndex(s: Shape, all: seq<ArenaIdx>)
    requires OccupiedIsIndexed(s) && Distinct(all) && Covered(s.live, all) && |all| == |s.index|
    ensures forall k :: k in s.index ==> s.index[k] in all && s.live[s.index[k]].order.intentHash == k
  {
    var hashes := seq(|all|, i requires 0 <= i < |all| => s.live[all[i]].order.intentHash);
    forall k | k in s.index
      ensures s.index[k] in all && s.live[s.index[k]].order.intentHash == k
    {
      DistinctCovers(hashes, s.index.Keys, k);
      var i :| 0 <= i < |hashes| && hashes[i] == k;
    }
  }

  /** Passing the checks, together with the two facts they leave out, is the invariant for some arrival
      order: nodes filed under their own side and price, and occupied slots that are all indexed. */
  lemma {:induction false} ChecksPlusFilingSuffice(s: Shape) returns (arrivals: seq<ArenaIdx>)
    requires Strengthened(s) && SENTINEL !in s.live
    ensures Inv(s.(arrivals := arrivals))
  {
    arrivals := Lists(s, Bid, s.bids.Keys) + Lists(s, Ask, s.asks.Keys);
    JoinedLists(s);
    hide Passes, FiledByKey, Lists, SideOk, IndexOk, ArrivalsOk, Distinct;
    ListsCoverIndex(s, arrivals);
    CoverMakesIndex(s, arrivals);
    ListsMakeSide(s, arrivals, Bid);
    ListsMakeSide(s, arrivals, Ask);
  }

  /** In a book that satisfies the invariant, whatever list a level has is that level's own orders. */
  lemma {:induction false} ListIsOwn(s: Shape, side: Side, price: u64, chain: seq<ArenaIdx>)
    requires Inv(s) && price in s.Levels(side)
    requires LevelPasses(s.live, s.index, s.Levels(side)[price], chain)
    ensures chain == Chain(s.live, s.arrivals, side, price)
    ensures forall i :: 0 <= i < |chain| ==>
              chain[i] in s.live && s.live[chain[i]].order.side == side && s.live[chain[i]].order.price == price
  {
    hide SideOk, IndexOk, Filter, SumQty;
    PriceOkAt(s, side, price);
    ChainMembers(s.live, s.arrivals, side, price);
    assert IsList(s.live, s.Levels(side)[price], Chain(s.live, s.arrivals, side, price));
    OnlyOneList(s.live, s.Levels(side)[price], chain);
  }

  lemma {:induction false} InvariantFiles(s: Shape, arrivals: seq<ArenaIdx>)
    requires Inv(s.(arrivals := arrivals))
    ensures FiledByKey(s) && OccupiedIsIndexed(s) && SENTINEL !in s.live
  {
    hide SideOk, LevelPasses;
    forall side, price, chain |
      price in s.Levels(side) && LevelPasses(s.live, s.index, s.Levels(side)[price], chain)
      ensures forall i :: 0 <= i < |chain| ==>
                chain[i] in s.live && s.live[chain[i]].order.side == side && s.live[chain[i]].order.price == price
    {
      ListIsOwn(s.(arrivals := arrivals), side, price, chain);
    }
  }

  /** What the checks lack, exactly: a book that passes them satisfies the invariant, for some arrival
      order, if and only if every node lies under its own side and price, every occupied slot is the
      one the index gives, and the sentinel is not an occupied slot. */
  lemma {:induction false} ChecksLackExactlyFiling(s: Shape)
    requires Passes(s)
    ensures (exists arrivals :: Inv(s.(arrivals := arrivals))) <==>
            FiledByKey(s) && OccupiedIsIndexed(s) && SENTINEL !in s.live
  {
    hide Inv, Passes, FiledByKey, OccupiedIsIndexed;
    if exists arrivals :: Inv(s.(arrivals := arrivals)) {
      var arrivals :| Inv(s.(arrivals := arrivals));
      InvariantFiles(s, arrivals);
    }
    if FiledByKey(s) && OccupiedIsIndexed(s) && SENTINEL !in s.live {
      var arrivals := ChecksPlusFilingSuffice(s);
    }
  }

  lemma {:induction false} SidesJoin(live: Nodes, bids: seq<ArenaIdx>, asks: seq<ArenaIdx>)
    requires Distinct(bids) && Distinct(asks)
    requires forall i :: 0 <= i < |bids| ==> bids[i] in live && live[bids[i]].order.side == Bid
    requires forall i :: 0 <= i < |asks| ==> asks[i] in live && live[asks[i]].order.side == Ask
    ensures Distinct(bids + asks) && Covered(live, bids + asks)
  {
    hide Distinct;
    forall i, j | 0 <= i < |bids| && 0 <= j < |asks|
      ensures bids[i] != asks[j]
    {
      assert live[bids[i]].order.side == Bid && live[asks[j]].order.side == Ask;
    }
    DistinctConcat(bids, asks);
  }

  lemma {:induction false} JoinedLists(s: Shape)
    requires Strengthened(s)
    ensures var all := Lists(s, Bid, s.bids.Keys) + Lists(s, Ask, s.asks.Keys);
            Distinct(all) && Covered(s.live, all) && |all| == |s.index|
  {
    hide LevelPasses, LevelsPass, FiledByKey, OccupiedIsIndexed, Lists, SumLens, Distinct;
    assert |s.index| == SumLens(s.bids, s.bids.Keys) + SumLens(s.asks, s.asks.Keys);
    hide Passes;
    ListsFacts(s, Bid, s.bids.Keys);
    ListsFacts(s, Ask, s.asks.Keys);
    SidesJoin(s.live, Lists(s, Bid, s.bids.Keys), Lists(s, Ask, s.asks.Keys));
  }

  lemma {:induction false} CoverMakesIndex(s: Shape, arrivals: seq<ArenaIdx>)
    requires OccupiedIsIndexed(s) && SENTINEL !in s.live && Distinct(arrivals) && Covered(s.live, arrivals)
    requires forall k :: k in s.index ==> s.index[k] in arrivals && s.live[s.index[k]].order.intentHash == k
    ensures ArrivalsOk(s.live, arrivals) && IndexOk(s.live, s.index)
  {
  }

  lemma {:induction false} ListsMakeSide(s: Shape, arrivals: seq<ArenaIdx>, side: Side)
    requires Strengthened(s)
    requires arrivals == Lists(s, Bid, s.bids.Keys) + Lists(s, Ask, s.asks.Keys)
    ensures SideOk(s.live, arrivals, side, s.Levels(side))
  {
    hide Passes, FiledByKey, OccupiedIsIndexed, ListOf, Lists, LevelOk;
    forall price: u64
      ensures PriceOk(s.live, arrivals, side, s.Levels(side), price)
    {
      ListsByLevel(s, Bid, s.bids.Keys, side, price);
      ListsByLevel(s, Ask, s.asks.Keys, side, price);
      FilterConcat(Lists(s, Bid, s.bids.Keys), Lists(s, Ask, s.asks.Keys), OnLevel(s.live, side, price));
      if price in s.Levels(side) {
        PassingLevelOk(s, side, price);
        assert Chain(s.live, arrivals, side, price) == ListOf(s, side, price);
      }
    }
  }

  lemma {:induction false} PassingLevelOk(s: Shape, side: Side, price: u64)
    requires Passes(s) && price in s.Levels(side)
    ensures LevelOk(s.live, s.Levels(side)[price], ListOf(s, side, price))
  {
  }
}
