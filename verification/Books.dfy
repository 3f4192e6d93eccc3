/** The simple order book that the linked one is measured against: the resting orders in arrival
    order. Price levels, the best price and price-time priority are all views of that one list. */
module Books {
  import opened Types
  import opened Sequences

  datatype Book = Book(capacity: nat, resting: seq<Order>)

  // ---------------------------------------------------------------------------
  // Views
  // ---------------------------------------------------------------------------

  /** Bids are best high, asks are best low. */
  predicate Better(side: Side, p: int, q: int) {
    match side
    case Bid => p > q
    case Ask => p < q
  }

  function AtLevel(side: Side, price: u64): Order -> bool {
    (o: Order) => o.side == side && o.price == price
  }

  function WithHash(hash: IntentHash): Order -> bool {
    (o: Order) => o.intentHash == hash
  }

  /** The FIFO at one price: what a price level's linked list holds, head first. */
  function Queue(resting: seq<Order>, side: Side, price: u64): seq<Order> {
    Filter(resting, AtLevel(side, price))
  }

  function Prices(resting: seq<Order>, side: Side): set<u64> {
    set o | o in resting && o.side == side :: o.price
  }

  lemma {:induction false} PricesAreQueues(resting: seq<Order>, side: Side, price: u64)
    ensures price in Prices(resting, side) <==> Queue(resting, side, price) != []
  {
    var q := Queue(resting, side, price);
    if price in Prices(resting, side) {
      var o :| o in resting && o.side == side && o.price == price;
      FilterMember(resting, AtLevel(side, price), o);
    }
    if q != [] {
      FilterMember(resting, AtLevel(side, price), q[0]);
    }
  }

  predicate IsBest(side: Side, prices: set<u64>, p: u64) {
    p in prices && forall q :: q in prices ==> q == p || Better(side, p, q)
  }

  lemma {:induction false} BestExists(side: Side, prices: set<u64>) returns (best: u64)
    requires prices != {}
    ensures IsBest(side, prices, best)
  {
    best :| best in prices;
    var rest := prices - {best};
    assert prices == rest + {best};
    if rest != {} {
      var r := BestExists(side, rest);
      if Better(side, r, best) {
        best := r;
      }
    }
  }

  /** The key an ordered map yields first: `last_key_value` for bids, `first_key_value` for asks. */
  function Best(side: Side, prices: set<u64>): (p: u64)
    requires prices != {}
    ensures IsBest(side, prices, p)
  {
    assert exists p :: IsBest(side, prices, p) by {
      var p := BestExists(side, prices);
    }
    var p :| p in prices && IsBest(side, prices, p);
    p
  }

  /** Where the oldest order at the best price sits in the arrival list; its length if the side is empty. */
  function TopIndex(resting: seq<Order>, side: Side): (i: nat)
    ensures i <= |resting|
  {
    var prices := Prices(resting, side);
    if prices == {} then |resting|
    else IndexWhere(resting, AtLevel(side, Best(side, prices)))
  }

  lemma {:induction false} TopIndexFound(resting: seq<Order>, side: Side)
    ensures TopIndex(resting, side) < |resting| <==> Prices(resting, side) != {}
    ensures Prices(resting, side) != {} ==>
              var p, i := Best(side, Prices(resting, side)), TopIndex(resting, side);
              && resting[i].side == side && resting[i].price == p
              && Queue(resting, side, p) != [] && Queue(resting, side, p)[0] == resting[i]
              && Queue(resting[..i], side, p) == []
  {
    if Prices(resting, side) != {} {
      var p := Best(side, Prices(resting, side));
      PricesAreQueues(resting, side, p);
      FilterHead(resting, AtLevel(side, p));
    }
  }

  /** Orders of one side in price-time priority: best price first, oldest first within a price. */
  function PriceTime(resting: seq<Order>, side: Side): seq<Order> {
    Flatten(resting, side, Prices(resting, side))
  }

  function Flatten(resting: seq<Order>, side: Side, prices: set<u64>): seq<Order>
    decreases |prices|
  {
    if prices == {} then []
    else
      var p := Best(side, prices);
      Queue(resting, side, p) + Flatten(resting, side, prices - {p})
  }

  function SumQty(orders: seq<Order>): nat {
    if orders == [] then 0 else orders[0].quantity + SumQty(orders[1..])
  }

  /** (price, total quantity) per level, best first, as the depth iterators yield them. The stored
      totals are u64 and wrap. */
  function Depth(resting: seq<Order>, side: Side): seq<(u64, u64)> {
    DepthOf(resting, side, Prices(resting, side))
  }

  function DepthOf(resting: seq<Order>, side: Side, prices: set<u64>): seq<(u64, u64)>
    decreases |prices|
  {
    if prices == {} then []
    else
      var p := Best(side, prices);
      [(p, Mod64(SumQty(Queue(resting, side, p))))] + DepthOf(resting, side, prices - {p})
  }

  predicate IsCrossed(resting: seq<Order>) {
    var bids, asks := Prices(resting, Bid), Prices(resting, Ask);
    bids != {} && asks != {} && Best(Bid, bids) >= Best(Ask, asks)
  }

  lemma {:induction false} UncrossedMeansSeparated(resting: seq<Order>)
    ensures !IsCrossed(resting) <==>
            forall a, b :: a in resting && b in resting && a.side == Bid && b.side == Ask ==> a.price < b.price
  {
    var bids, asks := Prices(resting, Bid), Prices(resting, Ask);
    if IsCrossed(resting) {
      var a :| a in resting && a.side == Bid && a.price == Best(Bid, bids);
      var b :| b in resting && b.side == Ask && b.price == Best(Ask, asks);
      assert a.price >= b.price;
    } else {
      forall a, b | a in resting && b in resting && a.side == Bid && b.side == Ask
        ensures a.price < b.price
      {
        assert a.price in bids && b.price in asks;
      }
    }
  }

  // ---------------------------------------------------------------------------
  // Operations
  // ---------------------------------------------------------------------------

  datatype InsertResult = Inserted(book: Book) | RefusedDuplicate | RefusedFull

  function Insert(b: Book, o: Order): InsertResult {
    if IndexWhere(b.resting, WithHash(o.intentHash)) < |b.resting| then RefusedDuplicate
    else if |b.resting| == b.capacity then RefusedFull
    else Inserted(b.(resting := b.resting + [o]))
  }

  function CancelHash(b: Book, hash: IntentHash): (Book, Option<Order>) {
    var i := IndexWhere(b.resting, WithHash(hash));
    if i < |b.resting| then (b.(resting := RemoveAt(b.resting, i)), Some(b.resting[i])) else (b, None)
  }

  function Top(b: Book, side: Side): Option<Order> {
    var i := TopIndex(b.resting, side);
    if i < |b.resting| then Some(b.resting[i]) else None
  }

  function PopTop(b: Book, side: Side): Book {
    var i := TopIndex(b.resting, side);
    if i < |b.resting| then b.(resting := RemoveAt(b.resting, i)) else b
  }

  function ReduceTop(b: Book, side: Side, qty: u64): Book {
    var i := TopIndex(b.resting, side);
    if i < |b.resting| then
      b.(resting := b.resting[i := b.resting[i].(quantity := WrapSub(b.resting[i].quantity, qty))])
    else b
  }

  // ---------------------------------------------------------------------------
  // The operations seen through the price levels
  // ---------------------------------------------------------------------------

  /** Which insertions are refused, and why: a duplicate is reported before a full book. */
  lemma {:induction false} InsertRefuses(b: Book, o: Order)
    ensures Insert(b, o).RefusedDuplicate? <==> exists r :: r in b.resting && r.intentHash == o.intentHash
    ensures Insert(b, o).RefusedFull? <==>
            |b.resting| == b.capacity && forall r :: r in b.resting ==> r.intentHash != o.intentHash
  {
  }

  /** Insertion appends at its own price and leaves every other level alone. */
  lemma {:induction false} InsertAppends(b: Book, o: Order, side: Side, price: u64)
    requires Insert(b, o).Inserted?
    ensures Queue(Insert(b, o).book.resting, side, price) ==
            Queue(b.resting, side, price) + (if o.side == side && o.price == price then [o] else [])
  {
    FilterConcat(b.resting, [o], AtLevel(side, price));
  }

  /** Cancelling finds an order exactly when one with that hash rests; it deletes it from wherever it
      stands in its level and keeps the order of the rest, and otherwise changes nothing. */
  lemma {:induction false} CancelDeletes(b: Book, hash: IntentHash, side: Side, price: u64)
    ensures CancelHash(b, hash).1.Some? <==> exists o :: o in b.resting && o.intentHash == hash
    ensures CancelHash(b, hash).1.None? ==> CancelHash(b, hash).0 == b
    ensures CancelHash(b, hash).1.Some? ==>
              CancelHash(b, hash).1.value in b.resting && CancelHash(b, hash).1.value.intentHash == hash
    ensures CancelHash(b, hash).1.Some? ==>
              var (b', o) := CancelHash(b, hash);
              var before, after := Queue(b.resting, side, price), Queue(b'.resting, side, price);
              if o.value.side == side && o.value.price == price
              then exists k :: 0 <= k < |before| && before[k] == o.value && after == RemoveAt(before, k)
              else after == before
  {
    var i := IndexWhere(b.resting, WithHash(hash));
    if i == |b.resting| {
      return;
    }
    FilterSplit(b.resting, i, AtLevel(side, price));
    FilterRemove(b.resting, i, AtLevel(side, price));
    ghost var k := |Filter(b.resting[..i], AtLevel(side, price))|;
    if AtLevel(side, price)(b.resting[i]) {
      assert Queue(b.resting, side, price)[k] == b.resting[i];
    }
  }

  /** There is a top exactly when an order rests on the side. */
  lemma {:induction false} TopExists(b: Book, side: Side)
    ensures Top(b, side).Some? <==> exists o :: o in b.resting && o.side == side
    ensures Top(b, side).Some? <==> Prices(b.resting, side) != {}
  {
    TopIndexFound(b.resting, side);
    if o :| o in b.resting && o.side == side {
      assert o.price in Prices(b.resting, side);
    }
  }

  /** Popping takes the head of the best level and nothing else, and of an empty side nothing. */
  lemma {:induction false} PopTakesHead(b: Book, side: Side, s: Side, price: u64)
    ensures Top(b, side).Some? <==> exists o :: o in b.resting && o.side == side
    ensures Top(b, side).Some? <==> Prices(b.resting, side) != {}
    ensures Top(b, side).None? ==> PopTop(b, side) == b
    ensures Top(b, side).Some? ==>
              var best := Best(side, Prices(b.resting, side));
              var before, after := Queue(b.resting, s, price), Queue(PopTop(b, side).resting, s, price);
              if s == side && price == best
              then before != [] && before[0] == Top(b, side).value && after == before[1..]
              else after == before
  {
    TopExists(b, side);
    if Top(b, side).Some? {
      TopIndexFound(b.resting, side);
      FilterRemove(b.resting, TopIndex(b.resting, side), AtLevel(s, price));
    }
  }

  /** Reducing lowers the quantity of the head of the best level, wrapping below zero, and changes
      nothing else; of an empty side it changes nothing. */
  lemma {:induction false} ReduceChangesHead(b: Book, side: Side, qty: u64, s: Side, price: u64)
    ensures Top(b, side).Some? <==> Prices(b.resting, side) != {}
    ensures Top(b, side).None? ==> ReduceTop(b, side, qty) == b
    ensures Top(b, side).Some? ==>
              var best, left := Best(side, Prices(b.resting, side)), Top(b, side).value.quantity - qty;
              var before, after := Queue(b.resting, s, price), Queue(ReduceTop(b, side, qty).resting, s, price);
              if s == side && price == best
              then before != [] && before[0] == Top(b, side).value
                   && after == before[0 := before[0].(quantity := if left >= 0 then left else left + U64_MODULUS)]
              else after == before
  {
    TopExists(b, side);
    if Top(b, side).Some? {
      TopIndexFound(b.resting, side);
      var i := TopIndex(b.resting, side);
      var o := b.resting[i];
      FilterUpdate(b.resting, i, o.(quantity := WrapSub(o.quantity, qty)), AtLevel(s, price));
    }
  }

  // ---------------------------------------------------------------------------
  // Price-time priority
  // ---------------------------------------------------------------------------

  lemma {:induction false} FlattenCongruent(r1: seq<Order>, r2: seq<Order>, side: Side, prices: set<u64>)
    requires forall p :: p in prices ==> Queue(r1, side, p) == Queue(r2, side, p)
    ensures Flatten(r1, side, prices) == Flatten(r2, side, prices)
    decreases |prices|
  {
    if prices != {} {
      FlattenCongruent(r1, r2, side, prices - {Best(side, prices)});
    }
  }

  /** Two lists with the same levels on a side have the same price-time order on it. */
  lemma {:induction false} PriceTimeCongruent(r1: seq<Order>, r2: seq<Order>, side: Side)
    requires forall p: u64 :: Queue(r1, side, p) == Queue(r2, side, p)
    ensures Prices(r1, side) == Prices(r2, side)
    ensures PriceTime(r1, side) == PriceTime(r2, side)
  {
    forall p: u64
      ensures p in Prices(r1, side) <==> p in Prices(r2, side)
    {
      PricesAreQueues(r1, side, p);
      PricesAreQueues(r2, side, p);
    }
    assert Prices(r1, side) == Prices(r2, side);
    FlattenCongruent(r1, r2, side, Prices(r1, side));
  }

  lemma {:induction false} FlattenMembers(resting: seq<Order>, side: Side, prices: set<u64>, o: Order)
    ensures o in Flatten(resting, side, prices) <==> o in resting && o.side == side && o.price in prices
    decreases |prices|
  {
    if prices != {} {
      var p := Best(side, prices);
      FilterMember(resting, AtLevel(side, p), o);
      FlattenMembers(resting, side, prices - {p}, o);
    }
  }

  /** Price-time order is sorted by price, and holds each level's FIFO as it stands: it is the
      stable sort of the side by price. */
  lemma {:induction false} PriceTimeIsStableSort(resting: seq<Order>, side: Side)
    ensures SortedByPrice(side, PriceTime(resting, side))
    ensures forall p: u64 :: Queue(PriceTime(resting, side), side, p) == Queue(resting, side, p)
    ensures forall o :: o in PriceTime(resting, side) <==> o in resting && o.side == side
  {
    var prices := Prices(resting, side);
    FlattenSorted(resting, side, prices);
    forall p: u64
      ensures Queue(PriceTime(resting, side), side, p) == Queue(resting, side, p)
    {
      FlattenStable(resting, side, prices, p);
      PricesAreQueues(resting, side, p);
    }
    forall o
      ensures o in PriceTime(resting, side) <==> o in resting && o.side == side
    {
      FlattenMembers(resting, side, prices, o);
    }
  }

  ghost predicate SortedByPrice(side: Side, orders: seq<Order>) {
    forall i, j :: 0 <= i < j < |orders| ==>
      if side == Bid then orders[i].price >= orders[j].price else orders[i].price <= orders[j].price
  }

  lemma {:induction false} FlattenSorted(resting: seq<Order>, side: Side, prices: set<u64>)
    ensures SortedByPrice(side, Flatten(resting, side, prices))
    decreases |prices|
  {
    if prices != {} {
      var p := Best(side, prices);
      var head, tail := Queue(resting, side, p), Flatten(resting, side, prices - {p});
      FlattenSorted(resting, side, prices - {p});
      FilterMembers(resting, AtLevel(side, p));
      forall j | 0 <= j < |tail|
        ensures tail[j].price in prices
      {
        FlattenMembers(resting, side, prices - {p}, tail[j]);
      }
    }
  }

  lemma {:induction false} FlattenStable(resting: seq<Order>, side: Side, prices: set<u64>, p: u64)
    ensures Queue(Flatten(resting, side, prices), side, p) ==
            if p in prices then Queue(resting, side, p) else []
    decreases |prices|
  {
    if prices != {} {
      var b := Best(side, prices);
      var head, tail := Queue(resting, side, b), Flatten(resting, side, prices - {b});
      FlattenStable(resting, side, prices - {b}, p);
      FilterConcat(head, tail, AtLevel(side, p));
      FilterMembers(resting, AtLevel(side, b));
      if p == b {
        FilterAll(head, AtLevel(side, p));
      } else {
        FilterNone(head, AtLevel(side, p));
      }
    }
  }

  /** The top of the book is the first order in price-time priority. */
  lemma {:induction false} TopIsFirst(resting: seq<Order>, side: Side)
    ensures PriceTime(resting, side) == [] <==> TopIndex(resting, side) == |resting|
    ensures PriceTime(resting, side) != [] ==>
              PriceTime(resting, side)[0] == resting[TopIndex(resting, side)]
              && resting[TopIndex(resting, side)].side == side
  {
    TopIndexFound(resting, side);
  }

  lemma {:induction false} RemoveTopQueue(resting: seq<Order>, side: Side, p: u64)
    requires TopIndex(resting, side) < |resting|
    ensures Prices(resting, side) != {}
    ensures var best, r := Best(side, Prices(resting, side)), RemoveAt(resting, TopIndex(resting, side));
            && Queue(resting, side, best) != []
            && Queue(r, side, p) == (if p == best then Queue(resting, side, p)[1..] else Queue(resting, side, p))
            && (p in Prices(r, side) <==>
                  p in Prices(resting, side) && (p == best ==> |Queue(resting, side, best)| > 1))
  {
    TopIndexFound(resting, side);
    var i := TopIndex(resting, side);
    FilterRemove(resting, i, AtLevel(side, p));
    PricesAreQueues(RemoveAt(resting, i), side, p);
    PricesAreQueues(resting, side, p);
  }

  lemma {:induction false} FlattenHead(resting: seq<Order>, side: Side, prices: set<u64>, best: u64)
    requires IsBest(side, prices, best)
    ensures Flatten(resting, side, prices) == Queue(resting, side, best) + Flatten(resting, side, prices - {best})
  {
  }

  /** Removing the top drops the first order in price-time priority. */
  lemma {:induction false} RemoveTopDropsFirst(resting: seq<Order>, side: Side)
    requires TopIndex(resting, side) < |resting|
    ensures PriceTime(resting, side) != []
    ensures PriceTime(RemoveAt(resting, TopIndex(resting, side)), side) == PriceTime(resting, side)[1..]
  {
    hide Queue, TopIndex, Prices;
    TopIndexFound(resting, side);
    var r := RemoveAt(resting, TopIndex(resting, side));
    var prices, prices' := Prices(resting, side), Prices(r, side);
    var best := Best(side, prices);
    var queue := Queue(resting, side, best);
    forall p: u64
      ensures p != best ==> Queue(r, side, p) == Queue(resting, side, p)
      ensures p in prices' <==> p in prices && (p == best ==> |queue| > 1)
    {
      RemoveTopQueue(resting, side, p);
    }
    RemoveTopQueue(resting, side, best);
    var rest := Flatten(resting, side, prices - {best});
    FlattenCongruent(resting, r, side, prices - {best});
    FlattenHead(resting, side, prices, best);
    assert (queue + rest)[1..] == queue[1..] + rest;
    if |queue| > 1 {
      assert prices' == prices;
      FlattenHead(r, side, prices', best);
    } else {
      assert prices' == prices - {best};
    }
  }

  lemma {:induction false} UpdateTopQueue(resting: seq<Order>, side: Side, o: Order, p: u64)
    requires TopIndex(resting, side) < |resting|
    requires o.side == side && o.price == resting[TopIndex(resting, side)].price
    ensures Prices(resting, side) != {}
    ensures var best, r := Best(side, Prices(resting, side)), resting[TopIndex(resting, side) := o];
            && Queue(resting, side, best) != []
            && Queue(r, side, p) == (if p == best then Queue(resting, side, p)[0 := o] else Queue(resting, side, p))
            && (p in Prices(r, side) <==> p in Prices(resting, side))
  {
    TopIndexFound(resting, side);
    var i := TopIndex(resting, side);
    FilterUpdate(resting, i, o, AtLevel(side, p));
    PricesAreQueues(resting[i := o], side, p);
    PricesAreQueues(resting, side, p);
  }

  /** Rewriting the top order at the same price rewrites the first order in price-time priority. */
  lemma {:induction false} UpdateTopUpdatesFirst(resting: seq<Order>, side: Side, o: Order)
    requires TopIndex(resting, side) < |resting|
    requires o.side == side && o.price == resting[TopIndex(resting, side)].price
    ensures PriceTime(resting, side) != []
    ensures PriceTime(resting[TopIndex(resting, side) := o], side) == PriceTime(resting, side)[0 := o]
  {
    hide Queue, TopIndex, Prices;
    UpdateTopQueue(resting, side, o, 0);
    var r := resting[TopIndex(resting, side) := o];
    var prices, prices' := Prices(resting, side), Prices(r, side);
    var best := Best(side, prices);
    forall p: u64
      ensures p != best ==> Queue(r, side, p) == Queue(resting, side, p)
      ensures p in prices' <==> p in prices
    {
      UpdateTopQueue(resting, side, o, p);
    }
    UpdateTopQueue(resting, side, o, best);
    assert prices' == prices;
    FlattenCongruent(resting, r, side, prices - {best});
    FlattenHead(resting, side, prices, best);
    FlattenHead(r, side, prices, best);
  }

  /** Touching one side's order leaves the other side's levels as they were. */
  lemma {:induction false} OtherSideUntouched(resting: seq<Order>, i: nat, side: Side, price: u64)
    requires i < |resting| && resting[i].side != side
    ensures Queue(RemoveAt(resting, i), side, price) == Queue(resting, side, price)
    ensures forall o: Order :: o.side != side ==> Queue(resting[i := o], side, price) == Queue(resting, side, price)
  {
    FilterRemove(resting, i, AtLevel(side, price));
    forall o: Order | o.side != side
      ensures Queue(resting[i := o], side, price) == Queue(resting, side, price)
    {
      FilterUpdate(resting, i, o, AtLevel(side, price));
    }
  }

  // ---------------------------------------------------------------------------
  // Quantities
  // ---------------------------------------------------------------------------

  lemma {:induction false} SumConcat(a: seq<Order>, b: seq<Order>)
    ensures SumQty(a + b) == SumQty(a) + SumQty(b)
  {
    if a == [] {
      assert a + b == b;
    } else {
      assert (a + b)[1..] == a[1..] + b;
      SumConcat(a[1..], b);
    }
  }

  lemma SumOne(o: Order)
    ensures SumQty([o]) == o.quantity
  {
  }

  lemma {:induction false} SumRemove(s: seq<Order>, i: nat)
    requires i < |s|
    ensures SumQty(s) == SumQty(RemoveAt(s, i)) + s[i].quantity
  {
    assert s == s[..i] + ([s[i]] + s[i + 1..]);
    SumConcat(s[..i], [s[i]] + s[i + 1..]);
    assert ([s[i]] + s[i + 1..])[1..] == s[i + 1..];
    SumConcat(s[..i], s[i + 1..]);
  }

  lemma {:induction false} SumUpdate(s: seq<Order>, i: nat, o: Order)
    requires i < |s|
    ensures SumQty(s[i := o]) == SumQty(s) - s[i].quantity + o.quantity
  {
    SumRemove(s, i);
    SumRemove(s[i := o], i);
    assert RemoveAt(s[i := o], i) == RemoveAt(s, i);
  }
}
