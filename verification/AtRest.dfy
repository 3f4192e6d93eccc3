/** What holds of every book between commands, after any run however long: it is not crossed, within
    its capacity, and made of sound orders. None of it depends on the ids. */
module AtRest {
  import opened Types
  import opened Sequences
  import opened Books
  import opened Matching
  import opened Engines
  import Arenas

  ghost predicate DistinctHashes(s: seq<Order>) {
    forall i, j :: 0 <= i < j < |s| ==> s[i].intentHash != s[j].intentHash
  }

  /** No bid reaches an ask. */
  ghost predicate Separated(s: seq<Order>) {
    forall i, j :: 0 <= i < |s| && 0 <= j < |s| && s[i].side == Bid && s[j].side == Ask ==> s[i].price < s[j].price
  }

  /** Every order has something left, a price, and belongs to the instrument. */
  ghost predicate Sound(instrument: u32, s: seq<Order>) {
    forall k :: 0 <= k < |s| ==> s[k].quantity > 0 && s[k].price > 0 && s[k].instrumentId == instrument
  }

  ghost predicate BookOk(instrument: u32, b: Book) {
    && |b.resting| <= b.capacity
    && DistinctHashes(b.resting)
    && Separated(b.resting)
    && Sound(instrument, b.resting)
  }

  ghost predicate BooksOk(books: map<u32, Book>) {
    forall i :: i in books ==> BookOk(i, books[i])
  }

  // ---------------------------------------------------------------------------
  // What crossing does to one book
  // ---------------------------------------------------------------------------

  /** Everything about one list that removing or reducing orders keeps. */
  ghost predicate Thinned(s: seq<Order>, t: seq<Order>) {
    && |t| <= |s|
    && (DistinctHashes(s) ==> DistinctHashes(t))
    && (Separated(s) ==> Separated(t))
    && (forall instrument :: Sound(instrument, s) ==> Sound(instrument, t))
  }

  lemma {:induction false} RemoveThins(s: seq<Order>, k: nat)
    requires k < |s|
    ensures Thinned(s, RemoveAt(s, k))
  {
  }

  lemma {:induction false} HitThins(s: seq<Order>, k: nat, fill: u64)
    requires k < |s| && fill <= s[k].quantity
    ensures Thinned(s, Hit(s, k, fill))
  {
    RemoveThins(s, k);
  }

  lemma {:induction false} CrossThins(s: seq<Order>, req: OrderRequest, id: u64, qty: u64)
    ensures Thinned(s, Cross(s, req, id, qty).resting)
    decreases |s|, qty
  {
    hide TopIndex, Hit, DistinctHashes, Separated, Sound;
    if !Stops(s, req, qty) {
      HitThins(s, TopIndex(s, Opposite(req.side)), TopFill(s, req, qty));
      CrossThins(AfterTrade(s, req, qty), req, id, qty - TopFill(s, req, qty));
    }
  }

  /** A residual means that nothing on the opposite side crosses any more. */
  lemma {:induction false} CrossExhausts(s: seq<Order>, req: OrderRequest, id: u64, qty: u64)
    requires Cross(s, req, id, qty).remaining > 0
    ensures forall o :: o in Cross(s, req, id, qty).resting && o.side != req.side ==>
              if req.side == Bid then o.price > req.price else o.price < req.price
    decreases |s|, qty
  {
    var side := Opposite(req.side);
    if Stops(s, req, qty) {
      TopIndexFound(s, side);
      forall o | o in s && o.side == side
        ensures !Crossing(req.side, req.price, o.price)
      {
        assert o.price in Prices(s, side);
      }
    } else {
      CrossExhausts(AfterTrade(s, req, qty), req, id, qty - TopFill(s, req, qty));
    }
  }

  lemma {:induction false} InsertKeepsBookOk(b: Book, order: Order)
    requires BookOk(order.instrumentId, b) && Insert(b, order).Inserted?
    requires order.quantity > 0 && order.price > 0
    requires forall o :: o in b.resting && o.side == Opposite(order.side) ==> !Crossing(order.side, order.price, o.price)
    ensures BookOk(order.instrumentId, Insert(b, order).book)
  {
  }

  // ---------------------------------------------------------------------------
  // One command, then whole runs
  // ---------------------------------------------------------------------------

  lemma {:induction false} MatchKeepsBookOk(b: Book, req: OrderRequest, id: u64)
    requires BookOk(req.instrumentId, b) && req.price > 0
    ensures BookOk(req.instrumentId, MatchLimit(b, req, id).book)
  {
    var r := Cross(b.resting, req, id, req.quantity);
    CrossThins(b.resting, req, id, req.quantity);
    hide Cross, Insert, HasSufficientLiquidity, DistinctHashes, Separated, Sound;
    var crossed, order := b.(resting := r.resting), RestingOrder(req, id, r.remaining);
    if r.remaining > 0 && Insert(crossed, order).Inserted? {
      CrossExhausts(b.resting, req, id, req.quantity);
      InsertKeepsBookOk(crossed, order);
    }
  }

  lemma {:induction false} CancelKeepsBookOk(instrument: u32, b: Book, hash: IntentHash)
    requires BookOk(instrument, b)
    ensures BookOk(instrument, CancelHash(b, hash).0)
  {
    hide DistinctHashes, Separated, Sound;
    var k := IndexWhere(b.resting, WithHash(hash));
    if k < |b.resting| {
      RemoveThins(b.resting, k);
    }
  }

  lemma EmptyBookOk(instrument: u32, capacity: u32)
    ensures BookOk(instrument, Book(capacity, []))
  {
  }

  lemma {:induction false} StepKeepsBooksOk(e: Engine, cmd: Command)
    requires BooksOk(e.books)
    ensures Step(e, cmd).Done? ==> BooksOk(Step(e, cmd).engine.books)
  {
    hide MatchLimit, CancelHash, Mod64, DistinctHashes, Separated, Sound;
    match cmd
    case AddInstrument(i, capacity) =>
      EmptyBookOk(i, capacity);
    case Submit(req) =>
      var i := req.instrumentId;
      if i in e.books {
        CancelKeepsBookOk(i, e.books[i], req.intentHash);
        if req.price > 0 {
          MatchKeepsBookOk(e.books[i], req, e.nextOrderId);
        }
      }
  }

  lemma {:induction false} RunKeepsBooksOk(cmds: seq<Command>)
    requires Run(cmds).Done?
    ensures BooksOk(Run(cmds).engine.books)
  {
    hide Step, BookOk;
    if cmds != [] {
      var prefix := cmds[..|cmds| - 1];
      RunKeepsBooksOk(prefix);
      StepKeepsBooksOk(Run(prefix).engine, cmds[|cmds| - 1]);
    }
  }

  /** No book is ever crossed at rest. */
  lemma {:induction false} NeverCrossedAtRest(cmds: seq<Command>, i: u32)
    requires Run(cmds).Done? && i in Run(cmds).engine.books
    ensures !IsCrossed(Run(cmds).engine.books[i].resting)
  {
    RunKeepsBooksOk(cmds);
    var s := Run(cmds).engine.books[i].resting;
    assert BookOk(i, Run(cmds).engine.books[i]);
    UncrossedMeansSeparated(s);
    forall a, b | a in s && b in s && a.side == Bid && b.side == Ask
      ensures a.price < b.price
    {
      var m :| 0 <= m < |s| && s[m] == a;
      var n :| 0 <= n < |s| && s[n] == b;
    }
  }

  /** After any run every book is within its capacity, no two of its orders share an intent hash, and
      every resting quantity and price is positive. */
  lemma {:induction false} RestingOrdersAreSound(cmds: seq<Command>, i: u32)
    requires Run(cmds).Done? && i in Run(cmds).engine.books
    ensures var b := Run(cmds).engine.books[i];
            && |b.resting| <= b.capacity
            && DistinctHashes(b.resting)
            && forall k :: 0 <= k < |b.resting| ==>
                 b.resting[k].quantity > 0 && b.resting[k].price > 0 && b.resting[k].instrumentId == i
  {
    RunKeepsBooksOk(cmds);
    assert BookOk(i, Run(cmds).engine.books[i]);
  }

  // ---------------------------------------------------------------------------
  // A reachable book on which the Fill-or-Kill gate errs
  // ---------------------------------------------------------------------------

  const HALF: u64 := 0x8000_0000_0000_0000

  /** A good-till-cancelled ask of 2^63 units. */
  ghost predicate HugeAsk(req: OrderRequest) {
    && req.requestType == NewOrder && req.side == Ask && req.tif == GTC
    && req.quantity == HALF && req.price > 0
  }

  /** An ask that meets no bid and whose hash is new comes to rest as it is. */
  lemma {:induction false} AskRests(e: Engine, req: OrderRequest)
    requires HugeAsk(req) && req.instrumentId in e.books
    requires var b := e.books[req.instrumentId];
             && |b.resting| < b.capacity
             && forall o :: o in b.resting ==> o.side == Ask && o.intentHash != req.intentHash
    ensures var b := e.books[req.instrumentId];
            var order := RestingOrder(req, e.nextOrderId, HALF);
            Step(e, Submit(req)) ==
              Done(Engine(e.books[req.instrumentId := b.(resting := b.resting + [order])], WrapAdd(e.nextOrderId, 1)), [New(order)])
  {
    var s := e.books[req.instrumentId].resting;
    TopIndexFound(s, Bid);
    assert Prices(s, Bid) == {};
    assert Stops(s, req, HALF);
  }

  lemma {:induction false} AskJoins(cmds: seq<Command>, i: u32, capacity: u32, s: seq<Order>, next: u64, req: OrderRequest, events: seq<OrderEvent>)
    requires Run(cmds) == Done(Engine(map[i := Book(capacity, s)], next), events) && next < HALF
    requires HugeAsk(req) && req.instrumentId == i && |s| < capacity
    requires forall o :: o in s ==> o.side == Ask && o.intentHash != req.intentHash
    ensures var order := RestingOrder(req, next, HALF);
            Run(cmds + [Submit(req)]) == Done(Engine(map[i := Book(capacity, s + [order])], next + 1), events + [New(order)])
  {
    hide Run, Step;
    var e := Run(cmds).engine;
    RunAppend(cmds, Submit(req));
    AskRests(e, req);
    assert e.books[i := Book(capacity, s + [RestingOrder(req, next, HALF)])] ==
           map[i := Book(capacity, s + [RestingOrder(req, next, HALF)])];
  }

  function TwoAsks(i: u32, capacity: u32, first: OrderRequest, second: OrderRequest): seq<Command> {
    [] + [AddInstrument(i, capacity)] + [Submit(first)] + [Submit(second)]
  }

  lemma {:induction false} TwoAsksRest(i: u32, capacity: u32, first: OrderRequest, second: OrderRequest)
    requires 2 <= capacity < Arenas.MAX_CAPACITY
    requires HugeAsk(first) && HugeAsk(second) && first.intentHash != second.intentHash
    requires first.instrumentId == i && second.instrumentId == i
    ensures var a, b := RestingOrder(first, 0, HALF), RestingOrder(second, 1, HALF);
            Run(TwoAsks(i, capacity, first, second)) == Done(Engine(map[i := Book(capacity, [a, b])], 2), [New(a), New(b)])
  {
    var add := [] + [AddInstrument(i, capacity)];
    NothingRun();
    RunAppend([], AddInstrument(i, capacity));
    AskJoins(add, i, capacity, [], 0, first, []);
    var a, b := RestingOrder(first, 0, HALF), RestingOrder(second, 1, HALF);
    AskJoins(add + [Submit(first)], i, capacity, [] + [a], 1, second, [] + [New(a)]);
    assert [] + [a] + [b] == [a, b] && [] + [New(a)] + [New(b)] == [New(a), New(b)];
  }

  /** Two accepted asks of 2^63 at one price are a run after which the engine turns away every
      Fill-or-Kill bid that reaches them, although the loop would fill it. */
  lemma {:induction false} WrappedTotalIsReachable(i: u32, capacity: u32, first: OrderRequest, second: OrderRequest, bid: OrderRequest)
    requires 2 <= capacity < Arenas.MAX_CAPACITY
    requires HugeAsk(first) && HugeAsk(second) && first.price == second.price && first.intentHash != second.intentHash
    requires first.instrumentId == i && second.instrumentId == i && bid.instrumentId == i
    requires bid.requestType == NewOrder && bid.side == Bid && bid.tif == FOK
    requires bid.quantity > 0 && bid.price >= first.price
    ensures var cmds := TwoAsks(i, capacity, first, second);
            && Run(cmds).Done? && Run(cmds + [Submit(bid)]).Done? && i in Run(cmds).engine.books
            && Run(cmds + [Submit(bid)]).events ==
               Run(cmds).events + [Reject(0, InsufficientLiquidity, bid.quantity, bid.originTs, bid.intentHash)]
            && Cross(Run(cmds).engine.books[i].resting, bid, 2, bid.quantity).remaining == 0
  {
    hide Cross, Run, Step, TwoAsks;
    TwoAsksRest(i, capacity, first, second);
    var cmds := TwoAsks(i, capacity, first, second);
    var e := Run(cmds).engine;
    GateMissesWrappedTotal(RestingOrder(first, 0, HALF), RestingOrder(second, 1, HALF), bid, 2);
    BidTurnedAway(e, bid);
    RunAppend(cmds, Submit(bid));
  }

  lemma NothingRun()
    ensures Run([]) == Done(EMPTY_ENGINE, [])
  {
  }

  lemma BidTurnedAway(e: Engine, bid: OrderRequest)
    requires bid.requestType == NewOrder && bid.tif == FOK && bid.quantity > 0 && bid.price > 0
    requires bid.instrumentId in e.books && !HasSufficientLiquidity(e.books[bid.instrumentId].resting, bid, bid.quantity)
    ensures Step(e, Submit(bid)).Done?
    ensures Step(e, Submit(bid)).events == [Reject(0, InsufficientLiquidity, bid.quantity, bid.originTs, bid.intentHash)]
  {
  }
}
