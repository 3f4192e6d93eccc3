/** Rebuilding the books from the event stream alone, and what that gives over whole runs. */
module Shadows {
  import opened Types
  import opened Sequences
  import opened Books
  import opened Matching
  import opened Engines

  // ---------------------------------------------------------------------------
  // The shadow: resting orders of all instruments in arrival order, known only from events
  // ---------------------------------------------------------------------------

  function IdIsNot(id: u64): Order -> bool {
    (o: Order) => o.orderId != id
  }

  function OnInstrument(i: u32): Order -> bool {
    (o: Order) => o.instrumentId == i
  }

  function Requantified(o: Order, id: u64, qty: u64): Order {
    if o.orderId == id then o.(quantity := qty) else o
  }

  function SetQty(s: seq<Order>, id: u64, qty: u64): (r: seq<Order>)
    ensures |r| == |s| && forall i :: 0 <= i < |s| ==> r[i] == Requantified(s[i], id, qty)
  {
    seq(|s|, i requires 0 <= i < |s| => Requantified(s[i], id, qty))
  }

  function Apply(shadow: seq<Order>, event: OrderEvent): seq<Order> {
    match event
    case New(order) => shadow + [order]
    case Fill(id, _, _, _, _) => Filter(shadow, IdIsNot(id))
    case PartialFill(id, _, _, remaining, _, _) => SetQty(shadow, id, remaining)
    case Cancel(id, _, _) => Filter(shadow, IdIsNot(id))
    case Reject(_, _, _, _, _) => shadow
  }

  function Replay(shadow: seq<Order>, events: seq<OrderEvent>): seq<Order>
    decreases |events|
  {
    if events == [] then shadow else Replay(Apply(shadow, events[0]), events[1..])
  }

  lemma {:induction false} ReplayConcat(shadow: seq<Order>, a: seq<OrderEvent>, b: seq<OrderEvent>)
    ensures Replay(shadow, a + b) == Replay(Replay(shadow, a), b)
    decreases |a|
  {
    if a == [] {
      assert a + b == b;
    } else {
      assert (a + b)[1..] == a[1..] + b;
      ReplayConcat(Apply(shadow, a[0]), a[1..], b);
    }
  }

  lemma {:induction false} ReplayOne(shadow: seq<Order>, events: seq<OrderEvent>, event: OrderEvent)
    ensures Replay(shadow, events + [event]) == Apply(Replay(shadow, events), event)
  {
    ReplayConcat(shadow, events, [event]);
    assert [event][1..] == [];
  }

  // ---------------------------------------------------------------------------
  // The run invariant
  // ---------------------------------------------------------------------------

  ghost predicate IncreasingIds(s: seq<Order>) {
    forall i, j :: 0 <= i < j < |s| ==> s[i].orderId < s[j].orderId
  }

  ghost predicate IdsBelow(s: seq<Order>, next: int) {
    forall i :: 0 <= i < |s| ==> s[i].orderId < next
  }

  /** Every book is the shadow restricted to its instrument. */
  ghost predicate Mirrors(shadow: seq<Order>, books: map<u32, Book>) {
    forall i :: i in books ==> Filter(shadow, OnInstrument(i)) == books[i].resting
  }

  ghost predicate ShadowOk(shadow: seq<Order>, books: map<u32, Book>, next: int) {
    && IncreasingIds(shadow)
    && IdsBelow(shadow, next)
    && (forall k :: 0 <= k < |shadow| ==> shadow[k].instrumentId in books)
    && Mirrors(shadow, books)
  }

  ghost predicate RunInv(shadow: seq<Order>, e: Engine) {
    ShadowOk(shadow, e.books, e.nextOrderId)
  }

  // ---------------------------------------------------------------------------
  // Events on the shadow
  // ---------------------------------------------------------------------------

  lemma {:induction false} FilterIncreasing(s: seq<Order>, p: Order -> bool)
    requires IncreasingIds(s)
    ensures IncreasingIds(Filter(s, p))
  {
    if s != [] {
      FilterIncreasing(s[1..], p);
      FilterMembers(s[1..], p);
    }
  }

  /** In a list with increasing ids, dropping an id drops the one order that has it. */
  lemma {:induction false} DropId(s: seq<Order>, k: nat)
    requires IncreasingIds(s) && k < |s|
    ensures Filter(s, IdIsNot(s[k].orderId)) == RemoveAt(s, k)
  {
    hide Filter;
    var p := IdIsNot(s[k].orderId);
    var a, b := s[..k], s[k + 1..];
    forall j | 0 <= j < |b|
      ensures p(b[j])
    {
      assert b[j] == s[k + 1 + j];
    }
    FilterAll(a, p);
    FilterAll(b, p);
    FilterSplit(s, k, p);
  }

  lemma {:induction false} SetId(s: seq<Order>, k: nat, qty: u64)
    requires IncreasingIds(s) && k < |s|
    ensures SetQty(s, s[k].orderId, qty) == s[k := s[k].(quantity := qty)]
  {
  }

  lemma {:induction false} FilterSetQty(s: seq<Order>, id: u64, qty: u64, i: u32)
    ensures Filter(SetQty(s, id, qty), OnInstrument(i)) == SetQty(Filter(s, OnInstrument(i)), id, qty)
  {
    if s != [] {
      FilterSetQty(s[1..], id, qty, i);
      assert SetQty(s, id, qty)[1..] == SetQty(s[1..], id, qty);
      var rest := Filter(s[1..], OnInstrument(i));
      if s[0].instrumentId == i {
        assert SetQty([s[0]] + rest, id, qty) == [Requantified(s[0], id, qty)] + SetQty(rest, id, qty);
      }
    }
  }

  /** An event about an id that is not resting changes nothing. */
  lemma {:induction false} AbsentId(s: seq<Order>, id: u64, qty: u64)
    requires forall k :: 0 <= k < |s| ==> s[k].orderId != id
    ensures Filter(s, IdIsNot(id)) == s
    ensures SetQty(s, id, qty) == s
  {
    FilterAll(s, IdIsNot(id));
  }

  function WithResting(books: map<u32, Book>, i: u32, resting: seq<Order>): map<u32, Book>
    requires i in books
  {
    books[i := books[i].(resting := resting)]
  }

  lemma {:induction false} MirrorMembers(shadow: seq<Order>, books: map<u32, Book>, i: u32, k: nat) returns (n: nat)
    requires Mirrors(shadow, books) && i in books && k < |books[i].resting|
    ensures n < |shadow| && shadow[n] == books[i].resting[k] && shadow[n].instrumentId == i
  {
    FilterMember(shadow, OnInstrument(i), books[i].resting[k]);
    n :| 0 <= n < |shadow| && shadow[n] == books[i].resting[k];
  }

  lemma {:induction false} BookIncreasing(shadow: seq<Order>, books: map<u32, Book>, i: u32)
    requires Mirrors(shadow, books) && IncreasingIds(shadow) && i in books
    ensures IncreasingIds(books[i].resting)
  {
    FilterIncreasing(shadow, OnInstrument(i));
  }

  /** An id resting on one instrument rests on no other. */
  lemma {:induction false} ForeignId(shadow: seq<Order>, i: u32, n: nat)
    requires IncreasingIds(shadow) && n < |shadow| && shadow[n].instrumentId != i
    ensures var s := Filter(shadow, OnInstrument(i));
            forall k :: 0 <= k < |s| ==> s[k].orderId != shadow[n].orderId
  {
    FilterMembers(shadow, OnInstrument(i));
  }

  /** Removing an order by id removes it from its own book's view and from no other. */
  lemma {:induction false} MirrorRemove(shadow: seq<Order>, books: map<u32, Book>, i: u32, k: nat)
    requires Mirrors(shadow, books) && IncreasingIds(shadow) && i in books && k < |books[i].resting|
    ensures var s := books[i].resting;
            Mirrors(Filter(shadow, IdIsNot(s[k].orderId)), WithResting(books, i, RemoveAt(s, k)))
  {
    var id := books[i].resting[k].orderId;
    var n := MirrorMembers(shadow, books, i, k);
    BookIncreasing(shadow, books, i);
    DropId(books[i].resting, k);
    var books' := WithResting(books, i, RemoveAt(books[i].resting, k));
    forall j | j in books'
      ensures Filter(Filter(shadow, IdIsNot(id)), OnInstrument(j)) == books'[j].resting
    {
      FilterCommutes(shadow, IdIsNot(id), OnInstrument(j));
      if j != i {
        ForeignId(shadow, j, n);
        AbsentId(books[j].resting, id, 0);
      }
    }
  }

  lemma {:induction false} MirrorRequantify(shadow: seq<Order>, books: map<u32, Book>, i: u32, k: nat, qty: u64)
    requires Mirrors(shadow, books) && IncreasingIds(shadow) && i in books && k < |books[i].resting|
    ensures var s := books[i].resting;
            Mirrors(SetQty(shadow, s[k].orderId, qty), WithResting(books, i, s[k := s[k].(quantity := qty)]))
  {
    var s := books[i].resting;
    var id := s[k].orderId;
    var n := MirrorMembers(shadow, books, i, k);
    BookIncreasing(shadow, books, i);
    SetId(s, k, qty);
    var books' := WithResting(books, i, s[k := s[k].(quantity := qty)]);
    forall j | j in books'
      ensures Filter(SetQty(shadow, id, qty), OnInstrument(j)) == books'[j].resting
    {
      FilterSetQty(shadow, id, qty, j);
      if j != i {
        ForeignId(shadow, j, n);
        AbsentId(books[j].resting, id, qty);
      }
    }
  }

  // ---------------------------------------------------------------------------
  // One trade, then the whole cross loop
  // ---------------------------------------------------------------------------

  lemma {:induction false} RemoveKeepsShadowOk(shadow: seq<Order>, books: map<u32, Book>, next: int, i: u32, k: nat)
    requires ShadowOk(shadow, books, next) && i in books && k < |books[i].resting|
    ensures var s := books[i].resting;
            ShadowOk(Filter(shadow, IdIsNot(s[k].orderId)), WithResting(books, i, RemoveAt(s, k)), next)
  {
    var id := books[i].resting[k].orderId;
    MirrorRemove(shadow, books, i, k);
    FilterIncreasing(shadow, IdIsNot(id));
    FilterMembers(shadow, IdIsNot(id));
    var shadow' := Filter(shadow, IdIsNot(id));
    forall m | 0 <= m < |shadow'|
      ensures shadow'[m].instrumentId in books && shadow'[m].orderId < next
    {
      var n :| 0 <= n < |shadow| && shadow[n] == shadow'[m];
      assert shadow[n].instrumentId in books;
    }
  }

  lemma {:induction false} RequantifyKeepsShadowOk(shadow: seq<Order>, books: map<u32, Book>, next: int, i: u32, k: nat, qty: u64)
    requires ShadowOk(shadow, books, next) && i in books && k < |books[i].resting|
    ensures var s := books[i].resting;
            ShadowOk(SetQty(shadow, s[k].orderId, qty), WithResting(books, i, s[k := s[k].(quantity := qty)]), next)
  {
    MirrorRequantify(shadow, books, i, k, qty);
    var shadow' := SetQty(shadow, books[i].resting[k].orderId, qty);
    forall m | 0 <= m < |shadow'|
      ensures shadow'[m].instrumentId in books && shadow'[m].orderId < next
    {
      assert shadow[m].instrumentId in books;
    }
  }

  /** Replaying one trade's two events is hitting the maker in its book. */
  lemma {:induction false} TradeReplays(shadow: seq<Order>, books: map<u32, Book>, i: u32, req: OrderRequest, id: u64, qty: u64)
    requires ShadowOk(shadow, books, id) && i in books && !Stops(books[i].resting, req, qty)
    ensures var s := books[i].resting;
            ShadowOk(Replay(shadow, TradeEvents(s, req, id, qty)), WithResting(books, i, AfterTrade(s, req, qty)), id)
  {
    hide ShadowOk, TopIndex;
    var s := books[i].resting;
    var k := TopIndex(s, Opposite(req.side));
    var fill := TopFill(s, req, qty);
    var taker, maker := TradeEvents(s, req, id, qty)[0], TradeEvents(s, req, id, qty)[1];
    FreshIdIgnored(shadow, books, req, id, fill, s[k].price, qty - fill);
    ReplayOne(shadow, [], taker);
    ReplayOne(shadow, [taker], maker);
    assert [] + [taker] == [taker] && [taker] + [maker] == TradeEvents(s, req, id, qty);
    if s[k].quantity == fill {
      RemoveKeepsShadowOk(shadow, books, id, i, k);
    } else {
      RequantifyKeepsShadowOk(shadow, books, id, i, k, s[k].quantity - fill);
    }
  }

  /** The taker's own fills say nothing about resting orders: its id is new. */
  lemma {:induction false} FreshIdIgnored(shadow: seq<Order>, books: map<u32, Book>, req: OrderRequest, id: u64, fill: u64, price: u64, rest: u64)
    requires ShadowOk(shadow, books, id)
    ensures Apply(shadow, TakerEvent(req, id, fill, price, rest)) == shadow
  {
    AbsentId(shadow, id, rest);
  }

  lemma {:induction false} CrossReplays(shadow: seq<Order>, books: map<u32, Book>, i: u32, req: OrderRequest, id: u64, qty: u64)
    requires ShadowOk(shadow, books, id) && i in books
    ensures var r := Cross(books[i].resting, req, id, qty);
            ShadowOk(Replay(shadow, r.events), WithResting(books, i, r.resting), id)
    decreases |books[i].resting|, qty
  {
    hide ShadowOk, Stops, AfterTrade, TradeEvents;
    var s := books[i].resting;
    if Stops(s, req, qty) {
      assert WithResting(books, i, s) == books;
    } else {
      var rest := qty - TopFill(s, req, qty);
      var books' := WithResting(books, i, AfterTrade(s, req, qty));
      TradeReplays(shadow, books, i, req, id, qty);
      CrossReplays(Replay(shadow, TradeEvents(s, req, id, qty)), books', i, req, id, rest);
      var tail := Cross(AfterTrade(s, req, qty), req, id, rest);
      ReplayConcat(shadow, TradeEvents(s, req, id, qty), tail.events);
      assert WithResting(books', i, tail.resting) == WithResting(books, i, tail.resting);
    }
  }

  // ---------------------------------------------------------------------------
  // One command
  // ---------------------------------------------------------------------------

  lemma {:induction false} AppendKeepsShadowOk(shadow: seq<Order>, books: map<u32, Book>, order: Order)
    requires ShadowOk(shadow, books, order.orderId) && order.instrumentId in books
    ensures var i := order.instrumentId;
            ShadowOk(shadow + [order], WithResting(books, i, books[i].resting + [order]), order.orderId + 1)
  {
    var i := order.instrumentId;
    var shadow', books' := shadow + [order], WithResting(books, i, books[i].resting + [order]);
    forall j | j in books'
      ensures Filter(shadow', OnInstrument(j)) == books'[j].resting
    {
      FilterConcat(shadow, [order], OnInstrument(j));
    }
    forall m | 0 <= m < |shadow'|
      ensures shadow'[m].instrumentId in books' && shadow'[m].orderId < order.orderId + 1
    {
      if m < |shadow| {
        assert shadow[m].instrumentId in books;
      }
    }
  }

  lemma NextIdMayGrow(shadow: seq<Order>, books: map<u32, Book>, next: int)
    requires ShadowOk(shadow, books, next)
    ensures ShadowOk(shadow, books, next + 1)
  {
  }

  lemma {:induction false} MatchReplays(shadow: seq<Order>, e: Engine, req: OrderRequest)
    requires RunInv(shadow, e) && req.instrumentId in e.books
    ensures var m := MatchLimit(e.books[req.instrumentId], req, e.nextOrderId);
            ShadowOk(Replay(shadow, m.events), e.books[req.instrumentId := m.book], e.nextOrderId + 1)
  {
    hide ShadowOk, Cross, Insert, HasSufficientLiquidity;
    var i, id := req.instrumentId, e.nextOrderId;
    var b := e.books[i];
    var m := MatchLimit(b, req, id);
    var r := Cross(b.resting, req, id, req.quantity);
    var crossed := b.(resting := r.resting);
    var books := WithResting(e.books, i, r.resting);
    CrossReplays(shadow, e.books, i, req, id, req.quantity);
    NextIdMayGrow(Replay(shadow, r.events), books, id);
    NextIdMayGrow(shadow, e.books, id);
    var reject :=
      RejectEvent(req, if req.tif == IOC then InsufficientLiquidity
                       else if Insert(crossed, RestingOrder(req, id, r.remaining)).RefusedFull? then SystemAtCapacity
                       else RejectReason.DuplicateIntent, r.remaining);
    ReplayOne(shadow, r.events, reject);
    ReplayOne(shadow, [], RejectEvent(req, InsufficientLiquidity, req.quantity));
    if req.tif == FOK && !HasSufficientLiquidity(b.resting, req, req.quantity) {
      assert e.books[i := b] == e.books;
      assert [] + [RejectEvent(req, InsufficientLiquidity, req.quantity)] == m.events;
    } else if r.remaining > 0 && req.tif == GTC {
      RestReplays(Replay(shadow, r.events), books, req, id, r.remaining, crossed);
      if Insert(crossed, RestingOrder(req, id, r.remaining)).Inserted? {
        assert books[i := m.book] == e.books[i := m.book];
        ReplayOne(shadow, r.events, New(RestingOrder(req, id, r.remaining)));
      }
    }
  }

  lemma {:induction false} RestReplays(shadow: seq<Order>, books: map<u32, Book>, req: OrderRequest, id: u64, remaining: u64, crossed: Book)
    requires ShadowOk(shadow, books, id) && req.instrumentId in books && books[req.instrumentId] == crossed
    ensures var order := RestingOrder(req, id, remaining);
            Insert(crossed, order).Inserted? ==>
              ShadowOk(Apply(shadow, New(order)), books[req.instrumentId := Insert(crossed, order).book], id + 1)
  {
    var order := RestingOrder(req, id, remaining);
    AppendKeepsShadowOk(shadow, books, order);
  }

  lemma {:induction false} CancelReplays(shadow: seq<Order>, e: Engine, req: OrderRequest)
    requires RunInv(shadow, e)
    ensures var (e', events) := ProcessCancel(e, req); RunInv(Replay(shadow, events), e')
  {
    hide ShadowOk, IndexWhere;
    var (e', events) := ProcessCancel(e, req);
    assert events == [] + [events[0]];
    ReplayOne(shadow, [], events[0]);
    if req.instrumentId in e.books {
      var i := req.instrumentId;
      var s := e.books[i].resting;
      var k := IndexWhere(s, WithHash(req.intentHash));
      if k < |s| {
        RemoveKeepsShadowOk(shadow, e.books, e.nextOrderId, i, k);
      }
    }
  }

  lemma {:induction false} NewReplays(shadow: seq<Order>, e: Engine, req: OrderRequest)
    requires RunInv(shadow, e) && e.nextOrderId + 1 < U64_MODULUS
    ensures var (e', events) := ProcessNew(e, req); RunInv(Replay(shadow, events), e')
  {
    hide ShadowOk, MatchLimit, Mod64;
    var (e', events) := ProcessNew(e, req);
    if req.instrumentId in e.books && req.quantity > 0 && req.price > 0 {
      MatchReplays(shadow, e, req);
      NoWrap(e.nextOrderId);
    } else {
      assert events == [] + [events[0]];
      ReplayOne(shadow, [], events[0]);
    }
  }

  lemma NoWrap(id: u64)
    requires id + 1 < U64_MODULUS
    ensures WrapAdd(id, 1) == id + 1
  {
  }

  lemma {:induction false} AddReplays(shadow: seq<Order>, e: Engine, i: u32, capacity: u32)
    requires RunInv(shadow, e) && AddBook(e, i, capacity).0.Done?
    ensures RunInv(Replay(shadow, []), AddBook(e, i, capacity).0.engine)
    ensures AddBook(e, i, capacity).0.events == []
  {
    if i !in e.books {
      FilterNone(shadow, OnInstrument(i));
    }
  }

  /** Every command keeps the run invariant, with the shadow advanced by the command's events alone. */
  lemma {:induction false} StepReplays(shadow: seq<Order>, e: Engine, cmd: Command)
    requires RunInv(shadow, e) && e.nextOrderId + 1 < U64_MODULUS
    ensures Step(e, cmd).Done? ==>
              && RunInv(Replay(shadow, Step(e, cmd).events), Step(e, cmd).engine)
              && Step(e, cmd).engine.nextOrderId <= e.nextOrderId + 1
  {
    hide RunInv, MatchLimit, Mod64;
    NoWrap(e.nextOrderId);
    match cmd
    case AddInstrument(i, capacity) =>
      if AddBook(e, i, capacity).0.Done? {
        AddReplays(shadow, e, i, capacity);
      }
    case Submit(req) =>
      NewReplays(shadow, e, req);
      CancelReplays(shadow, e, req);
  }

  // ---------------------------------------------------------------------------
  // Whole runs
  // ---------------------------------------------------------------------------

  lemma {:induction false} RunReplays(cmds: seq<Command>)
    requires Run(cmds).Done? && |cmds| < U64_MODULUS
    ensures RunInv(Replay([], Run(cmds).events), Run(cmds).engine)
    ensures Run(cmds).engine.nextOrderId <= |cmds|
  {
    if cmds != [] {
      var prefix, last := cmds[..|cmds| - 1], cmds[|cmds| - 1];
      RunReplays(prefix);
      var before := Run(prefix);
      StepReplays(Replay([], before.events), before.engine, last);
      ReplayConcat([], before.events, Step(before.engine, last).events);
    }
  }

  /** The event stream determines the state: folding the events of any run into an empty list gives,
      for each instrument, the resting orders with their quantities in arrival order, and so each
      price level's FIFO; and it holds nothing else. */
  lemma {:induction false} EventStreamDeterminesState(cmds: seq<Command>)
    requires Run(cmds).Done? && |cmds| < U64_MODULUS
    ensures var shadow, e := Replay([], Run(cmds).events), Run(cmds).engine;
            && (forall i :: i in e.books ==> Filter(shadow, OnInstrument(i)) == e.books[i].resting)
            && forall o :: o in shadow ==> o.instrumentId in e.books
  {
    RunReplays(cmds);
    var shadow := Replay([], Run(cmds).events);
    forall o | o in shadow
      ensures o.instrumentId in Run(cmds).engine.books
    {
      var n :| 0 <= n < |shadow| && shadow[n] == o;
      assert shadow[n].instrumentId in Run(cmds).engine.books;
    }
  }

  /** Time priority is id order: ids are below the next one to mint, increase from head to tail in
      every price level, and are shared by no two resting orders of any two books. */
  lemma {:induction false} TimePriorityIsIdOrder(cmds: seq<Command>)
    requires Run(cmds).Done? && |cmds| < U64_MODULUS
    ensures var e := Run(cmds).engine;
            && (forall i, side, price: u64 :: i in e.books ==> IncreasingIds(Queue(e.books[i].resting, side, price)))
            && (forall i, m :: i in e.books && 0 <= m < |e.books[i].resting| ==>
                  e.books[i].resting[m].orderId < e.nextOrderId)
            && forall i, j, m, n | i in e.books && j in e.books
                                   && 0 <= m < |e.books[i].resting| && 0 <= n < |e.books[j].resting| ::
                 e.books[i].resting[m].orderId == e.books[j].resting[n].orderId ==> i == j && m == n
  {
    RunReplays(cmds);
    var shadow, e := Replay([], Run(cmds).events), Run(cmds).engine;
    forall i, side, price: u64 | i in e.books
      ensures IncreasingIds(Queue(e.books[i].resting, side, price))
    {
      BookIncreasing(shadow, e.books, i);
      FilterIncreasing(e.books[i].resting, AtLevel(side, price));
    }
    forall i, m | i in e.books && 0 <= m < |e.books[i].resting|
      ensures e.books[i].resting[m].orderId < e.nextOrderId
    {
      var k := MirrorMembers(shadow, e.books, i, m);
    }
    forall i, j, m, n | i in e.books && j in e.books
                        && 0 <= m < |e.books[i].resting| && 0 <= n < |e.books[j].resting|
                        && e.books[i].resting[m].orderId == e.books[j].resting[n].orderId
      ensures i == j && m == n
    {
      var k := MirrorMembers(shadow, e.books, i, m);
      var l := MirrorMembers(shadow, e.books, j, n);
      BookIncreasing(shadow, e.books, i);
    }
  }
}
