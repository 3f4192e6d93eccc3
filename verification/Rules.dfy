/** The rulebook: what each command reports, written on the book as it stood before, with no
    reference to how the engine gets there; first for one command, then for whole runs. */
module Rules {
  import opened Types
  import opened Sequences
  import opened Books
  import opened Matching
  import opened Engines
  import opened AtRest

  /** An order of the other side, at a price the request's limit allows. */
  predicate Reached(req: OrderRequest, o: Order) {
    o.side != req.side && if req.side == Bid then o.price <= req.price else o.price >= req.price
  }

  function Meets(req: OrderRequest): Order -> bool {
    (o: Order) => Reached(req, o)
  }

  /** Everything the book offers within the limit. */
  function Offered(resting: seq<Order>, req: OrderRequest): nat {
    SumQty(Filter(resting, Meets(req)))
  }

  function Unfilled(resting: seq<Order>, req: OrderRequest): u64 {
    if Offered(resting, req) >= req.quantity then 0 else req.quantity - Offered(resting, req)
  }

  /** Why a request is turned away, and how much of it; `None` when it is not. */
  ghost function Verdict(e: Engine, req: OrderRequest): Option<(RejectReason, u64)> {
    if req.instrumentId !in e.books then
      Some((UnknownInstrument, if req.requestType == CancelOrder then 0 else req.quantity))
    else
      var b := e.books[req.instrumentId];
      if req.requestType == CancelOrder then
        if exists o :: o in b.resting && o.intentHash == req.intentHash then None else Some((UnknownOrder, 0))
      else if req.quantity == 0 then Some((InvalidQuantity, 0))
      else if req.price == 0 then Some((InvalidPrice, req.quantity))
      else if req.tif == FOK then
        if SomeWrapped(Cumulative(b.resting, req), req.quantity) then None
        else Some((InsufficientLiquidity, req.quantity))
      else RemainderVerdict(b, req)
  }

  ghost function RemainderVerdict(b: Book, req: OrderRequest): Option<(RejectReason, u64)> {
    var left := Unfilled(b.resting, req);
    if left == 0 then None
    else if req.tif == IOC then Some((InsufficientLiquidity, left))
    else if exists o :: o in b.resting && o.intentHash == req.intentHash && !Reached(req, o) then
      Some((RejectReason.DuplicateIntent, left))
    else if |b.resting| == b.capacity && forall o :: o in b.resting ==> !Reached(req, o) then
      Some((SystemAtCapacity, left))
    else None
  }

  /** What a command reports besides fills: a reject, the order it cancels, or the order that rests. */
  ghost function Closing(e: Engine, req: OrderRequest): seq<OrderEvent> {
    match Verdict(e, req)
    case Some((reason, left)) => [Reject(0, reason, left, req.originTs, req.intentHash)]
    case None =>
      var b := e.books[req.instrumentId];
      if req.requestType == CancelOrder then
        var o :| o in b.resting && o.intentHash == req.intentHash;
        [Cancel(o.orderId, req.originTs, req.intentHash)]
      else if req.tif == GTC && Unfilled(b.resting, req) > 0 then
        [New(Remainder(req, e.nextOrderId, Unfilled(b.resting, req)))]
      else []
  }

  // ---------------------------------------------------------------------------
  // What is offered, and what the loop leaves
  // ---------------------------------------------------------------------------

  function MeetsAt(req: OrderRequest, prices: set<u64>): Order -> bool {
    (o: Order) => Reached(req, o) && o.price in prices
  }

  lemma {:induction false} OfferedAtOne(resting: seq<Order>, req: OrderRequest, prices: set<u64>, p: u64)
    requires p in prices
    ensures SumQty(Filter(resting, MeetsAt(req, prices))) ==
            SumQty(Filter(resting, MeetsAt(req, {p}))) + SumQty(Filter(resting, MeetsAt(req, prices - {p})))
  {
    if resting != [] {
      var o, rest := resting[0], resting[1..];
      OfferedAtOne(rest, req, prices, p);
      SumCons(o, Filter(rest, MeetsAt(req, prices)));
      SumCons(o, Filter(rest, MeetsAt(req, {p})));
      SumCons(o, Filter(rest, MeetsAt(req, prices - {p})));
    }
  }

  lemma SumCons(o: Order, s: seq<Order>)
    ensures SumQty([o] + s) == o.quantity + SumQty(s)
  {
    assert ([o] + s)[1..] == s;
  }

  lemma {:induction false} OfferedAtLevel(resting: seq<Order>, req: OrderRequest, p: u64)
    ensures Filter(Queue(resting, Opposite(req.side), p), Crosses(req)) == Filter(resting, MeetsAt(req, {p}))
  {
    if resting != [] {
      OfferedAtLevel(resting[1..], req, p);
      var queue := Queue(resting[1..], Opposite(req.side), p);
      assert ([resting[0]] + queue)[1..] == queue;
    }
  }

  lemma {:induction false} OfferedAlongLine(resting: seq<Order>, req: OrderRequest, prices: set<u64>)
    ensures CrossingQty(Flatten(resting, Opposite(req.side), prices), req) == SumQty(Filter(resting, MeetsAt(req, prices)))
    decreases |prices|
  {
    if prices == {} {
      FilterNone(resting, MeetsAt(req, prices));
    } else {
      var side := Opposite(req.side);
      var p := Best(side, prices);
      var head, tail := Queue(resting, side, p), Flatten(resting, side, prices - {p});
      OfferedAlongLine(resting, req, prices - {p});
      OfferedAtOne(resting, req, prices, p);
      OfferedAtLevel(resting, req, p);
      FilterConcat(head, tail, Crosses(req));
      SumConcat(Filter(head, Crosses(req)), Filter(tail, Crosses(req)));
    }
  }

  /** What lies within the limit along the price-time line is what the book offers. */
  lemma {:induction false} OfferedIsReachable(resting: seq<Order>, req: OrderRequest)
    ensures Offered(resting, req) == Reachable(resting, req)
  {
    var prices := Prices(resting, Opposite(req.side));
    OfferedAlongLine(resting, req, prices);
    forall i | 0 <= i < |resting|
      ensures MeetsAt(req, prices)(resting[i]) == Meets(req)(resting[i])
    {
      assert resting[i] in resting;
      assert resting[i].side == Opposite(req.side) ==> resting[i].price in prices;
    }
    FilterCongruent(resting, MeetsAt(req, prices), Meets(req));
  }

  /** A taker that is not filled has taken every order within its limit and nothing else. */
  lemma {:induction false} UnfilledTakesAll(resting: seq<Order>, req: OrderRequest, id: u64, o: Order)
    requires Cross(resting, req, id, req.quantity).remaining > 0
    ensures o in Cross(resting, req, id, req.quantity).resting <==> o in resting && !Reached(req, o)
  {
    hide Cross, PriceTime, Fills, Residue;
    var r, side := Cross(resting, req, id, req.quantity), Opposite(req.side);
    var line := PriceTime(resting, side);
    CrossIsGreedy(resting, req, id, req.quantity);
    if o.side == req.side {
      assert Queue(r.resting, o.side, o.price) == Queue(resting, o.side, o.price);
      FilterMember(r.resting, AtLevel(o.side, o.price), o);
      FilterMember(resting, AtLevel(o.side, o.price), o);
    } else {
      PriceTimeIsStableSort(resting, side);
      PriceTimeIsStableSort(r.resting, side);
      UnfilledLine(line, req, req.quantity, o);
    }
  }

  lemma {:induction false} UnfilledLine(line: seq<Order>, req: OrderRequest, qty: u64, o: Order)
    requires SortedByPrice(Opposite(req.side), line) && Total(Fills(line, req, qty)) < qty
    ensures o in Residue(line, req, qty) <==> o in line && !Within(req, o.price)
  {
    hide Residue, Fills;
    FillsArePrefix(line, req, qty);
    ResidueDropsPrefix(line, req, qty);
    ResidualMeansExhausted(line, req, qty);
    var n := |Fills(line, req, qty)|;
    assert Residue(line, req, qty) == line[n..];
    if o in line && !Within(req, o.price) {
      var j :| 0 <= j < |line| && line[j] == o;
      assert j >= n;
      assert line[n..][j - n] == o;
    }
  }

  /** A taker that is not filled frees a slot exactly when it met anyone. */
  lemma {:induction false} UnfilledFreesSlots(resting: seq<Order>, req: OrderRequest, id: u64)
    requires Cross(resting, req, id, req.quantity).remaining > 0
    ensures |Cross(resting, req, id, req.quantity).resting| <= |resting|
    ensures |Cross(resting, req, id, req.quantity).resting| == |resting| <==>
            forall o :: o in resting ==> !Reached(req, o)
  {
    hide TopIndex, AfterTrade, TradeEvents;
    CrossThins(resting, req, id, req.quantity);
    if Stops(resting, req, req.quantity) {
      CrossExhausts(resting, req, id, req.quantity);
    } else {
      var i := TopIndex(resting, Opposite(req.side));
      TopIndexFound(resting, Opposite(req.side));
      assert resting[i] in resting && Reached(req, resting[i]);
      var rest := req.quantity - TopFill(resting, req, req.quantity);
      CrossThins(AfterTrade(resting, req, req.quantity), req, id, rest);
    }
  }

  // ---------------------------------------------------------------------------
  // One command
  // ---------------------------------------------------------------------------

  /** Registering an instrument: which capacities are refused, which ids, and what is added. */
  lemma {:induction false} AddInstrumentRule(e: Engine, i: u32, capacity: u32)
    ensures var (out, r) := AddBook(e, i, capacity);
            && (r == InvalidCapacity <==> capacity == 0 || capacity == 0xFFFF_FFFE)
            && (r == AlreadyRegistered <==> 0 < capacity != 0xFFFF_FFFE && i in e.books)
            && (r != Added ==> out == Done(e, []))
            && (r == Added && capacity < 0xFFFF_FFFF ==>
                  && out.Done? && out.events == [] && out.engine.nextOrderId == e.nextOrderId
                  && out.engine.books.Keys == e.books.Keys + {i}
                  && out.engine.books[i] == Book(capacity, [])
                  && forall j :: j in e.books ==> out.engine.books[j] == e.books[j])
  {
  }

  function HashIsNot(hash: IntentHash): Order -> bool {
    (o: Order) => o.intentHash != hash
  }

  lemma {:induction false} DropHash(s: seq<Order>, k: nat)
    requires DistinctHashes(s) && k < |s|
    ensures RemoveAt(s, k) == Filter(s, HashIsNot(s[k].intentHash))
  {
    hide Filter;
    var p := HashIsNot(s[k].intentHash);
    var a, b := s[..k], s[k + 1..];
    forall j | 0 <= j < |b|
      ensures p(b[j])
    {
      assert b[j] == s[k + 1 + j];
    }
    FilterAll(a, p);
    FilterAll(b, p);
    FilterSplit(s, k, p);
  }

  /** A cancel takes the order with its hash out of its instrument's book and reports its id; with no
      such order, or no such instrument, it is rejected; nothing else changes. */
  lemma {:induction false} CancelRule(e: Engine, req: OrderRequest)
    requires BooksOk(e.books) && req.requestType == CancelOrder
    ensures Step(e, Submit(req)).Done? && Step(e, Submit(req)).events == Closing(e, req)
    ensures Step(e, Submit(req)).engine ==
            if req.instrumentId !in e.books then e
            else
              var b := e.books[req.instrumentId];
              e.(books := e.books[req.instrumentId := b.(resting := Filter(b.resting, HashIsNot(req.intentHash)))])
  {
    hide Filter, IndexWhere;
    if req.instrumentId in e.books {
      var b := e.books[req.instrumentId];
      var k := IndexWhere(b.resting, WithHash(req.intentHash));
      assert BookOk(req.instrumentId, b);
      if k < |b.resting| {
        DropHash(b.resting, k);
        assert b.resting[k] in b.resting;
        assert forall o :: o in b.resting && o.intentHash == req.intentHash ==> o == b.resting[k];
      } else {
        FilterAll(b.resting, HashIsNot(req.intentHash));
        assert e.books[req.instrumentId := b] == e.books;
      }
    }
  }

  ghost predicate Admitted(e: Engine, req: OrderRequest) {
    req.requestType == NewOrder && req.instrumentId in e.books && req.quantity > 0 && req.price > 0
  }

  /** A new order that fails validation is reported as its verdict says and changes nothing; one that
      passes takes the next id, whatever becomes of it, and touches no book but its own. */
  lemma {:induction false} ValidationRule(e: Engine, req: OrderRequest)
    requires req.requestType == NewOrder
    ensures Step(e, Submit(req)).Done?
    ensures !Admitted(e, req) ==> Step(e, Submit(req)) == Done(e, Closing(e, req))
    ensures Admitted(e, req) ==>
              var e' := Step(e, Submit(req)).engine;
              && e'.nextOrderId == (if e.nextOrderId + 1 < U64_MODULUS then e.nextOrderId + 1 else 0)
              && e'.books.Keys == e.books.Keys
              && forall j :: j in e.books && j != req.instrumentId ==> e'.books[j] == e.books[j]
  {
    hide MatchLimit, SomeWrapped, RemainderVerdict;
  }

  /** The other side of the request's book, best price first, oldest first within a price. */
  ghost function LineFor(e: Engine, req: OrderRequest): seq<Order>
    requires req.instrumentId in e.books
  {
    PriceTime(e.books[req.instrumentId].resting, if req.side == Bid then Ask else Bid)
  }

  /** How much of the request is left when its turn comes to the maker at `j`. */
  ghost function Wanted(line: seq<Order>, req: OrderRequest, j: nat): int
    requires j <= |line|
  {
    req.quantity - SumQty(line[..j])
  }

  /** Maker `j` is hit: it is within the limit, and those before it do not fill the request. */
  ghost predicate IsHit(line: seq<Order>, req: OrderRequest, j: nat) {
    j < |line| && Wanted(line, req, j) > 0
    && if req.side == Bid then line[j].price <= req.price else line[j].price >= req.price
  }

  /** The two events of the trade with maker `j`. */
  ghost predicate IsTrade(line: seq<Order>, req: OrderRequest, id: u64, j: nat, taker: OrderEvent, maker: OrderEvent)
    requires IsHit(line, req, j)
  {
    var m := line[j];
    var f := if m.quantity <= Wanted(line, req, j) then m.quantity else Wanted(line, req, j);
    && IsFill(taker, id, f, m.price, Wanted(line, req, j) - f, req.originTs, req.intentHash)
    && IsFill(maker, m.orderId, f, m.price, m.quantity - f, req.originTs, m.intentHash)
  }

  /** The trades of a request in full: who is hit and what both sides are told, in order. */
  lemma {:induction false} ReportInClosedForm(line: seq<Order>, req: OrderRequest, id: u64)
    requires SortedByPrice(Opposite(req.side), line)
    ensures var n, report := |Fills(line, req, req.quantity)|, Report(line, req, id, req.quantity);
            && |report| == 2 * n
            && (forall j: nat :: j < n <==> IsHit(line, req, j))
            && forall j: nat :: j < n ==> IsTrade(line, req, id, j, report[2 * j], report[2 * j + 1])
  {
    hide Fills, Report, IsFill, SumQty, Total;
    ReportLength(line, req, id, req.quantity);
    forall j: nat
      ensures j < |Fills(line, req, req.quantity)| <==> IsHit(line, req, j)
      ensures var report := Report(line, req, id, req.quantity);
              j < |Fills(line, req, req.quantity)| ==> IsTrade(line, req, id, j, report[2 * j], report[2 * j + 1])
    {
      FillsInClosedForm(line, req, req.quantity, j);
      if j < |Fills(line, req, req.quantity)| {
        TradesArePairs(line, req, id, req.quantity, j);
      }
    }
  }

  /** What an admitted request reports: the trades, `n` of them, in price-time order, each twice; then
      its closing event. A rejected Fill-or-Kill trades with nobody. */
  lemma {:induction false} NewOrderRule(e: Engine, req: OrderRequest) returns (n: nat)
    requires BooksOk(e.books) && Admitted(e, req)
    ensures Step(e, Submit(req)).Done?
    ensures var events, line := Step(e, Submit(req)).events, LineFor(e, req);
            && |events| == 2 * n + |Closing(e, req)| && events[2 * n..] == Closing(e, req)
            && (req.tif == FOK && Verdict(e, req).Some? ==> n == 0)
            && (!(req.tif == FOK && Verdict(e, req).Some?) ==> forall j: nat :: j < n <==> IsHit(line, req, j))
            && forall j: nat :: j < n ==>
                 IsHit(line, req, j) && IsTrade(line, req, e.nextOrderId, j, events[2 * j], events[2 * j + 1])
  {
    hide IsTrade, IsHit, Fills, Report, MatchLimit;
    var b, id := e.books[req.instrumentId], e.nextOrderId;
    var line := LineFor(e, req);
    MatchEvents(b, req, id);
    assert BookOk(req.instrumentId, b);
    PriceTimeIsStableSort(b.resting, Opposite(req.side));
    ReportInClosedForm(line, req, id);
    if req.tif == FOK && Verdict(e, req).Some? {
      n := 0;
    } else {
      n := |Fills(line, req, req.quantity)|;
    }
  }

  /** The events of a match against the book as it stood. */
  lemma {:induction false} MatchEvents(b: Book, req: OrderRequest, id: u64)
    requires |b.resting| <= b.capacity && req.quantity > 0
    ensures var events, report := MatchLimit(b, req, id).events,
                                  Report(PriceTime(b.resting, Opposite(req.side)), req, id, req.quantity);
            if req.tif == FOK then
              if SomeWrapped(Cumulative(b.resting, req), req.quantity) then events == report
              else events == [Reject(0, InsufficientLiquidity, req.quantity, req.originTs, req.intentHash)]
            else
              match RemainderVerdict(b, req)
              case Some((reason, left)) => events == report + [Reject(0, reason, left, req.originTs, req.intentHash)]
              case None =>
                var left := Unfilled(b.resting, req);
                events == report + if req.tif == GTC && left > 0 then [New(Remainder(req, id, left))] else []
  {
    hide MatchLimit, Report, PriceTime, Cross, SomeWrapped, Cumulative, Remainder;
    if req.tif == FOK {
      FillOrKillIsAtomic(b, req, id);
    } else {
      MatchIsGreedyThenPolicy(b, req, id);
      OfferedIsReachable(b.resting, req);
      CrossRemaining(b.resting, req, id, req.quantity);
      var crossed := Cross(b.resting, req, id, req.quantity).resting;
      if Unfilled(b.resting, req) > 0 {
        UnfilledFreesSlots(b.resting, req, id);
        forall o
          ensures o in crossed <==> o in b.resting && !Reached(req, o)
        {
          UnfilledTakesAll(b.resting, req, id, o);
        }
      }
    }
  }

  // ---------------------------------------------------------------------------
  // Whole runs
  // ---------------------------------------------------------------------------

  function NoFill(): OrderEvent -> bool {
    (event: OrderEvent) => !event.Fill? && !event.PartialFill?
  }

  /** The closing events of a run, command by command. */
  ghost function Closings(cmds: seq<Command>): seq<OrderEvent> {
    if cmds == [] then []
    else
      var prefix, last := cmds[..|cmds| - 1], cmds[|cmds| - 1];
      Closings(prefix) + if last.Submit? && Run(prefix).Done? then Closing(Run(prefix).engine, last.req) else []
  }

  lemma {:induction false} StepCloses(e: Engine, req: OrderRequest)
    requires BooksOk(e.books) && Step(e, Submit(req)).Done?
    ensures Filter(Step(e, Submit(req)).events, NoFill()) == Closing(e, req)
  {
    hide BooksOk, Verdict, IsHit, Filter;
    var events := Step(e, Submit(req)).events;
    ClosingIsNoFill(e, req);
    FilterAll(Closing(e, req), NoFill());
    hide Closing, Step;
    if req.requestType == CancelOrder {
      CancelRule(e, req);
    } else if Admitted(e, req) {
      var n := NewOrderRule(e, req);
      forall x | 0 <= x < 2 * n
        ensures !NoFill()(events[..2 * n][x])
      {
        assert IsHit(LineFor(e, req), req, x / 2);
        assert x == 2 * (x / 2) || x == 2 * (x / 2) + 1;
      }
      FilterNone(events[..2 * n], NoFill());
      FilterConcat(events[..2 * n], events[2 * n..], NoFill());
      assert events == events[..2 * n] + events[2 * n..];
    } else {
      AmendPanicsStep(e, req);
      ValidationRule(e, req);
    }
  }

  lemma AmendPanicsStep(e: Engine, req: OrderRequest)
    ensures Step(e, Submit(req)).Done? <==> req.requestType != AmendOrder
  {
  }

  lemma ClosingIsNoFill(e: Engine, req: OrderRequest)
    ensures forall x :: 0 <= x < |Closing(e, req)| ==> NoFill()(Closing(e, req)[x])
  {
    hide Verdict;
  }

  /** Every reject, cancel and new order in the event stream of a run, in order: exactly the closing
      events the rulebook gives for its commands. So a reason is reported if and only if the command
      met that reason's condition. */
  lemma {:induction false} RunReportsByTheRules(cmds: seq<Command>)
    requires Run(cmds).Done?
    ensures Filter(Run(cmds).events, NoFill()) == Closings(cmds)
  {
    hide Filter, Step, Closing, BooksOk;
    if cmds == [] {
      FilterNone(Run(cmds).events, NoFill());
    } else {
      var prefix, last := cmds[..|cmds| - 1], cmds[|cmds| - 1];
      RunReportsByTheRules(prefix);
      RunKeepsBooksOk(prefix);
      var e := Run(prefix).engine;
      FilterConcat(Run(prefix).events, Step(e, last).events, NoFill());
      if last.Submit? {
        StepCloses(e, last.req);
      } else {
        AddingIsSilent(e, last);
        FilterNone(Step(e, last).events, NoFill());
      }
    }
  }

  lemma AddingIsSilent(e: Engine, cmd: Command)
    requires cmd.AddInstrument? && Step(e, cmd).Done?
    ensures Step(e, cmd).events == []
  {
  }

  /** One party's half of a trade between request `req`, under id `id`, and a resting order. */
  ghost predicate IsHalf(event: OrderEvent, req: OrderRequest, id: u64, maker: Order) {
    && (event.Fill? || event.PartialFill?)
    && maker.side != req.side && event.fillPrice == maker.price
    && (if req.side == Bid then event.fillPrice <= req.price else event.fillPrice >= req.price)
    && 0 < event.fillQty <= maker.quantity && event.fillQty <= req.quantity
    && event.originTs == req.originTs
    && ((event.id == id && event.intentHash == req.intentHash)
        || (event.id == maker.orderId && event.intentHash == maker.intentHash))
  }

  /** Every fill in the event stream of a run is one party's half of a trade with an order that rested
      when some command came in: at that order's price, within that command's limit, for a positive
      quantity that both had, under its party's own id and hash. */
  lemma {:induction false} FillsStayWithinLimits(cmds: seq<Command>, x: nat) returns (k: nat, maker: Order)
    requires Run(cmds).Done? && x < |Run(cmds).events|
    requires Run(cmds).events[x].Fill? || Run(cmds).events[x].PartialFill?
    ensures k < |cmds| && cmds[k].Submit? && Run(cmds[..k]).Done?
    ensures cmds[k].req.instrumentId in Run(cmds[..k]).engine.books
    ensures maker in Run(cmds[..k]).engine.books[cmds[k].req.instrumentId].resting
    ensures IsHalf(Run(cmds).events[x], cmds[k].req, Run(cmds[..k]).engine.nextOrderId, maker)
  {
    hide Step, BooksOk;
    var y;
    k, y := EventOrigin(cmds, x);
    RunKeepsBooksOk(cmds[..k]);
    maker := StepFills(Run(cmds[..k]).engine, cmds[k], y);
  }

  lemma {:induction false} StepFills(e: Engine, cmd: Command, y: nat) returns (maker: Order)
    requires BooksOk(e.books) && Step(e, cmd).Done? && y < |Step(e, cmd).events|
    requires Step(e, cmd).events[y].Fill? || Step(e, cmd).events[y].PartialFill?
    ensures cmd.Submit? && cmd.req.instrumentId in e.books && maker in e.books[cmd.req.instrumentId].resting
    ensures IsHalf(Step(e, cmd).events[y], cmd.req, e.nextOrderId, maker)
  {
    hide Step, BooksOk, Admitted, IsHalf;
    OnlyAdmittedFills(e, cmd, y);
    maker := TradeHalf(e, cmd.req, y);
  }

  /** Only requests that pass validation are filled. */
  lemma {:induction false} OnlyAdmittedFills(e: Engine, cmd: Command, y: nat)
    requires BooksOk(e.books) && Step(e, cmd).Done? && y < |Step(e, cmd).events|
    requires Step(e, cmd).events[y].Fill? || Step(e, cmd).events[y].PartialFill?
    ensures cmd.Submit? && Admitted(e, cmd.req) && cmd.req.instrumentId in e.books
  {
    hide Closing, BooksOk, MatchLimit;
    if cmd.Submit? && !Admitted(e, cmd.req) {
      ClosingIsNoFill(e, cmd.req);
      AmendPanicsStep(e, cmd.req);
      if cmd.req.requestType == CancelOrder {
        CancelRule(e, cmd.req);
      } else {
        ValidationRule(e, cmd.req);
      }
    }
  }

  lemma {:induction false} TradeHalf(e: Engine, req: OrderRequest, y: nat) returns (maker: Order)
    requires BooksOk(e.books) && Admitted(e, req) && Step(e, Submit(req)).Done? && y < |Step(e, Submit(req)).events|
    requires var event := Step(e, Submit(req)).events[y]; event.Fill? || event.PartialFill?
    ensures req.instrumentId in e.books && maker in e.books[req.instrumentId].resting
    ensures IsHalf(Step(e, Submit(req)).events[y], req, e.nextOrderId, maker)
  {
    hide Step, Closing, Verdict, IsHit, IsTrade, BookOk;
    ClosingIsNoFill(e, req);
    var n := NewOrderRule(e, req);
    var j, line := y / 2, LineFor(e, req);
    var events := Step(e, Submit(req)).events;
    assert j < n;
    HitIsInLine(line, req, j);
    maker := line[j];
    MakerRests(e, req, j);
    HalfOfTrade(line, req, e.nextOrderId, j, events[2 * j], events[2 * j + 1]);
  }

  lemma {:induction false} MakerRests(e: Engine, req: OrderRequest, j: nat)
    requires BooksOk(e.books) && req.instrumentId in e.books && j < |LineFor(e, req)|
    ensures var maker, s := LineFor(e, req)[j], e.books[req.instrumentId].resting;
            maker in s && maker.side != req.side && maker.quantity > 0
  {
    var s, maker := e.books[req.instrumentId].resting, LineFor(e, req)[j];
    PriceTimeIsStableSort(s, if req.side == Bid then Ask else Bid);
    assert maker in LineFor(e, req);
    assert BookOk(req.instrumentId, e.books[req.instrumentId]);
    var m :| 0 <= m < |s| && s[m] == maker;
  }

  lemma HitIsInLine(line: seq<Order>, req: OrderRequest, j: nat)
    requires IsHit(line, req, j)
    ensures j < |line|
  {
  }

  lemma HalfOfTrade(line: seq<Order>, req: OrderRequest, id: u64, j: nat, taker: OrderEvent, maker: OrderEvent)
    requires IsHit(line, req, j) && IsTrade(line, req, id, j, taker, maker)
    requires line[j].side != req.side && line[j].quantity > 0
    ensures IsHalf(taker, req, id, line[j]) && IsHalf(maker, req, id, line[j])
  {
  }

  /** After any run, a cancel whose hash rests in its book reports that order's id and leaves no order
      with the hash there; otherwise it is rejected and changes nothing. */
  lemma {:induction false} CancelTakesEffect(cmds: seq<Command>, req: OrderRequest)
    requires Run(cmds).Done? && req.requestType == CancelOrder && req.instrumentId in Run(cmds).engine.books
    ensures var before, after := Run(cmds), Run(cmds + [Submit(req)]);
            var s := before.engine.books[req.instrumentId].resting;
            && after.Done? && req.instrumentId in after.engine.books
            && (forall o :: o in after.engine.books[req.instrumentId].resting <==> o in s && o.intentHash != req.intentHash)
            && (forall o :: o in s && o.intentHash == req.intentHash ==>
                  after.events == before.events + [Cancel(o.orderId, req.originTs, req.intentHash)])
            && ((forall o :: o in s ==> o.intentHash != req.intentHash) ==>
                  after == Done(before.engine, before.events + [Reject(0, UnknownOrder, 0, req.originTs, req.intentHash)]))
  {
    hide Step, Filter;
    var e := Run(cmds).engine;
    var s := e.books[req.instrumentId].resting;
    RunAppend(cmds, Submit(req));
    RunKeepsBooksOk(cmds);
    assert BookOk(req.instrumentId, e.books[req.instrumentId]);
    CancelRule(e, req);
    forall o
      ensures o in Filter(s, HashIsNot(req.intentHash)) <==> o in s && o.intentHash != req.intentHash
    {
      FilterMember(s, HashIsNot(req.intentHash), o);
    }
    if forall o :: o in s ==> o.intentHash != req.intentHash {
      FilterAll(s, HashIsNot(req.intentHash));
      assert e.books[req.instrumentId := e.books[req.instrumentId]] == e.books;
    }
    assert forall o, p :: o in s && p in s && o.intentHash == p.intentHash ==> o == p;
  }
}
