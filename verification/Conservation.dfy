/** Quantity is conserved over whole runs, order by order. */
module Conservation {
  import opened Types
  import opened Sequences
  import opened Books
  import opened Matching
  import opened Engines
  import opened Shadows

  // ---------------------------------------------------------------------------
  // What the events and the commands say about one id
  // ---------------------------------------------------------------------------

  function FillFor(event: OrderEvent, id: u64): nat {
    if (event.Fill? || event.PartialFill?) && event.id == id then event.fillQty else 0
  }

  /** Units traded by `id`, as taker or as maker. */
  function Traded(events: seq<OrderEvent>, id: u64): nat {
    if events == [] then 0 else FillFor(events[0], id) + Traded(events[1..], id)
  }

  /** Units turned away by the reject events of one command. */
  function RejectedQty(events: seq<OrderEvent>): nat {
    if events == [] then 0
    else (if events[0].Reject? then events[0].remainingQty else 0) + RejectedQty(events[1..])
  }

  /** True when the command passes validation and burns an order id. */
  predicate Mints(e: Engine, cmd: Command) {
    cmd.Submit? && cmd.req.requestType == NewOrder && cmd.req.instrumentId in e.books
    && cmd.req.quantity > 0 && cmd.req.price > 0
  }

  /** The order a command cancels, if any. */
  function Cancels(e: Engine, cmd: Command): Option<Order> {
    if cmd.Submit? && cmd.req.requestType == CancelOrder && cmd.req.instrumentId in e.books
    then CancelHash(e.books[cmd.req.instrumentId], cmd.req.intentHash).1
    else None
  }

  datatype Account = Account(requested: nat, traded: nat, cancelled: nat, rejected: nat)

  function StepAccount(e: Engine, cmd: Command, id: u64): Account {
    var events := if Step(e, cmd).Done? then Step(e, cmd).events else [];
    var minted := Mints(e, cmd) && e.nextOrderId == id;
    Account(if minted then cmd.req.quantity else 0,
            Traded(events, id),
            if Cancels(e, cmd).Some? && Cancels(e, cmd).value.orderId == id then Cancels(e, cmd).value.quantity else 0,
            if minted then RejectedQty(events) else 0)
  }

  /** The account of order `id` after a run. */
  function RunAccount(cmds: seq<Command>, id: u64): Account {
    if cmds == [] then Account(0, 0, 0, 0)
    else
      var before := RunAccount(cmds[..|cmds| - 1], id);
      match Run(cmds[..|cmds| - 1])
      case Panics => before
      case Done(e, _) =>
        var step := StepAccount(e, cmds[|cmds| - 1], id);
        Account(before.requested + step.requested, before.traded + step.traded,
                before.cancelled + step.cancelled, before.rejected + step.rejected)
  }

  /** `q` is what order `id` has resting in the books: its quantity where it rests, 0 if nowhere. */
  ghost predicate RestsWith(e: Engine, id: u64, q: nat) {
    && (forall i, m :: i in e.books && 0 <= m < |e.books[i].resting| && e.books[i].resting[m].orderId == id ==>
          q == e.books[i].resting[m].quantity)
    && ((forall i, m :: i in e.books && 0 <= m < |e.books[i].resting| ==> e.books[i].resting[m].orderId != id) ==>
          q == 0)
  }

  // ---------------------------------------------------------------------------
  // The resting quantity of an id in a list
  // ---------------------------------------------------------------------------

  function IdIs(id: u64): Order -> bool {
    (o: Order) => o.orderId == id
  }

  function RestingQty(s: seq<Order>, id: u64): nat {
    SumQty(Filter(s, IdIs(id)))
  }

  lemma {:induction false} AbsentQty(s: seq<Order>, id: u64)
    requires forall k :: 0 <= k < |s| ==> s[k].orderId != id
    ensures RestingQty(s, id) == 0
  {
    FilterNone(s, IdIs(id));
  }

  lemma {:induction false} UniqueQty(s: seq<Order>, k: nat)
    requires IncreasingIds(s) && k < |s|
    ensures RestingQty(s, s[k].orderId) == s[k].quantity
  {
    var p := IdIs(s[k].orderId);
    var a, b := s[..k], s[k + 1..];
    forall j | 0 <= j < |b|
      ensures !p(b[j])
    {
      assert b[j] == s[k + 1 + j];
    }
    FilterNone(a, p);
    FilterNone(b, p);
    FilterSplit(s, k, p);
    assert Filter(s, p) == [s[k]];
    SumOne(s[k]);
  }

  lemma {:induction false} DropQty(s: seq<Order>, m: u64, id: u64)
    ensures RestingQty(Filter(s, IdIsNot(m)), id) == if id == m then 0 else RestingQty(s, id)
  {
    FilterMembers(s, IdIsNot(m));
    if id == m {
      AbsentQty(Filter(s, IdIsNot(m)), id);
    } else {
      FilterCommutes(s, IdIsNot(m), IdIs(id));
      FilterMembers(s, IdIs(id));
      FilterAll(Filter(s, IdIs(id)), IdIsNot(m));
    }
  }

  lemma {:induction false} RequantifyQty(s: seq<Order>, k: nat, qty: u64, id: u64)
    requires IncreasingIds(s) && k < |s|
    ensures RestingQty(SetQty(s, s[k].orderId, qty), id) == if id == s[k].orderId then qty else RestingQty(s, id)
  {
    var t := s[k := s[k].(quantity := qty)];
    SetId(s, k, qty);
    if id == s[k].orderId {
      UniqueQty(t, k);
    } else {
      FilterUpdate(s, k, s[k].(quantity := qty), IdIs(id));
    }
  }

  lemma {:induction false} AppendQty(s: seq<Order>, o: Order, id: u64)
    ensures RestingQty(s + [o], id) == RestingQty(s, id) + if o.orderId == id then o.quantity else 0
  {
    FilterConcat(s, [o], IdIs(id));
    SumConcat(Filter(s, IdIs(id)), Filter([o], IdIs(id)));
  }

  lemma {:induction false} TradedConcat(a: seq<OrderEvent>, b: seq<OrderEvent>, id: u64)
    ensures Traded(a + b, id) == Traded(a, id) + Traded(b, id)
    ensures RejectedQty(a + b) == RejectedQty(a) + RejectedQty(b)
  {
    if a == [] {
      assert a + b == b;
    } else {
      assert (a + b)[1..] == a[1..] + b;
      TradedConcat(a[1..], b, id);
    }
  }

  lemma OneEvent(event: OrderEvent, id: u64)
    ensures Traded([event], id) == FillFor(event, id)
    ensures RejectedQty([event]) == if event.Reject? then event.remainingQty else 0
  {
  }

  // ---------------------------------------------------------------------------
  // One trade and one cross loop
  // ---------------------------------------------------------------------------

  /** Before = after + traded, for every resting id; the taker's events count what it took. */
  lemma {:induction false} TradeConserves(shadow: seq<Order>, books: map<u32, Book>, i: u32, req: OrderRequest, taker: u64, qty: u64, id: u64)
    requires ShadowOk(shadow, books, taker) && i in books && !Stops(books[i].resting, req, qty)
    ensures var events := TradeEvents(books[i].resting, req, taker, qty);
            && RestingQty(shadow, id) + (if id == taker then TopFill(books[i].resting, req, qty) else 0) ==
               RestingQty(Replay(shadow, events), id) + Traded(events, id)
            && RejectedQty(events) == 0
  {
    hide TopIndex, RestingQty;
    var s := books[i].resting;
    var k := TopIndex(s, Opposite(req.side));
    var fill := TopFill(s, req, qty);
    var events := TradeEvents(s, req, taker, qty);
    var n := MirrorMembers(shadow, books, i, k);
    assert s[k].orderId < taker;
    FreshIdIgnored(shadow, books, req, taker, fill, s[k].price, qty - fill);
    ReplayOne(shadow, [], events[0]);
    ReplayOne(shadow, [events[0]], events[1]);
    assert [] + [events[0]] == [events[0]] && [events[0]] + [events[1]] == events;
    TradedConcat([events[0]], [events[1]], id);
    OneEvent(events[0], id);
    OneEvent(events[1], id);
    UniqueQty(shadow, n);
    if s[k].quantity == fill {
      DropQty(shadow, s[k].orderId, id);
    } else {
      RequantifyQty(shadow, n, s[k].quantity - fill, id);
    }
  }

  lemma {:induction false} CrossConserves(shadow: seq<Order>, books: map<u32, Book>, i: u32, req: OrderRequest, taker: u64, qty: u64, id: u64)
    requires ShadowOk(shadow, books, taker) && i in books
    ensures var r := Cross(books[i].resting, req, taker, qty);
            && r.remaining <= qty
            && RestingQty(shadow, id) + (if id == taker then qty - r.remaining else 0) ==
               RestingQty(Replay(shadow, r.events), id) + Traded(r.events, id)
            && RejectedQty(r.events) == 0
    decreases |books[i].resting|, qty
  {
    hide ShadowOk, Stops, AfterTrade, TradeEvents, RestingQty, TopFill;
    var s := books[i].resting;
    if !Stops(s, req, qty) {
      var rest := qty - TopFill(s, req, qty);
      var books' := WithResting(books, i, AfterTrade(s, req, qty));
      var events := TradeEvents(s, req, taker, qty);
      TradeConserves(shadow, books, i, req, taker, qty, id);
      TradeReplays(shadow, books, i, req, taker, qty);
      CrossConserves(Replay(shadow, events), books', i, req, taker, rest, id);
      var tail := Cross(AfterTrade(s, req, qty), req, taker, rest);
      ReplayConcat(shadow, events, tail.events);
      TradedConcat(events, tail.events, id);
    }
  }

  // ---------------------------------------------------------------------------
  // One command
  // ---------------------------------------------------------------------------

  /** Requested + resting before = traded + rejected + resting after, for the taker and for everyone else. */
  lemma {:induction false} MatchConserves(shadow: seq<Order>, e: Engine, req: OrderRequest, id: u64)
    requires RunInv(shadow, e) && req.instrumentId in e.books
    ensures var m, taker := MatchLimit(e.books[req.instrumentId], req, e.nextOrderId), e.nextOrderId;
            RestingQty(shadow, id) + (if id == taker then req.quantity else 0) ==
            RestingQty(Replay(shadow, m.events), id) + Traded(m.events, id)
            + (if id == taker then RejectedQty(m.events) else 0)
  {
    hide ShadowOk, Cross, Insert, HasSufficientLiquidity, RestingQty, Replay, Traded, RejectedQty;
    var taker := e.nextOrderId;
    var b := e.books[req.instrumentId];
    var m := MatchLimit(b, req, taker);
    var r := Cross(b.resting, req, taker, req.quantity);
    CrossConserves(shadow, e.books, req.instrumentId, req, taker, req.quantity, id);
    if req.tif == FOK && !HasSufficientLiquidity(b.resting, req, req.quantity) {
      assert m.events == [] + [m.events[0]];
      LastEvent(shadow, [], m.events[0], id);
      ReplayNothing(shadow, id);
    } else if req.tif == FOK {
      GateIsSound(b.resting, req, taker, req.quantity);
    } else if r.remaining > 0 {
      var last := m.events[|m.events| - 1];
      assert m.events == r.events + [last];
      LastEvent(shadow, r.events, last, id);
    }
  }

  lemma ReplayNothing(shadow: seq<Order>, id: u64)
    ensures Replay(shadow, []) == shadow && Traded([], id) == 0 && RejectedQty([]) == 0
  {
  }

  /** What a final New or Reject adds to the accounts. */
  lemma {:induction false} LastEvent(shadow: seq<Order>, events: seq<OrderEvent>, last: OrderEvent, id: u64)
    requires last.New? || last.Reject?
    ensures Traded(events + [last], id) == Traded(events, id)
    ensures RejectedQty(events + [last]) == RejectedQty(events) + if last.Reject? then last.remainingQty else 0
    ensures RestingQty(Replay(shadow, events + [last]), id) ==
            RestingQty(Replay(shadow, events), id)
            + if last.New? && last.order.orderId == id then last.order.quantity else 0
  {
    hide RestingQty;
    ReplayOne(shadow, events, last);
    TradedConcat(events, [last], id);
    OneEvent(last, id);
    if last.New? {
      AppendQty(Replay(shadow, events), last.order, id);
    }
  }

  lemma {:induction false} CancelConserves(shadow: seq<Order>, e: Engine, req: OrderRequest, id: u64)
    requires RunInv(shadow, e) && req.requestType == CancelOrder
    ensures var (e', events) := ProcessCancel(e, req);
            RestingQty(shadow, id) == RestingQty(Replay(shadow, events), id) + StepAccount(e, Submit(req), id).cancelled
    ensures Traded(ProcessCancel(e, req).1, id) == 0
  {
    hide RestingQty, IndexWhere;
    var (e', events) := ProcessCancel(e, req);
    assert events == [] + [events[0]];
    ReplayOne(shadow, [], events[0]);
    OneEvent(events[0], id);
    if req.instrumentId in e.books {
      var s := e.books[req.instrumentId].resting;
      var k := IndexWhere(s, WithHash(req.intentHash));
      if k < |s| {
        var n := MirrorMembers(shadow, e.books, req.instrumentId, k);
        UniqueQty(shadow, n);
        DropQty(shadow, s[k].orderId, id);
      }
    }
  }

  lemma {:induction false} NewConserves(shadow: seq<Order>, e: Engine, req: OrderRequest, id: u64)
    requires RunInv(shadow, e) && req.requestType == NewOrder
    ensures var step, events := StepAccount(e, Submit(req), id), ProcessNew(e, req).1;
            RestingQty(shadow, id) + step.requested == RestingQty(Replay(shadow, events), id) + step.traded + step.rejected
  {
    hide RestingQty, MatchLimit, RunInv;
    var events := ProcessNew(e, req).1;
    if Mints(e, Submit(req)) {
      MatchConserves(shadow, e, req, id);
    } else {
      assert events == [] + [events[0]];
      ReplayOne(shadow, [], events[0]);
      OneEvent(events[0], id);
    }
  }

  lemma {:induction false} StepConserves(shadow: seq<Order>, e: Engine, cmd: Command, id: u64)
    requires RunInv(shadow, e) && Step(e, cmd).Done?
    ensures var step := StepAccount(e, cmd, id);
            RestingQty(shadow, id) + step.requested ==
            RestingQty(Replay(shadow, Step(e, cmd).events), id) + step.traded + step.cancelled + step.rejected
  {
    hide RunInv, RestingQty, MatchLimit, CancelHash;
    match cmd
    case AddInstrument(i, capacity) =>
    case Submit(req) =>
      if req.requestType == NewOrder {
        NewConserves(shadow, e, req, id);
      } else {
        CancelConserves(shadow, e, req, id);
      }
  }

  // ---------------------------------------------------------------------------
  // Whole runs
  // ---------------------------------------------------------------------------

  lemma {:induction false} RunConserves(cmds: seq<Command>, id: u64)
    requires Run(cmds).Done? && |cmds| < U64_MODULUS
    ensures var a := RunAccount(cmds, id);
            && a.requested == a.traded + a.cancelled + a.rejected + RestingQty(Replay([], Run(cmds).events), id)
            && a.traded == Traded(Run(cmds).events, id)
  {
    hide RestingQty, RunInv, StepAccount, Step, Replay, Traded;
    if cmds == [] {
      assert Run(cmds).events == [];
      NothingYet(id);
    } else {
      var prefix, last := cmds[..|cmds| - 1], cmds[|cmds| - 1];
      RunConserves(prefix, id);
      RunReplays(prefix);
      var before := Run(prefix);
      StepConserves(Replay([], before.events), before.engine, last, id);
      StepTraded(before.engine, last, id);
      ReplayConcat([], before.events, Step(before.engine, last).events);
      TradedConcat(before.events, Step(before.engine, last).events, id);
    }
  }

  lemma NothingYet(id: u64)
    ensures RestingQty(Replay([], []), id) == 0 && Traded([], id) == 0
  {
  }

  lemma StepTraded(e: Engine, cmd: Command, id: u64)
    requires Step(e, cmd).Done?
    ensures StepAccount(e, cmd, id).traded == Traded(Step(e, cmd).events, id)
  {
  }

  /** For every order id after any run there is one quantity that the books still hold of it, and what
      was requested is what the event stream says it traded, plus what was cancelled and rejected,
      plus that. */
  lemma {:induction false} QuantityIsConserved(cmds: seq<Command>, id: u64) returns (resting: nat)
    requires Run(cmds).Done? && |cmds| < U64_MODULUS
    ensures forall q :: RestsWith(Run(cmds).engine, id, q) <==> q == resting
    ensures var a := RunAccount(cmds, id);
            && a.requested == a.traded + a.cancelled + a.rejected + resting
            && a.traded == Traded(Run(cmds).events, id)
  {
    RunConserves(cmds, id);
    RunReplays(cmds);
    var shadow := Replay([], Run(cmds).events);
    resting := RestingQty(shadow, id);
    forall q | RestsWith(Run(cmds).engine, id, q)
      ensures q == resting
    {
      RestingInBooks(shadow, Run(cmds).engine, id, q);
    }
    ShadowRests(shadow, Run(cmds).engine, id);
  }

  /** What the shadow holds of an id is what the books hold of it. */
  lemma {:induction false} ShadowRests(shadow: seq<Order>, e: Engine, id: u64)
    requires RunInv(shadow, e)
    ensures RestsWith(e, id, RestingQty(shadow, id))
  {
    forall i, m | i in e.books && 0 <= m < |e.books[i].resting| && e.books[i].resting[m].orderId == id
      ensures RestingQty(shadow, id) == e.books[i].resting[m].quantity
    {
      var n := MirrorMembers(shadow, e.books, i, m);
      UniqueQty(shadow, n);
    }
    if n :| 0 <= n < |shadow| && shadow[n].orderId == id {
      var i := shadow[n].instrumentId;
      FilterMember(shadow, OnInstrument(i), shadow[n]);
      var m :| 0 <= m < |e.books[i].resting| && e.books[i].resting[m] == shadow[n];
    } else {
      AbsentQty(shadow, id);
    }
  }

  lemma {:induction false} RestingInBooks(shadow: seq<Order>, e: Engine, id: u64, resting: nat)
    requires RunInv(shadow, e) && RestsWith(e, id, resting)
    ensures RestingQty(shadow, id) == resting
  {
    if n :| 0 <= n < |shadow| && shadow[n].orderId == id {
      UniqueQty(shadow, n);
      assert shadow[n].instrumentId in e.books;
      var i := shadow[n].instrumentId;
      FilterMember(shadow, OnInstrument(i), shadow[n]);
      var m :| 0 <= m < |e.books[i].resting| && e.books[i].resting[m] == shadow[n];
    } else {
      AbsentQty(shadow, id);
      forall i, m | i in e.books && 0 <= m < |e.books[i].resting|
        ensures e.books[i].resting[m].orderId != id
      {
        var n := MirrorMembers(shadow, e.books, i, m);
      }
    }
  }
}
