/** Price-time matching of one limit order against a book, and greedy matching on the opposite
    side laid out in price-time order as its reference. */
module Matching {
  import opened Types
  import opened Sequences
  import opened Books

  function Opposite(side: Side): Side {
    match side
    case Ask => Bid
    case Bid => Ask
  }

  predicate Crossing(takerSide: Side, takerPrice: u64, makerPrice: u64) {
    match takerSide
    case Bid => takerPrice >= makerPrice
    case Ask => takerPrice <= makerPrice
  }

  function Min(a: nat, b: nat): nat {
    if a <= b then a else b
  }

  // ---------------------------------------------------------------------------
  // Events
  // ---------------------------------------------------------------------------

  function TakerEvent(req: OrderRequest, id: u64, fillQty: u64, fillPrice: u64, remaining: u64): OrderEvent {
    if remaining == 0 then Fill(id, fillQty, fillPrice, req.originTs, req.intentHash)
    else PartialFill(id, fillQty, fillPrice, remaining, req.originTs, req.intentHash)
  }

  function MakerEvent(req: OrderRequest, maker: Order, fillQty: u64, remaining: u64): OrderEvent {
    if remaining == 0 then Fill(maker.orderId, fillQty, maker.price, req.originTs, maker.intentHash)
    else PartialFill(maker.orderId, fillQty, maker.price, remaining, req.originTs, maker.intentHash)
  }

  function RejectEvent(req: OrderRequest, reason: RejectReason, remaining: u64): OrderEvent {
    Reject(0, reason, remaining, req.originTs, req.intentHash)
  }

  function CancelEvent(req: OrderRequest, id: u64): OrderEvent {
    Cancel(id, req.originTs, req.intentHash)
  }

  // ---------------------------------------------------------------------------
  // The cross loop
  // ---------------------------------------------------------------------------

  datatype CrossResult = CrossResult(resting: seq<Order>, events: seq<OrderEvent>, remaining: u64)

  /** The resting list after the maker at `i` gives up `fill` units. */
  function Hit(resting: seq<Order>, i: nat, fill: u64): seq<Order>
    requires i < |resting| && fill <= resting[i].quantity
  {
    if resting[i].quantity == fill then RemoveAt(resting, i)
    else resting[i := resting[i].(quantity := resting[i].quantity - fill)]
  }

  /** True when the loop stops: the taker is filled, the side is empty, or the top does not cross. */
  predicate Stops(resting: seq<Order>, req: OrderRequest, remaining: u64) {
    var i := TopIndex(resting, Opposite(req.side));
    remaining == 0 || i == |resting| || !Crossing(req.side, req.price, resting[i].price)
  }

  /** What the maker on top gives a taker with `remaining` to fill. */
  function TopFill(resting: seq<Order>, req: OrderRequest, remaining: u64): (fill: u64)
    requires !Stops(resting, req, remaining)
    ensures fill <= remaining
  {
    Min(remaining, resting[TopIndex(resting, Opposite(req.side))].quantity)
  }

  function AfterTrade(resting: seq<Order>, req: OrderRequest, remaining: u64): (r: seq<Order>)
    requires !Stops(resting, req, remaining)
    ensures |r| < |resting| || (|r| == |resting| && TopFill(resting, req, remaining) == remaining > 0)
  {
    Hit(resting, TopIndex(resting, Opposite(req.side)), TopFill(resting, req, remaining))
  }

  function TradeEvents(resting: seq<Order>, req: OrderRequest, id: u64, remaining: u64): (r: seq<OrderEvent>)
    requires !Stops(resting, req, remaining)
  {
    var maker := resting[TopIndex(resting, Opposite(req.side))];
    var fill := TopFill(resting, req, remaining);
    [TakerEvent(req, id, fill, maker.price, remaining - fill), MakerEvent(req, maker, fill, maker.quantity - fill)]
  }

  function Cross(resting: seq<Order>, req: OrderRequest, id: u64, remaining: u64): CrossResult
    decreases |resting|, remaining
  {
    if Stops(resting, req, remaining) then CrossResult(resting, [], remaining)
    else
      var rest := Cross(AfterTrade(resting, req, remaining), req, id, remaining - TopFill(resting, req, remaining));
      rest.(events := TradeEvents(resting, req, id, remaining) + rest.events)
  }

  // ---------------------------------------------------------------------------
  // The reference: greedy matching on a line of makers
  // ---------------------------------------------------------------------------

  /** A price the request accepts: a buyer's limit is the most it pays, a seller's the least. */
  predicate Within(req: OrderRequest, price: u64) {
    if req.side == Bid then price <= req.price else price >= req.price
  }

  predicate Refuses(line: seq<Order>, req: OrderRequest, qty: u64) {
    qty == 0 || line == [] || !Within(req, line[0].price)
  }

  /** How much each maker in line gives, front first. */
  function Fills(line: seq<Order>, req: OrderRequest, qty: u64): seq<u64> {
    if Refuses(line, req, qty) then []
    else
      var f := Min(qty, line[0].quantity);
      [f] + Fills(line[1..], req, qty - f)
  }

  /** The line once the taker has gone through it. */
  function Residue(line: seq<Order>, req: OrderRequest, qty: u64): seq<Order> {
    if Refuses(line, req, qty) then line
    else if line[0].quantity <= qty then Residue(line[1..], req, qty - line[0].quantity)
    else line[0 := line[0].(quantity := line[0].quantity - qty)]
  }

  /** Taker then maker event for each maker hit. */
  function Report(line: seq<Order>, req: OrderRequest, id: u64, qty: u64): seq<OrderEvent> {
    if Refuses(line, req, qty) then []
    else
      var f := Min(qty, line[0].quantity);
      [TakerEvent(req, id, f, line[0].price, qty - f), MakerEvent(req, line[0], f, line[0].quantity - f)]
      + Report(line[1..], req, id, qty - f)
  }

  function Total(amounts: seq<u64>): nat {
    if amounts == [] then 0 else amounts[0] + Total(amounts[1..])
  }

  lemma {:induction false} HitLine(resting: seq<Order>, side: Side, fill: u64)
    requires TopIndex(resting, side) < |resting|
    requires fill <= resting[TopIndex(resting, side)].quantity
    ensures PriceTime(resting, side) != []
    ensures var i, line := TopIndex(resting, side), PriceTime(resting, side);
            && line[0] == resting[i]
            && PriceTime(Hit(resting, i, fill), side) ==
               if line[0].quantity == fill then line[1..]
               else line[0 := line[0].(quantity := line[0].quantity - fill)]
    ensures forall s: Side, p: u64 :: s != side ==>
              Queue(Hit(resting, TopIndex(resting, side), fill), s, p) == Queue(resting, s, p)
  {
    var i := TopIndex(resting, side);
    TopIsFirst(resting, side);
    if resting[i].quantity == fill {
      RemoveTopDropsFirst(resting, side);
    } else {
      UpdateTopUpdatesFirst(resting, side, resting[i].(quantity := resting[i].quantity - fill));
    }
    forall s: Side, p: u64 | s != side
      ensures Queue(Hit(resting, i, fill), s, p) == Queue(resting, s, p)
    {
      OtherSideUntouched(resting, i, s, p);
    }
  }

  /** One maker's worth of greedy matching, stated on the line the hit leaves behind. */
  lemma {:induction false} GreedyStep(line: seq<Order>, req: OrderRequest, id: u64, qty: u64)
    requires !Refuses(line, req, qty)
    ensures var f := Min(qty, line[0].quantity);
            var line' := if line[0].quantity == f then line[1..]
                         else line[0 := line[0].(quantity := line[0].quantity - f)];
            && Report(line, req, id, qty) ==
               [TakerEvent(req, id, f, line[0].price, qty - f), MakerEvent(req, line[0], f, line[0].quantity - f)]
               + Report(line', req, id, qty - f)
            && Total(Fills(line, req, qty)) == f + Total(Fills(line', req, qty - f))
            && Residue(line, req, qty) == Residue(line', req, qty - f)
  {
  }

  /** The cross loop is greedy matching on the opposite side in price-time order, and it leaves the
      taker's own side as it was. */
  lemma {:induction false} CrossIsGreedy(resting: seq<Order>, req: OrderRequest, id: u64, qty: u64)
    ensures var r, line := Cross(resting, req, id, qty), PriceTime(resting, Opposite(req.side));
            && r.events == Report(line, req, id, qty)
            && r.remaining == qty - Total(Fills(line, req, qty))
            && PriceTime(r.resting, Opposite(req.side)) == Residue(line, req, qty)
            && forall p: u64 :: Queue(r.resting, req.side, p) == Queue(resting, req.side, p)
    decreases |resting|, qty
  {
    hide PriceTime, Queue, TopIndex, Report, Residue, Fills, Hit;
    var side := Opposite(req.side);
    var line := PriceTime(resting, side);
    TopIsFirst(resting, side);
    if Stops(resting, req, qty) {
      RefusedLine(line, req, id, qty);
    } else {
      var i := TopIndex(resting, side);
      var f := Min(qty, resting[i].quantity);
      HitLine(resting, side, f);
      CrossIsGreedy(AfterTrade(resting, req, qty), req, id, qty - f);
      GreedyStep(line, req, id, qty);
    }
  }

  lemma RefusedLine(line: seq<Order>, req: OrderRequest, id: u64, qty: u64)
    requires Refuses(line, req, qty)
    ensures Fills(line, req, qty) == [] && Residue(line, req, qty) == line && Report(line, req, id, qty) == []
  {
  }

  lemma NothingLeft(line: seq<Order>, req: OrderRequest, id: u64)
    ensures Fills(line, req, 0) == [] && Residue(line, req, 0) == line && Report(line, req, id, 0) == []
  {
  }

  // ---------------------------------------------------------------------------
  // What greedy matching does
  // ---------------------------------------------------------------------------

  function Crosses(req: OrderRequest): Order -> bool {
    (o: Order) => Within(req, o.price)
  }

  /** Everything in line that the taker's limit reaches. */
  function CrossingQty(line: seq<Order>, req: OrderRequest): nat {
    SumQty(Filter(line, Crosses(req)))
  }

  /** In a line sorted by price, being within the limit is a prefix property. */
  lemma {:induction false} SortedTail(line: seq<Order>, req: OrderRequest)
    requires SortedByPrice(Opposite(req.side), line) && line != []
    ensures SortedByPrice(Opposite(req.side), line[1..])
    ensures !Within(req, line[0].price) ==> forall i :: 0 <= i < |line| ==> !Within(req, line[i].price)
  {
  }

  /** The taker takes whatever its limit reaches, up to its own quantity. */
  lemma {:induction false} FillsTakeAllReachable(line: seq<Order>, req: OrderRequest, qty: u64)
    requires SortedByPrice(Opposite(req.side), line)
    ensures Total(Fills(line, req, qty)) == Min(qty, CrossingQty(line, req))
    decreases |line|
  {
    if line != [] {
      SortedTail(line, req);
    }
    if qty != 0 && line != [] {
      if Within(req, line[0].price) {
        var f := Min(qty, line[0].quantity);
        FillsTakeAllReachable(line[1..], req, qty - f);
        assert ([f] + Fills(line[1..], req, qty - f))[1..] == Fills(line[1..], req, qty - f);
        assert Filter(line, Crosses(req)) == [line[0]] + Filter(line[1..], Crosses(req));
        assert ([line[0]] + Filter(line[1..], Crosses(req)))[1..] == Filter(line[1..], Crosses(req));
      } else {
        FilterNone(line, Crosses(req));
      }
    }
  }

  /** The makers hit are a prefix of the line; each is at a price the taker's limit allows; all but the
      last are consumed whole, and the last one too unless the taker is filled. */
  lemma {:induction false} FillsArePrefix(line: seq<Order>, req: OrderRequest, qty: u64)
    ensures var fills := Fills(line, req, qty);
            var n := |fills|;
            && n <= |line|
            && Total(fills) <= qty
            && (forall i :: 0 <= i < n ==>
                  && fills[i] <= line[i].quantity
                  && if req.side == Bid then line[i].price <= req.price else line[i].price >= req.price)
            && (forall i :: 0 <= i < n && fills[i] < line[i].quantity ==> i == n - 1 && Total(fills) == qty)
    decreases |line|
  {
    if !Refuses(line, req, qty) {
      var f := Min(qty, line[0].quantity);
      var fills, tail := Fills(line, req, qty), Fills(line[1..], req, qty - f);
      FillsArePrefix(line[1..], req, qty - f);
      assert fills == [f] + tail && fills[1..] == tail;
      forall i | 0 < i < |fills|
        ensures fills[i] <= line[i].quantity && Within(req, line[i].price)
        ensures fills[i] < line[i].quantity ==> i == |fills| - 1 && Total(fills) == qty
      {
        assert fills[i] == tail[i - 1] && line[i] == line[1..][i - 1];
      }
      if f < line[0].quantity {
        NothingLeft(line[1..], req, 0);
      }
    }
  }

  /** What is left of the line is the line without the makers hit, or with the last of them reduced. */
  lemma {:induction false} ResidueDropsPrefix(line: seq<Order>, req: OrderRequest, qty: u64)
    ensures var fills := Fills(line, req, qty);
            var n := |fills|;
            && n <= |line|
            && Residue(line, req, qty) ==
               (if n > 0 && fills[n - 1] < line[n - 1].quantity
                then [line[n - 1].(quantity := line[n - 1].quantity - fills[n - 1])] + line[n..]
                else line[n..])
    decreases |line|
  {
    if !Refuses(line, req, qty) {
      var f := Min(qty, line[0].quantity);
      var fills, tail := Fills(line, req, qty), Fills(line[1..], req, qty - f);
      assert fills == [f] + tail;
      if f < line[0].quantity {
        NothingLeft(line[1..], req, 0);
      } else {
        ResidueDropsPrefix(line[1..], req, qty - f);
        assert line[1..][|tail|..] == line[|fills|..];
        if tail != [] {
          assert line[1..][|tail| - 1] == line[|fills| - 1];
        }
      }
    }
  }

  /** When the taker is not filled, everything left in line is beyond its limit. */
  lemma {:induction false} ResidualMeansExhausted(line: seq<Order>, req: OrderRequest, qty: u64)
    requires SortedByPrice(Opposite(req.side), line)
    requires Total(Fills(line, req, qty)) < qty
    ensures var left := Residue(line, req, qty);
            forall i :: 0 <= i < |left| ==>
              if req.side == Bid then left[i].price > req.price else left[i].price < req.price
    decreases |line|
  {
    if line != [] {
      SortedTail(line, req);
      if Within(req, line[0].price) {
        var f := Min(qty, line[0].quantity);
        assert ([f] + Fills(line[1..], req, qty - f))[1..] == Fills(line[1..], req, qty - f);
        NothingLeft(line[1..], req, 0);
        if line[0].quantity <= qty {
          ResidualMeansExhausted(line[1..], req, qty - f);
          assert Residue(line, req, qty) == Residue(line[1..], req, qty - f);
        }
      }
    }
  }

  /** Each trade is reported twice, taker first: both events print the maker's price, the same quantity
      and the taker's timestamp, each carries its own party's id and hash, and each says whether its
      party is done or what is left of it. */
  lemma {:induction false} TradesArePairs(line: seq<Order>, req: OrderRequest, id: u64, qty: u64, i: nat)
    requires i < |Fills(line, req, qty)|
    ensures i < |line|
    ensures |Report(line, req, id, qty)| == 2 * |Fills(line, req, qty)|
    ensures var fills, report := Fills(line, req, qty), Report(line, req, id, qty);
            && Total(fills[..i + 1]) <= qty
            && fills[i] <= line[i].quantity
            && IsFill(report[2 * i], id, fills[i], line[i].price, qty - Total(fills[..i + 1]), req.originTs, req.intentHash)
            && IsFill(report[2 * i + 1], line[i].orderId, fills[i], line[i].price, line[i].quantity - fills[i],
                      req.originTs, line[i].intentHash)
    decreases |line|
  {
    hide IsFill;
    TakerIsFill(req, id);
    MakerIsFill(req);
    var f := Min(qty, line[0].quantity);
    var fills, tail := Fills(line, req, qty), Fills(line[1..], req, qty - f);
    assert fills == [f] + tail;
    assert fills[..i + 1][1..] == tail[..i];
    ReportLength(line, req, id, qty);
    if i > 0 {
      TradesArePairs(line[1..], req, id, qty - f, i - 1);
      assert tail[..i - 1 + 1] == tail[..i];
    }
  }

  /** A fill event, field by field: final exactly when nothing remains. */
  predicate IsFill(event: OrderEvent, id: u64, qty: u64, price: u64, remaining: u64, ts: u64, hash: IntentHash) {
    && (event.Fill? || event.PartialFill?)
    && event.id == id && event.fillQty == qty && event.fillPrice == price
    && event.originTs == ts && event.intentHash == hash
    && (event.Fill? <==> remaining == 0)
    && (event.PartialFill? ==> event.remainingQty == remaining)
  }

  lemma TakerIsFill(req: OrderRequest, id: u64)
    ensures forall qty: u64, price: u64, remaining: u64 ::
              IsFill(TakerEvent(req, id, qty, price, remaining), id, qty, price, remaining, req.originTs, req.intentHash)
  {
  }

  lemma MakerIsFill(req: OrderRequest)
    ensures forall maker: Order, qty: u64, remaining: u64 ::
              IsFill(MakerEvent(req, maker, qty, remaining), maker.orderId, qty, maker.price, remaining, req.originTs, maker.intentHash)
  {
  }

  lemma {:induction false} ReportLength(line: seq<Order>, req: OrderRequest, id: u64, qty: u64)
    ensures |Report(line, req, id, qty)| == 2 * |Fills(line, req, qty)|
    decreases |line|
  {
    if !Refuses(line, req, qty) {
      ReportLength(line[1..], req, id, qty - Min(qty, line[0].quantity));
    }
  }

  lemma {:induction false} FillsFitLine(line: seq<Order>, req: OrderRequest, qty: u64)
    ensures |Fills(line, req, qty)| <= |line|
  {
    FillsArePrefix(line, req, qty);
  }

  /** Who is hit, and for how much, in closed form: a maker within the limit is hit exactly when those
      before it do not fill the taker, and gives the smaller of what it has and what is still wanted. */
  lemma {:induction false} FillsInClosedForm(line: seq<Order>, req: OrderRequest, qty: u64, j: nat)
    requires SortedByPrice(Opposite(req.side), line)
    ensures j < |Fills(line, req, qty)| <==> j < |line| && SumQty(line[..j]) < qty && Within(req, line[j].price)
    ensures j < |Fills(line, req, qty)| ==>
              && Fills(line, req, qty)[j] == Min(line[j].quantity, qty - SumQty(line[..j]))
              && Total(Fills(line, req, qty)[..j + 1]) == SumQty(line[..j]) + Fills(line, req, qty)[j]
    decreases |line|
  {
    if line != [] {
      SortedTail(line, req);
    }
    if !Refuses(line, req, qty) {
      var f := Min(qty, line[0].quantity);
      var fills, tail := Fills(line, req, qty), Fills(line[1..], req, qty - f);
      assert fills == [f] + tail;
      if j == 0 {
        assert fills[..1][1..] == [];
      } else if j <= |line| {
        FillsInClosedForm(line[1..], req, qty - f, j - 1);
        assert line[..j][1..] == line[1..][..j - 1];
        assert SumQty(line[..j]) == line[0].quantity + SumQty(line[1..][..j - 1]);
        if f < line[0].quantity {
          NothingLeft(line[1..], req, 0);
        } else if j < |fills| {
          assert fills[..j + 1][1..] == tail[..j];
        }
      } else {
        FillsFitLine(line, req, qty);
      }
    }
  }

  /** What the taker receives leaves the opposite side, unit for unit. */
  lemma {:induction false} ResidueQty(line: seq<Order>, req: OrderRequest, qty: u64)
    ensures SumQty(Residue(line, req, qty)) + Total(Fills(line, req, qty)) == SumQty(line)
    decreases |line|
  {
    if !Refuses(line, req, qty) {
      var f := Min(qty, line[0].quantity);
      assert ([f] + Fills(line[1..], req, qty - f))[1..] == Fills(line[1..], req, qty - f);
      if line[0].quantity <= qty {
        ResidueQty(line[1..], req, qty - f);
      } else {
        NothingLeft(line[1..], req, 0);
        assert line[0 := line[0].(quantity := line[0].quantity - qty)][1..] == line[1..];
      }
    }
  }

  // ---------------------------------------------------------------------------
  // The Fill-or-Kill gate
  // ---------------------------------------------------------------------------

  /** The accumulator loop over (price, stored total), with its wrapping `+=`. */
  predicate Reaches(levels: seq<(u64, u64)>, req: OrderRequest, required: u64, acc: u64) {
    if levels == [] || !Crossing(req.side, req.price, levels[0].0) then false
    else
      var acc' := WrapAdd(acc, levels[0].1);
      acc' >= required || Reaches(levels[1..], req, required, acc')
  }

  predicate HasSufficientLiquidity(resting: seq<Order>, req: OrderRequest, required: u64) {
    Reaches(Depth(resting, Opposite(req.side)), req, required, 0)
  }

  /** True running totals of the crossing levels among `prices`, best price first. */
  function RunningTotals(resting: seq<Order>, req: OrderRequest, prices: set<u64>, acc: nat): seq<nat>
    decreases |prices|
  {
    if prices == {} then []
    else
      var p := Best(Opposite(req.side), prices);
      if !Within(req, p) then []
      else
        var acc' := acc + SumQty(Queue(resting, Opposite(req.side), p));
        [acc'] + RunningTotals(resting, req, prices - {p}, acc')
  }

  function Cumulative(resting: seq<Order>, req: OrderRequest): seq<nat> {
    RunningTotals(resting, req, Prices(resting, Opposite(req.side)), 0)
  }

  /** Some running total reaches `required` after wrapping to 64 bits. */
  ghost predicate SomeWrapped(totals: seq<nat>, required: u64) {
    exists k :: 0 <= k < |totals| && Mod64(totals[k]) >= required
  }

  lemma NoneWrapped(required: u64)
    ensures !SomeWrapped([], required)
  {
  }

  lemma {:induction false} ReachesRunning(resting: seq<Order>, req: OrderRequest, required: u64, prices: set<u64>, acc: nat)
    ensures var totals := RunningTotals(resting, req, prices, acc);
            Reaches(DepthOf(resting, Opposite(req.side), prices), req, required, Mod64(acc)) <==>
            SomeWrapped(totals, required)
    decreases |prices|
  {
    hide Mod64, SomeWrapped;
    NoneWrapped(required);
    if prices != {} {
      var p := Best(Opposite(req.side), prices);
      if Within(req, p) {
        var qty := SumQty(Queue(resting, Opposite(req.side), p));
        var acc' := acc + qty;
        var totals, tail := RunningTotals(resting, req, prices, acc), RunningTotals(resting, req, prices - {p}, acc');
        ReachesRunning(resting, req, required, prices - {p}, acc');
        WrapAddOfSum(acc, Mod64(qty));
        ModOfModAdd(acc, qty);
        assert totals == [acc'] + tail;
        SomeReaches(acc', tail, required);
      }
    }
  }

  lemma {:induction false} SomeReaches(first: nat, tail: seq<nat>, required: u64)
    ensures SomeWrapped([first] + tail, required) <==> Mod64(first) >= required || SomeWrapped(tail, required)
  {
    hide Mod64;
    var totals := [first] + tail;
    assert totals[0] == first;
    if k :| 0 <= k < |tail| && Mod64(tail[k]) >= required {
      assert totals[k + 1] == tail[k];
    }
  }

  lemma Mod64Fits(x: nat)
    ensures Mod64(x) <= x && (x < U64_MODULUS ==> Mod64(x) == x)
  {
  }

  lemma ModOfModAdd(a: int, b: int)
    ensures Mod64(a + Mod64(b)) == Mod64(a + b)
  {
  }

  /** The running totals grow, and the last one is everything the limit reaches. */
  lemma {:induction false} RunningTotalsGrow(resting: seq<Order>, req: OrderRequest, prices: set<u64>, acc: nat)
    ensures var totals := RunningTotals(resting, req, prices, acc);
            var reachable := CrossingQty(Flatten(resting, Opposite(req.side), prices), req);
            && (forall k :: 0 <= k < |totals| ==> acc <= totals[k] <= acc + reachable)
            && (if totals == [] then reachable == 0 else totals[|totals| - 1] == acc + reachable)
    decreases |prices|
  {
    hide CrossingQty, Flatten, Queue, SumQty;
    NoneCrossing(resting, req);
    if prices != {} {
      var p := Best(Opposite(req.side), prices);
      CrossingLevel(resting, req, prices);
      if Within(req, p) {
        RunningTotalsGrow(resting, req, prices - {p}, acc + SumQty(Queue(resting, Opposite(req.side), p)));
      }
    }
  }

  lemma NoneCrossing(resting: seq<Order>, req: OrderRequest)
    ensures CrossingQty(Flatten(resting, Opposite(req.side), {}), req) == 0
  {
  }

  lemma {:induction false} CrossingLevel(resting: seq<Order>, req: OrderRequest, prices: set<u64>)
    requires prices != {}
    ensures var side := Opposite(req.side);
            var p := Best(side, prices);
            CrossingQty(Flatten(resting, side, prices), req) ==
            if Within(req, p)
            then SumQty(Queue(resting, side, p)) + CrossingQty(Flatten(resting, side, prices - {p}), req)
            else 0
  {
    var side := Opposite(req.side);
    var line := Flatten(resting, side, prices);
    var p := Best(side, prices);
    if Within(req, p) {
      var head, tail := Queue(resting, side, p), Flatten(resting, side, prices - {p});
      FilterMembers(resting, AtLevel(side, p));
      FilterConcat(head, tail, Crosses(req));
      FilterAll(head, Crosses(req));
      SumConcat(head, Filter(tail, Crosses(req)));
    } else {
      forall i | 0 <= i < |line|
        ensures !Crosses(req)(line[i])
      {
        FlattenMembers(resting, side, prices, line[i]);
      }
      FilterNone(line, Crosses(req));
    }
  }

  /** What the opposite side of a book offers within the taker's limit. */
  function Reachable(resting: seq<Order>, req: OrderRequest): nat {
    CrossingQty(PriceTime(resting, Opposite(req.side)), req)
  }

  lemma {:induction false} CrossRemaining(resting: seq<Order>, req: OrderRequest, id: u64, qty: u64)
    ensures Cross(resting, req, id, qty).remaining == qty - Min(qty, Reachable(resting, req))
  {
    CrossIsGreedy(resting, req, id, qty);
    PriceTimeIsStableSort(resting, Opposite(req.side));
    FillsTakeAllReachable(PriceTime(resting, Opposite(req.side)), req, qty);
  }

  lemma GateReaches(resting: seq<Order>, req: OrderRequest, required: u64)
    ensures HasSufficientLiquidity(resting, req, required) <==> SomeWrapped(Cumulative(resting, req), required)
  {
    ReachesRunning(resting, req, required, Prices(resting, Opposite(req.side)), 0);
  }

  /** The gate never lets a Fill-or-Kill through that the loop would leave short, whatever wraps. */
  lemma {:induction false} GateIsSound(resting: seq<Order>, req: OrderRequest, id: u64, qty: u64)
    requires HasSufficientLiquidity(resting, req, qty)
    ensures Cross(resting, req, id, qty).remaining == 0
  {
    GateReaches(resting, req, qty);
    RunningTotalsGrow(resting, req, Prices(resting, Opposite(req.side)), 0);
    var totals := Cumulative(resting, req);
    var k :| 0 <= k < |totals| && Mod64(totals[k]) >= qty;
    Mod64Fits(totals[k]);
    CrossRemaining(resting, req, id, qty);
  }

  /** While what the limit reaches fits in 64 bits, the gate is exact. */
  lemma {:induction false} GateIsExact(resting: seq<Order>, req: OrderRequest, id: u64, qty: u64)
    requires qty > 0 && Reachable(resting, req) < U64_MODULUS
    ensures HasSufficientLiquidity(resting, req, qty) <==> Cross(resting, req, id, qty).remaining == 0
  {
    hide Mod64, HasSufficientLiquidity, Cross, Flatten, CrossingQty, RunningTotals;
    if HasSufficientLiquidity(resting, req, qty) {
      GateIsSound(resting, req, id, qty);
    } else {
      GateReaches(resting, req, qty);
      RunningTotalsGrow(resting, req, Prices(resting, Opposite(req.side)), 0);
      CrossRemaining(resting, req, id, qty);
      var totals := Cumulative(resting, req);
      if totals != [] {
        Mod64Fits(totals[|totals| - 1]);
      }
    }
  }

  /** Exactly which books give an exact gate for every quantity: those whose reachable total fits in
      64 bits, and those that happen to stop at a level where the wrapped total is the largest u64. */
  lemma {:induction false} GateIsExactIff(resting: seq<Order>, req: OrderRequest, id: u64)
    ensures (forall qty: u64 :: qty > 0 ==>
               (HasSufficientLiquidity(resting, req, qty) <==> Cross(resting, req, id, qty).remaining == 0))
            <==>
            (Reachable(resting, req) < U64_MODULUS
             || exists k :: 0 <= k < |Cumulative(resting, req)|
                            && Mod64(Cumulative(resting, req)[k]) == U64_MODULUS - 1)
  {
    hide Mod64, HasSufficientLiquidity, Cross;
    var totals := Cumulative(resting, req);
    var top: u64 := U64_MODULUS - 1;
    if Reachable(resting, req) < U64_MODULUS {
      forall qty: u64 | qty > 0
        ensures HasSufficientLiquidity(resting, req, qty) <==> Cross(resting, req, id, qty).remaining == 0
      {
        GateIsExact(resting, req, id, qty);
      }
    } else if k :| 0 <= k < |totals| && Mod64(totals[k]) == top {
      forall qty: u64 | qty > 0
        ensures HasSufficientLiquidity(resting, req, qty) <==> Cross(resting, req, id, qty).remaining == 0
      {
        GateReaches(resting, req, qty);
        assert Mod64(totals[k]) >= qty;
        CrossRemaining(resting, req, id, qty);
      }
    } else {
      GateReaches(resting, req, top);
      CrossRemaining(resting, req, id, top);
      assert !HasSufficientLiquidity(resting, req, top);
      assert Cross(resting, req, id, top).remaining == 0;
    }
  }

  /** The gate is not exact on every book: with two asks of 2^63 at one price the stored total wraps to
      zero, so every Fill-or-Kill that reaches them is turned away although the loop would fill it. */
  lemma {:induction false} GateMissesWrappedTotal(a: Order, b: Order, req: OrderRequest, id: u64)
    requires a.side == Ask && b.side == Ask && a.price == b.price
    requires a.quantity == 0x8000_0000_0000_0000 && b.quantity == 0x8000_0000_0000_0000
    requires req.side == Bid && req.price >= a.price && req.quantity > 0
    ensures !HasSufficientLiquidity([a, b], req, req.quantity)
    ensures Cross([a, b], req, id, req.quantity).remaining == 0
  {
    var resting, p := [a, b], a.price;
    assert Prices(resting, Ask) == {p} by {
      assert a in resting && forall o :: o in resting ==> o == a || o == b;
    }
    assert Best(Ask, {p}) == p;
    FilterAll(resting, AtLevel(Ask, p));
    assert SumQty(resting) == U64_MODULUS by {
      SumConcat([a], [b]);
      SumOne(a);
      SumOne(b);
      assert resting == [a] + [b];
    }
    assert Queue(resting, Ask, p) == resting && {p} - {p} == {};
    assert RunningTotals(resting, req, {}, U64_MODULUS) == [];
    assert RunningTotals(resting, req, {p}, 0) == [U64_MODULUS] + RunningTotals(resting, req, {p} - {p}, U64_MODULUS);
    assert Cumulative(resting, req) == [U64_MODULUS];
    GateReaches(resting, req, req.quantity);
    RunningTotalsGrow(resting, req, {p}, 0);
    CrossRemaining(resting, req, id, req.quantity);
  }

  // ---------------------------------------------------------------------------
  // Matching with time in force
  // ---------------------------------------------------------------------------

  datatype MatchResult = MatchResult(book: Book, events: seq<OrderEvent>)

  function RestingOrder(req: OrderRequest, id: u64, remaining: u64): Order {
    Order(id, req.price, remaining, req.originTs, req.instrumentId, req.side, req.orderType, req.tif, 0, req.intentHash)
  }

  function MatchLimit(b: Book, req: OrderRequest, id: u64): MatchResult {
    if req.tif == FOK && !HasSufficientLiquidity(b.resting, req, req.quantity) then
      MatchResult(b, [RejectEvent(req, InsufficientLiquidity, req.quantity)])
    else
      var r := Cross(b.resting, req, id, req.quantity);
      var crossed := b.(resting := r.resting);
      if r.remaining == 0 then MatchResult(crossed, r.events)
      else
        match req.tif
        case FOK => MatchResult(crossed, r.events)
        case IOC => MatchResult(crossed, r.events + [RejectEvent(req, InsufficientLiquidity, r.remaining)])
        case GTC =>
          var order := RestingOrder(req, id, r.remaining);
          match Insert(crossed, order)
          case Inserted(book) => MatchResult(book, r.events + [New(order)])
          case RefusedFull => MatchResult(crossed, r.events + [RejectEvent(req, SystemAtCapacity, r.remaining)])
          case RefusedDuplicate => MatchResult(crossed, r.events + [RejectEvent(req, RejectReason.DuplicateIntent, r.remaining)])
  }

  /** A Fill-or-Kill either leaves the book alone with one reject for its whole quantity, or trades
      exactly its quantity, by whether some running total of the levels within its limit reaches it
      after wrapping: the residual branch after the loop is dead. */
  lemma {:induction false} FillOrKillIsAtomic(b: Book, req: OrderRequest, id: u64)
    requires req.tif == FOK
    ensures var line := PriceTime(b.resting, Opposite(req.side));
            var m := MatchLimit(b, req, id);
            if SomeWrapped(Cumulative(b.resting, req), req.quantity)
            then && Cross(b.resting, req, id, req.quantity).remaining == 0
                 && m.events == Report(line, req, id, req.quantity)
                 && Total(Fills(line, req, req.quantity)) == req.quantity
            else m == MatchResult(b, [Reject(0, InsufficientLiquidity, req.quantity, req.originTs, req.intentHash)])
  {
    hide Cross, Cumulative, SomeWrapped;
    GateReaches(b.resting, req, req.quantity);
    if HasSufficientLiquidity(b.resting, req, req.quantity) {
      GateIsSound(b.resting, req, id, req.quantity);
      CrossIsGreedy(b.resting, req, id, req.quantity);
    }
  }

  /** The order a request's remainder rests as. */
  ghost function Remainder(req: OrderRequest, id: u64, remaining: u64): Order {
    Order(orderId := id, price := req.price, quantity := remaining, originTs := req.originTs,
          instrumentId := req.instrumentId, side := req.side, orderType := req.orderType, tif := req.tif,
          padding := 0, intentHash := req.intentHash)
  }

  /** What follows the fills: nothing when the taker is filled, else one event for the remainder. */
  ghost function Aftermath(crossed: Book, req: OrderRequest, id: u64, remaining: u64): seq<OrderEvent> {
    if remaining == 0 then []
    else if req.tif == IOC then [Reject(0, InsufficientLiquidity, remaining, req.originTs, req.intentHash)]
    else if exists o :: o in crossed.resting && o.intentHash == req.intentHash then
      [Reject(0, RejectReason.DuplicateIntent, remaining, req.originTs, req.intentHash)]
    else if |crossed.resting| == crossed.capacity then
      [Reject(0, SystemAtCapacity, remaining, req.originTs, req.intentHash)]
    else [New(Remainder(req, id, remaining))]
  }

  /** Matching as a whole, for a request the gate lets through: the opposite side is what greedy
      matching leaves of its price-time line, the report lists the trades and then the remainder's
      fate, and the taker's own side changes by the resting remainder only. */
  lemma {:induction false} MatchIsGreedyThenPolicy(b: Book, req: OrderRequest, id: u64)
    requires req.tif == FOK ==> HasSufficientLiquidity(b.resting, req, req.quantity)
    ensures var m, line := MatchLimit(b, req, id), PriceTime(b.resting, Opposite(req.side));
            var remaining := req.quantity - Min(req.quantity, Reachable(b.resting, req));
            var tail := Aftermath(b.(resting := Cross(b.resting, req, id, req.quantity).resting), req, id, remaining);
            && m.events == Report(line, req, id, req.quantity) + tail
            && PriceTime(m.book.resting, Opposite(req.side)) == Residue(line, req, req.quantity)
            && forall p: u64 ::
                 Queue(m.book.resting, req.side, p) ==
                 Queue(b.resting, req.side, p)
                 + (if tail == [New(Remainder(req, id, remaining))] && p == req.price
                    then [Remainder(req, id, remaining)] else [])
  {
    hide Cross, HasSufficientLiquidity, Reachable, Report, Residue, PriceTime, Queue, Insert;
    var r := Cross(b.resting, req, id, req.quantity);
    var crossed := b.(resting := r.resting);
    var order := RestingOrder(req, id, r.remaining);
    CrossIsGreedy(b.resting, req, id, req.quantity);
    CrossRemaining(b.resting, req, id, req.quantity);
    InsertRefuses(crossed, order);
    if req.tif == FOK {
      GateIsSound(b.resting, req, id, req.quantity);
    } else if r.remaining > 0 && req.tif == GTC && Insert(crossed, order).Inserted? {
      forall s: Side, p: u64
        ensures Queue(Insert(crossed, order).book.resting, s, p) ==
                Queue(r.resting, s, p) + (if s == req.side && p == req.price then [order] else [])
      {
        InsertAppends(crossed, order, s, p);
      }
      PriceTimeCongruent(r.resting, Insert(crossed, order).book.resting, Opposite(req.side));
    }
  }
}
