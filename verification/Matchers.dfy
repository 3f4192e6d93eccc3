/** The matcher in place: the cross loop, the Fill-or-Kill gate and the time-in-force policy, run
    against the linked book and proved to do what `Matching` says. */
module Matchers {
  import opened Types
  import Books
  import opened Matching
  import Arenas
  import opened OrderBooks
  import Links

  /** A sink that keeps every event, as a vector does. */
  class EventSink {
    var events: seq<OrderEvent>

    constructor ()
      ensures events == []
    {
      events := [];
    }

    method Emit(event: OrderEvent)
      modifies this
      ensures events == old(events) + [event]
    {
      events := events + [event];
    }
  }

  /** Reducing by less than the whole does not wrap. */
  lemma {:induction false} TopHit(b: Books.Book, side: Side, fill: u64)
    requires Books.Top(b, side).Some? && fill <= Books.Top(b, side).value.quantity
    ensures Books.Top(b, side).value.quantity == fill ==>
              Books.PopTop(b, side).resting == Hit(b.resting, Books.TopIndex(b.resting, side), fill)
    ensures Books.Top(b, side).value.quantity != fill ==>
              Books.ReduceTop(b, side, fill).resting == Hit(b.resting, Books.TopIndex(b.resting, side), fill)
  {
  }

  /** The maker half of one trade: report the maker's fill, then pop it or reduce it. */
  method FillTop(book: OrderBook, req: OrderRequest, maker: Order, fillQty: u64, out: EventSink)
    requires book.Valid()
    requires Books.Top(book.Contents(), Opposite(req.side)) == Some(maker) && fillQty <= maker.quantity
    modifies book.Repr(), out
    ensures book.Valid()
    ensures out.events == old(out.events)
            + [if fillQty == maker.quantity then Fill(maker.orderId, fillQty, maker.price, req.originTs, maker.intentHash)
               else PartialFill(maker.orderId, fillQty, maker.price, maker.quantity - fillQty, req.originTs, maker.intentHash)]
    ensures var b := old(book.Contents());
            book.Contents() == b.(resting := Hit(b.resting, Books.TopIndex(b.resting, Opposite(req.side)), fillQty))
  {
    hide OrderBook.Valid, OrderBook.Contents;
    var opposite := Opposite(req.side);
    TopHit(book.Contents(), opposite, fillQty);
    var makerRemaining := maker.quantity - fillQty;
    if makerRemaining == 0 {
      out.Emit(Fill(maker.orderId, fillQty, maker.price, req.originTs, maker.intentHash));
      var popped := book.PopTop(opposite);
    } else {
      out.Emit(PartialFill(maker.orderId, fillQty, maker.price, makerRemaining, req.originTs, maker.intentHash));
      book.ReduceTop(opposite, fillQty);
    }
  }

  /** The loop has emitted `emitted` and will finish `whole` from here. */
  ghost predicate Pending(whole: CrossResult, resting: seq<Order>, emitted: seq<OrderEvent>, req: OrderRequest, id: u64, remaining: u64) {
    var rest := Cross(resting, req, id, remaining);
    whole == CrossResult(rest.resting, emitted + rest.events, rest.remaining)
  }

  lemma {:induction false} PendingStep(whole: CrossResult, resting: seq<Order>, emitted: seq<OrderEvent>, req: OrderRequest, id: u64, remaining: u64)
    requires Pending(whole, resting, emitted, req, id, remaining)
    ensures Stops(resting, req, remaining) ==> whole == CrossResult(resting, emitted, remaining)
    ensures !Stops(resting, req, remaining) ==>
              Pending(whole, AfterTrade(resting, req, remaining), emitted + TradeEvents(resting, req, id, remaining),
                      req, id, remaining - TopFill(resting, req, remaining))
  {
  }

  method CrossLoop(book: OrderBook, req: OrderRequest, orderId: u64, out: EventSink) returns (remaining: u64)
    requires book.Valid()
    modifies book.Repr(), out
    ensures book.Valid()
    ensures var b := old(book.Contents());
            var r := Cross(b.resting, req, orderId, req.quantity);
            && book.Contents() == b.(resting := r.resting)
            && out.events == old(out.events) + r.events
            && remaining == r.remaining
  {
    hide OrderBook.Valid, OrderBook.Contents, Books.TopIndex, Hit, Cross, Pending;
    ghost var whole := Cross(book.Contents().resting, req, orderId, req.quantity);
    var opposite := Opposite(req.side);
    remaining := req.quantity;
    ghost var now := book.Contents();
    ghost var emitted: seq<OrderEvent> := [];
    PendingAtStart(now.resting, req, orderId);
    while remaining > 0
      invariant book.Valid()
      invariant book.Contents() == now && now.capacity == old(book.Contents()).capacity
      invariant out.events == old(out.events) + emitted
      invariant Pending(whole, now.resting, emitted, req, orderId, remaining)
      decreases |now.resting|, remaining
    {
      PendingStep(whole, now.resting, emitted, req, orderId, remaining);
      var top := book.PeekTop(opposite);
      if top.None? || !Crossing(req.side, req.price, top.value.price) {
        break;
      }
      var maker := top.value.order;
      var fillQty := Min(remaining, maker.quantity);
      ghost var events := TradeEvents(now.resting, req, orderId, remaining);
      remaining := remaining - fillQty;
      if remaining == 0 {
        out.Emit(Fill(orderId, fillQty, maker.price, req.originTs, req.intentHash));
      } else {
        out.Emit(PartialFill(orderId, fillQty, maker.price, remaining, req.originTs, req.intentHash));
      }
      FillTop(book, req, maker, fillQty, out);
      now := book.Contents();
      emitted := emitted + events;
    }
    PendingStep(whole, now.resting, emitted, req, orderId, remaining);
  }

  lemma PendingAtStart(resting: seq<Order>, req: OrderRequest, id: u64)
    ensures Pending(Cross(resting, req, id, req.quantity), resting, [], req, id, req.quantity)
  {
  }

  method LiquidityReaches(levels: seq<(u64, u64)>, req: OrderRequest, required: u64) returns (r: bool)
    ensures r == Reaches(levels, req, required, 0)
  {
    var acc: u64 := 0;
    for i := 0 to |levels|
      invariant Reaches(levels, req, required, 0) == Reaches(levels[i..], req, required, acc)
    {
      if !Crossing(req.side, req.price, levels[i].0) {
        return false;
      }
      assert levels[i..][1..] == levels[i + 1..];
      acc := WrapAdd(acc, levels[i].1);
      if acc >= required {
        return true;
      }
    }
    return false;
  }

  /** The depth limit that stands for "all levels". */
  const USIZE_MAX: nat := U64_MODULUS - 1

  method CheckLiquidity(book: OrderBook, req: OrderRequest) returns (r: bool)
    requires book.Valid()
    ensures r == HasSufficientLiquidity(book.Contents().resting, req, req.quantity)
  {
    hide Arenas.Refines, Links.Inv;
    DepthFits(book, Opposite(req.side));
    var levels := book.Depth(Opposite(req.side), USIZE_MAX);
    r := LiquidityReaches(levels, req, req.quantity);
  }

  /** There are never more levels than resting orders, so the limit never cuts the walk short. */
  lemma {:induction false} DepthFits(book: OrderBook, side: Side)
    requires book.Valid()
    ensures |Books.Depth(book.Contents().resting, side)| < USIZE_MAX
  {
    hide Arenas.Refines, Links.Inv;
    var resting := book.Contents().resting;
    DepthOfSize(resting, side, Books.Prices(resting, side));
    PricesSize(resting, side);
    book.Census();
  }

  lemma {:induction false} PricesSize(resting: seq<Order>, side: Side)
    ensures |Books.Prices(resting, side)| <= |resting|
  {
    if resting != [] {
      var o, rest := resting[0], resting[1..];
      PricesSize(rest, side);
      var before, after := Books.Prices(rest, side), Books.Prices(resting, side);
      assert resting == [o] + rest;
      assert after == if o.side == side then before + {o.price} else before;
    }
  }

  lemma {:induction false} DepthOfSize(resting: seq<Order>, side: Side, prices: set<u64>)
    ensures |Books.DepthOf(resting, side, prices)| == |prices|
    decreases |prices|
  {
    if prices != {} {
      DepthOfSize(resting, side, prices - {Books.Best(side, prices)});
    }
  }

  method MatchOrder(book: OrderBook, req: OrderRequest, orderId: u64, out: EventSink)
    requires book.Valid()
    modifies book.Repr(), out
    ensures book.Valid()
    ensures var m := MatchLimit(old(book.Contents()), req, orderId);
            book.Contents() == m.book && out.events == old(out.events) + m.events
  {
    hide OrderBook.Valid, OrderBook.Contents, Cross, HasSufficientLiquidity;
    if req.tif == FOK {
      var sufficient := CheckLiquidity(book, req);
      if !sufficient {
        out.Emit(RejectEvent(req, InsufficientLiquidity, req.quantity));
        return;
      }
      GateIsSound(book.Contents().resting, req, orderId, req.quantity);
    }
    var remaining := CrossLoop(book, req, orderId, out);
    if remaining == 0 {
      return;
    }
    match req.tif
    case FOK =>
      assert false;
    case IOC =>
      out.Emit(RejectEvent(req, InsufficientLiquidity, remaining));
    case GTC =>
      var resting := RestingOrder(req, orderId, remaining);
      var inserted := book.Insert(resting);
      match inserted
      case Ok(_) => out.Emit(New(resting));
      case Err(ArenaFull) => out.Emit(RejectEvent(req, SystemAtCapacity, remaining));
      case Err(DuplicateIntent) => out.Emit(RejectEvent(req, RejectReason.DuplicateIntent, remaining));
  }
}
