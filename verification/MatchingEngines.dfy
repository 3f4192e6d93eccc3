/** The engine in place: one linked book per instrument and the id counter, with whole runs proved
    equal to the runs of `Engines`. */
module MatchingEngines {
  import opened Types
  import opened Matching
  import opened Engines
  import opened Matchers
  import opened OrderBooks
  import Arenas
  import Books
  import Links

  class MatchingEngine {
    var books: map<u32, OrderBook>
    var nextOrderId: u64
    ghost var Repr: set<object>

    ghost predicate Valid()
      reads this, Repr
    {
      && this in Repr
      && (forall i :: i in books ==> books[i].Repr() <= Repr && this !in books[i].Repr())
      && (forall i, j :: i in books && j in books && i != j ==> books[i].Repr() !! books[j].Repr())
      && (forall i :: i in books ==> books[i].Valid() && books[i].instrumentId == i)
    }

    ghost function Contents(): Engine
      requires Valid()
      reads this, Repr
    {
      Engine(map i | i in books :: books[i].Contents(), nextOrderId)
    }

    constructor ()
      ensures Valid() && fresh(Repr)
      ensures Contents() == EMPTY_ENGINE
    {
      books := map[];
      nextOrderId := 0;
      Repr := {this};
    }

    /** Footprints stay apart when a book made of new objects joins. */
    twostate lemma BookAdded(instrumentId: u32, new book: OrderBook)
      requires old(Valid()) && instrumentId !in old(books)
      requires books == old(books)[instrumentId := book] && Repr == old(Repr) + book.Repr()
      requires fresh(book.Repr()) && book.Valid() && book.instrumentId == instrumentId
      requires forall o :: o in old(Repr) && o != this ==> unchanged(o)
      ensures Valid()
      ensures forall i :: i in old(books) ==> books[i].Contents() == old(books[i].Contents())
    {
      hide OrderBook.Valid, OrderBook.Contents;
      forall i | i in old(books)
        ensures i in books && books[i].Repr() <= old(Repr) && this !in books[i].Repr()
        ensures books[i].Valid() && books[i].Contents() == old(books[i].Contents())
      {
        assert old(books)[i].Repr() <= old(Repr);
        assert books[i] in books[i].Repr() && books[i].arena in books[i].Repr() && books[i].arena.slots in books[i].Repr();
      }
    }

    twostate lemma ContentsAdded(instrumentId: u32, new book: OrderBook)
      requires old(Valid()) && Valid() && book.Valid()
      requires books == old(books)[instrumentId := book]
      requires forall i :: i in old(books) && i != instrumentId ==> books[i].Contents() == old(books[i].Contents())
      ensures Contents().books == old(Contents()).books[instrumentId := book.Contents()]
    {
      hide OrderBook.Valid, OrderBook.Contents, OrderBook.Repr;
    }

    method Register(instrumentId: u32, bookCapacity: u32)
      requires Valid() && instrumentId !in books && 0 < bookCapacity < U32_MAX
      modifies this
      ensures Valid() && Repr >= old(Repr) && fresh(Repr - old(Repr))
      ensures Contents() == Engine(old(Contents()).books[instrumentId := Books.Book(bookCapacity, [])], old(nextOrderId))
    {
      hide OrderBook.Valid, OrderBook.Contents, OrderBook.Repr;
      var book := new OrderBook(instrumentId, bookCapacity);
      books := books[instrumentId := book];
      Repr := Repr + book.Repr();
      BookAdded(instrumentId, book);
      ContentsAdded(instrumentId, book);
    }

    /** Requires only what keeps the arena's own capacity assertion from firing. */
    method AddInstrument(instrumentId: u32, bookCapacity: u32) returns (r: AddResult)
      requires Valid()
      requires bookCapacity == U32_MAX ==> instrumentId in books
      modifies this
      ensures Valid() && Repr >= old(Repr) && fresh(Repr - old(Repr))
      ensures (Done(Contents(), []), r) == AddBook(old(Contents()), instrumentId, bookCapacity)
    {
      hide OrderBook.Valid, OrderBook.Contents;
      if bookCapacity == 0 || bookCapacity == Arenas.MAX_CAPACITY {
        return InvalidCapacity;
      }
      if instrumentId in books {
        return AlreadyRegistered;
      }
      Register(instrumentId, bookCapacity);
      return Added;
    }

    method MintOrderId() returns (id: u64)
      modifies this`nextOrderId
      ensures id == old(nextOrderId)
      ensures nextOrderId == WrapAdd(old(nextOrderId), 1)
    {
      id := nextOrderId;
      nextOrderId := WrapAdd(nextOrderId, 1);
    }

    method PushReject(reason: RejectReason, remaining: u64, req: OrderRequest, out: EventSink)
      requires Valid() && out !in Repr
      modifies out
      ensures Valid() && Contents() == old(Contents())
      ensures out.events == old(out.events) + [Reject(0, reason, remaining, req.originTs, req.intentHash)]
    {
      hide OrderBook.Valid, OrderBook.Contents;
      out.Emit(RejectEvent(req, reason, remaining));
    }

    method PushCancel(id: u64, req: OrderRequest, out: EventSink)
      requires Valid() && out !in Repr
      modifies out
      ensures Valid() && Contents() == old(Contents())
      ensures out.events == old(out.events) + [Cancel(id, req.originTs, req.intentHash)]
    {
      hide OrderBook.Valid, OrderBook.Contents;
      out.Emit(CancelEvent(req, id));
    }

    /** Books other than the one worked on are where they were. */
    twostate lemma OthersKept(instrumentId: u32)
      requires old(Valid()) && instrumentId in books
      requires books == old(books) && Repr == old(Repr)
      requires forall o :: o in Repr && o != this && o !in books[instrumentId].Repr() ==> unchanged(o)
      requires books[instrumentId].Valid()
      ensures Valid()
      ensures Contents().books == old(Contents()).books[instrumentId := books[instrumentId].Contents()]
    {
      hide OrderBook.Valid, OrderBook.Contents;
      forall i | i in books && i != instrumentId
        ensures books[i].Valid() && books[i].Contents() == old(books[i].Contents())
      {
        assert books[i].Repr() !! books[instrumentId].Repr();
        assert books[i] in books[i].Repr() && books[i].arena in books[i].Repr() && books[i].arena.slots in books[i].Repr();
      }
    }

    /** A validated request: burn an id and match. */
    method Admit(req: OrderRequest, out: EventSink)
      requires Valid() && out !in Repr && req.instrumentId in books
      modifies Repr, out
      ensures Valid() && Repr == old(Repr)
      ensures var e := old(Contents());
              var m := MatchLimit(e.books[req.instrumentId], req, e.nextOrderId);
              && Contents() == Engine(e.books[req.instrumentId := m.book], WrapAdd(e.nextOrderId, 1))
              && out.events == old(out.events) + m.events
    {
      hide OrderBook.Valid, OrderBook.Contents, OrderBook.Repr, MatchLimit, Mod64;
      var orderId := MintOrderId();
      MatchOrder(books[req.instrumentId], req, orderId, out);
      OthersKept(req.instrumentId);
    }

    method ProcessNew(req: OrderRequest, out: EventSink)
      requires Valid() && out !in Repr
      modifies Repr, out
      ensures Valid() && Repr == old(Repr)
      ensures var (e, events) := Engines.ProcessNew(old(Contents()), req);
              Contents() == e && out.events == old(out.events) + events
    {
      hide OrderBook.Valid, OrderBook.Contents, MatchLimit, Mod64;
      if req.instrumentId !in books {
        PushReject(UnknownInstrument, req.quantity, req, out);
      } else if req.quantity == 0 {
        PushReject(InvalidQuantity, req.quantity, req, out);
      } else if req.price == 0 {
        PushReject(InvalidPrice, req.quantity, req, out);
      } else {
        Admit(req, out);
      }
    }

    /** Cancel in one book. */
    method Withdraw(req: OrderRequest) returns (cancelled: Option<Order>)
      requires Valid() && req.instrumentId in books
      modifies Repr
      ensures Valid() && Repr == old(Repr)
      ensures var e := old(Contents());
              var (book, order) := Books.CancelHash(e.books[req.instrumentId], req.intentHash);
              && cancelled == order
              && Contents() == e.(books := e.books[req.instrumentId := book])
              && (cancelled.None? ==> Contents() == e)
    {
      hide OrderBook.Valid, OrderBook.Contents;
      cancelled := books[req.instrumentId].Cancel(req.intentHash);
      OthersKept(req.instrumentId);
    }

    method ProcessCancel(req: OrderRequest, out: EventSink)
      requires Valid() && out !in Repr
      modifies Repr, out
      ensures Valid() && Repr == old(Repr)
      ensures var (e, events) := Engines.ProcessCancel(old(Contents()), req);
              Contents() == e && out.events == old(out.events) + events
    {
      hide OrderBook.Valid, OrderBook.Contents, Books.CancelHash;
      if req.instrumentId !in books {
        PushReject(UnknownInstrument, 0, req, out);
        return;
      }
      var cancelled := Withdraw(req);
      match cancelled
      case Some(order) => PushCancel(order.orderId, req, out);
      case None => PushReject(UnknownOrder, 0, req, out);
    }

    /** Amend requests are unimplemented and panic. */
    method Process(req: OrderRequest, out: EventSink)
      requires Valid() && out !in Repr
      requires req.requestType != AmendOrder
      modifies Repr, out
      ensures Valid() && Repr == old(Repr)
      ensures var outcome := Engines.Process(old(Contents()), req);
              outcome.Done? && Contents() == outcome.engine && out.events == old(out.events) + outcome.events
    {
      hide Arenas.Refines, Links.Inv, Engines.ProcessNew, Engines.ProcessCancel;
      match req.requestType
      case NewOrder => ProcessNew(req, out);
      case CancelOrder => ProcessCancel(req, out);
    }
  }

  /** Any run that meets no amend and no oversized book, carried out on the linked structures, ends where the value-level
      run ends and has emitted the same events. */
  method Drive(cmds: seq<Command>) returns (engine: MatchingEngine, out: EventSink)
    requires NeverPanics(cmds)
    ensures engine.Valid()
    ensures Run(cmds) == Done(engine.Contents(), out.events)
  {
    hide Arenas.Refines, Links.Inv, Engines.Process, AddBook;
    RunPanicsExactly(cmds);
    engine := new MatchingEngine();
    out := new EventSink();
    for i := 0 to |cmds|
      invariant engine.Valid() && out !in engine.Repr
      invariant fresh(engine) && fresh(engine.Repr) && fresh(out)
      invariant Run(cmds[..i]) == Done(engine.Contents(), out.events)
    {
      RunsSoFar(cmds, i + 1);
      RunAppend(cmds[..i], cmds[i]);
      assert cmds[..i] + [cmds[i]] == cmds[..i + 1];
      match cmds[i]
      case AddInstrument(instrumentId, capacity) =>
        AddBookPanics(engine.Contents(), instrumentId, capacity);
        var r := engine.AddInstrument(instrumentId, capacity);
      case Submit(req) =>
        AmendPanics(engine.Contents(), req);
        engine.Process(req, out);
    }
    assert cmds[..|cmds|] == cmds;
  }

  /** A run that ends has not panicked on the way. */
  lemma {:induction false} RunsSoFar(cmds: seq<Command>, i: nat)
    requires Run(cmds).Done? && i <= |cmds|
    ensures Run(cmds[..i]).Done?
    decreases |cmds| - i
  {
    if i == |cmds| {
      assert cmds[..i] == cmds;
    } else {
      RunsSoFar(cmds, i + 1);
      assert cmds[..i + 1][..i] == cmds[..i];
    }
  }
}
