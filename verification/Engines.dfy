/** The multi-instrument engine as a value: request processing, id minting and whole runs. A panic
    of the program is the outcome `Panics`. */
module Engines {
  import opened Types
  import opened Books
  import opened Matching
  import Arenas

  datatype Engine = Engine(books: map<u32, Book>, nextOrderId: u64)

  datatype Command =
    | AddInstrument(instrumentId: u32, capacity: u32)
    | Submit(req: OrderRequest)

  datatype Outcome = Panics | Done(engine: Engine, events: seq<OrderEvent>)

  const EMPTY_ENGINE: Engine := Engine(map[], 0)

  datatype AddResult = Added | AlreadyRegistered | InvalidCapacity

  /** The capacity test rejects 0 and `MAX_CAPACITY` only; `u32::MAX` goes on to the arena's assertion. */
  function AddBook(e: Engine, instrumentId: u32, capacity: u32): (Outcome, AddResult) {
    if capacity == 0 || capacity == Arenas.MAX_CAPACITY then (Done(e, []), InvalidCapacity)
    else if instrumentId in e.books then (Done(e, []), AlreadyRegistered)
    else if capacity == U32_MAX then (Panics, Added)
    else (Done(e.(books := e.books[instrumentId := Book(capacity, [])]), []), Added)
  }

  function ProcessNew(e: Engine, req: OrderRequest): (Engine, seq<OrderEvent>) {
    if req.instrumentId !in e.books then (e, [RejectEvent(req, UnknownInstrument, req.quantity)])
    else if req.quantity == 0 then (e, [RejectEvent(req, InvalidQuantity, req.quantity)])
    else if req.price == 0 then (e, [RejectEvent(req, InvalidPrice, req.quantity)])
    else
      var m := MatchLimit(e.books[req.instrumentId], req, e.nextOrderId);
      (Engine(e.books[req.instrumentId := m.book], WrapAdd(e.nextOrderId, 1)), m.events)
  }

  function ProcessCancel(e: Engine, req: OrderRequest): (Engine, seq<OrderEvent>) {
    if req.instrumentId !in e.books then (e, [RejectEvent(req, UnknownInstrument, 0)])
    else
      var (book, order) := CancelHash(e.books[req.instrumentId], req.intentHash);
      match order
      case Some(o) => (e.(books := e.books[req.instrumentId := book]), [CancelEvent(req, o.orderId)])
      case None => (e, [RejectEvent(req, UnknownOrder, 0)])
  }

  /** Amending is unimplemented and panics. */
  function Process(e: Engine, req: OrderRequest): Outcome {
    match req.requestType
    case NewOrder => var (e', events) := ProcessNew(e, req); Done(e', events)
    case CancelOrder => var (e', events) := ProcessCancel(e, req); Done(e', events)
    case AmendOrder => Panics
  }

  function Step(e: Engine, cmd: Command): Outcome {
    match cmd
    case AddInstrument(i, capacity) => AddBook(e, i, capacity).0
    case Submit(req) => Process(e, req)
  }

  /** The engine and all the events after a run from an empty engine. */
  function Run(cmds: seq<Command>): Outcome {
    if cmds == [] then Done(EMPTY_ENGINE, [])
    else
      match Run(cmds[..|cmds| - 1])
      case Panics => Panics
      case Done(e, events) =>
        match Step(e, cmds[|cmds| - 1])
        case Panics => Panics
        case Done(e', more) => Done(e', events + more)
  }

  /** A longer run is the shorter run and one more step. */
  lemma {:induction false} RunAppend(cmds: seq<Command>, cmd: Command)
    requires Run(cmds).Done?
    ensures Run(cmds + [cmd]) ==
            match Step(Run(cmds).engine, cmd)
            case Panics => Panics
            case Done(e, more) => Done(e, Run(cmds).events + more)
  {
    assert (cmds + [cmd])[..|cmds|] == cmds;
  }

  /** Every event of a run was emitted by one of its commands. */
  lemma {:induction false} EventOrigin(cmds: seq<Command>, x: nat) returns (k: nat, y: nat)
    requires Run(cmds).Done? && x < |Run(cmds).events|
    ensures k < |cmds| && Run(cmds[..k]).Done? && Step(Run(cmds[..k]).engine, cmds[k]).Done?
    ensures y < |Step(Run(cmds[..k]).engine, cmds[k]).events|
    ensures Run(cmds).events[x] == Step(Run(cmds[..k]).engine, cmds[k]).events[y]
  {
    hide Step;
    var prefix := cmds[..|cmds| - 1];
    if x < |Run(prefix).events| {
      k, y := EventOrigin(prefix, x);
      assert prefix[..k] == cmds[..k];
    } else {
      k, y := |cmds| - 1, x - |Run(prefix).events|;
    }
  }

  // ---------------------------------------------------------------------------
  // Which runs panic
  // ---------------------------------------------------------------------------

  lemma AddBookPanics(e: Engine, instrumentId: u32, capacity: u32)
    ensures AddBook(e, instrumentId, capacity).0.Panics? <==> capacity == U32_MAX && instrumentId !in e.books
    ensures AddBook(e, instrumentId, capacity).0.Done? ==> AddBook(e, instrumentId, capacity).0.events == []
  {
  }

  lemma AmendPanics(e: Engine, req: OrderRequest)
    ensures Process(e, req).Panics? <==> req.requestType == AmendOrder
  {
  }

  /** Command `k` leaves `i` registered, whether or not it was before. */
  ghost predicate Registers(cmds: seq<Command>, k: nat, i: u32) {
    && k < |cmds| && cmds[k].AddInstrument? && cmds[k].instrumentId == i
    && cmds[k].capacity != 0 && cmds[k].capacity != Arenas.MAX_CAPACITY && cmds[k].capacity != U32_MAX
  }

  ghost predicate RegisteredBefore(cmds: seq<Command>, k: nat, i: u32) {
    exists j :: 0 <= j < k && Registers(cmds, j, i)
  }

  /** No command is an amend, and a capacity of `u32::MAX` is asked for only where an instrument is
      registered already. */
  ghost predicate NeverPanics(cmds: seq<Command>) {
    forall k :: 0 <= k < |cmds| ==> SafeAt(cmds, k)
  }

  ghost predicate SafeAt(cmds: seq<Command>, k: nat)
    requires k < |cmds|
  {
    match cmds[k]
    case Submit(req) => req.requestType != AmendOrder
    case AddInstrument(i, capacity) => capacity == U32_MAX ==> RegisteredBefore(cmds, k, i)
  }

  lemma {:induction false} StepBooks(e: Engine, cmd: Command)
    requires Step(e, cmd).Done?
    ensures forall i :: i in Step(e, cmd).engine.books <==> i in e.books || Registers([cmd], 0, i)
  {
    hide MatchLimit, CancelHash, Mod64;
  }

  /** Registrations among the first commands do not depend on the ones that follow. */
  lemma {:induction false} RegisteredEarly(cmds: seq<Command>, cmd: Command, k: nat, i: u32)
    requires k <= |cmds|
    ensures RegisteredBefore(cmds + [cmd], k, i) <==> RegisteredBefore(cmds, k, i)
  {
    assert forall j: nat :: j < |cmds| ==> (Registers(cmds + [cmd], j, i) <==> Registers(cmds, j, i));
  }

  lemma {:induction false} RegisteredAppend(cmds: seq<Command>, cmd: Command, i: u32)
    ensures RegisteredBefore(cmds + [cmd], |cmds| + 1, i) <==> RegisteredBefore(cmds, |cmds|, i) || Registers([cmd], 0, i)
  {
    assert forall j: nat :: j < |cmds| ==> (Registers(cmds + [cmd], j, i) <==> Registers(cmds, j, i));
    assert Registers(cmds + [cmd], |cmds|, i) <==> Registers([cmd], 0, i);
  }

  lemma {:induction false} SafeAppend(cmds: seq<Command>, cmd: Command)
    ensures NeverPanics(cmds + [cmd]) <==> NeverPanics(cmds) && SafeAt(cmds + [cmd], |cmds|)
  {
    var longer := cmds + [cmd];
    forall k | 0 <= k < |cmds|
      ensures SafeAt(longer, k) <==> SafeAt(cmds, k)
    {
      if cmds[k].AddInstrument? {
        RegisteredEarly(cmds, cmd, k, cmds[k].instrumentId);
      }
    }
  }

  /** A run comes to its end exactly when no command of it is one that panics, and then the books are
      those of the instruments registered on the way. */
  lemma {:induction false} RunPanicsExactly(cmds: seq<Command>)
    ensures Run(cmds).Done? <==> NeverPanics(cmds)
    ensures Run(cmds).Done? ==> forall i :: i in Run(cmds).engine.books <==> RegisteredBefore(cmds, |cmds|, i)
  {
    hide Step, RegisteredBefore, SafeAt;
    if cmds != [] {
      var prefix, last := cmds[..|cmds| - 1], cmds[|cmds| - 1];
      assert cmds == prefix + [last];
      RunPanicsExactly(prefix);
      SafeAppend(prefix, last);
      if Run(prefix).Done? {
        StepPanics(prefix, last);
      }
      if Run(cmds).Done? {
        forall i: u32
          ensures i in Run(cmds).engine.books <==> RegisteredBefore(cmds, |cmds|, i)
        {
          StepBooks(Run(prefix).engine, last);
          RegisteredAppend(prefix, last, i);
        }
      }
    } else {
      NothingRegistered();
    }
  }

  lemma NothingRegistered()
    ensures forall i :: !RegisteredBefore([], 0, i)
  {
  }

  lemma {:induction false} StepPanics(cmds: seq<Command>, cmd: Command)
    requires Run(cmds).Done?
    requires forall i :: i in Run(cmds).engine.books <==> RegisteredBefore(cmds, |cmds|, i)
    ensures Step(Run(cmds).engine, cmd).Done? <==> SafeAt(cmds + [cmd], |cmds|)
  {
    match cmd
    case AddInstrument(i, capacity) =>
      AddBookPanics(Run(cmds).engine, i, capacity);
      RegisteredEarly(cmds, cmd, |cmds|, i);
    case Submit(req) => AmendPanics(Run(cmds).engine, req);
  }
}
