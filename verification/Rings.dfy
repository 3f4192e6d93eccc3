/** `publish` and `poll` as they are called, with the other threads taking steps in between. */
module Rings {
  import opened Types
  import opened Seqlocks

  /** Steps that belong to nobody but other consumers and, for a consumer, the producer. */
  predicate Foreign(a: Action, id: nat) {
    IsProducerStep(a) || a.id != id
  }

  lemma {:induction false} StepKeepsInv(s: State, a: Action)
    requires Inv(s) && Enabled(s, a)
    ensures Inv(Next(s, a))
    ensures s.log <= Next(s, a).log && Complete(s) <= Complete(Next(s, a))
    ensures Next(s, a).capacity == s.capacity && Next(s, a).width == s.width
    ensures !IsProducerStep(a) ==> Next(s, a).pc == s.pc && Next(s, a).published == s.published && Next(s, a).log == s.log
    ensures forall id :: id in s.consumers && Foreign(a, id) ==>
              id in Next(s, a).consumers && Next(s, a).consumers[id] == s.consumers[id]
  {
    if IsProducerStep(a) {
      ProducerKeepsInv(s, a);
    } else {
      ConsumerKeepsInv(s, a);
    }
  }

  class Ring {
    var state: State

    constructor (capacity: nat, width: nat)
      requires capacity > 0
      ensures Inv(state) && state == Init(capacity, width)
      ensures state.published == 0 && state.log == [] && state.pc == Idle && state.consumers == map[]
    {
      state := Init(capacity, width);
      InitOk(capacity, width);
    }

    /** Let other threads take the given steps; a step that is not possible at its turn does not happen. */
    method Others(steps: seq<Action>)
      requires Inv(state)
      modifies this
      ensures Inv(state)
      ensures old(state).log <= state.log && Complete(old(state)) <= Complete(state)
      ensures state.capacity == old(state).capacity && state.width == old(state).width
      ensures (forall a :: a in steps ==> !IsProducerStep(a)) ==>
                state.pc == old(state).pc && state.published == old(state).published && state.log == old(state).log
      ensures forall id :: id in old(state).consumers && (forall a :: a in steps ==> Foreign(a, id)) ==>
                id in state.consumers && state.consumers[id] == old(state).consumers[id]
    {
      hide Inv, Next, Enabled, Complete;
      for i := 0 to |steps|
        invariant Inv(state)
        invariant old(state).log <= state.log && Complete(old(state)) <= Complete(state)
        invariant state.capacity == old(state).capacity && state.width == old(state).width
        invariant (forall a :: a in steps ==> !IsProducerStep(a)) ==>
                    state.pc == old(state).pc && state.published == old(state).published && state.log == old(state).log
        invariant forall id :: id in old(state).consumers && (forall a :: a in steps ==> Foreign(a, id)) ==>
                    id in state.consumers && state.consumers[id] == old(state).consumers[id]
      {
        if Enabled(state, steps[i]) {
          StepKeepsInv(state, steps[i]);
          state := Next(state, steps[i]);
        }
      }
    }

    /** One own step, then whatever the others do. */
    method Take(a: Action, others: seq<Action>)
      requires Inv(state) && Enabled(state, a)
      modifies this
      ensures Inv(state)
      ensures Next(old(state), a).log <= state.log && Complete(Next(old(state), a)) <= Complete(state)
      ensures state.capacity == old(state).capacity && state.width == old(state).width
      ensures (forall b :: b in others ==> !IsProducerStep(b)) ==>
                var t := Next(old(state), a); state.pc == t.pc && state.published == t.published && state.log == t.log
      ensures var t := Next(old(state), a);
              forall id :: id in t.consumers && (forall b :: b in others ==> Foreign(b, id)) ==>
                id in state.consumers && state.consumers[id] == t.consumers[id]
    {
      hide Inv, Next, Enabled, Complete;
      StepKeepsInv(state, a);
      state := Next(state, a);
      Others(others);
    }

    /** `publish`, with any consumers running between its stores. */
    method Publish(value: Payload, others: nat -> seq<Action>) returns (seqno: nat)
      requires Inv(state) && state.pc.Idle? && |value| == state.width
      requires SeqFits(state.published + 1, state.capacity)
      requires forall n: nat, a :: a in others(n) ==> !IsProducerStep(a)
      modifies this
      ensures Inv(state) && state.pc.Idle?
      ensures seqno == old(state).published && state.published == seqno + 1
      ensures state.log == old(state).log + [value]
    {
      hide RingOk, ConsumerOk;
      RingFacts(state);
      seqno := state.published;
      Take(StoreOdd(value), others(0));
      for k := 0 to |value|
        invariant Inv(state) && state.pc.Writing? && forall n :: n in state.pc.done <==> 0 <= n < k
        invariant state.published == seqno && state.log == old(state).log + [value]
        invariant state.width == old(state).width
      {
        RingFacts(state);
        Take(WriteWord(k), others(k + 1));
      }
      RingFacts(state);
      Take(StoreEven, others(|value| + 1));
      RingFacts(state);
      Take(StorePublished, others(|value| + 2));
    }

    /** `subscribe`: a consumer that will see what is published from now on. */
    method Subscribe(id: nat, policy: LapPolicy)
      requires Inv(state) && id !in state.consumers
      modifies this
      ensures Inv(state) && id in state.consumers
      ensures state.log == old(state).log && state.published == old(state).published && state.pc == old(state).pc
      ensures var c := state.consumers[id];
              && c.cursor == state.published && c.policy == policy && c.halted == None
              && c.pc == AtRest && c.history == []
      ensures forall other :: other in old(state).consumers ==>
                other in state.consumers && state.consumers[other] == old(state).consumers[other]
    {
      hide RingOk, ConsumerOk;
      RingFacts(state);
      ConsumerKeepsInv(state, Action.Subscribe(id, policy));
      Take(Action.Subscribe(id, policy), []);
    }

    /** What a finished poll that began in `before` says: the value at the cursor; that the value was
        not complete when the poll began, or is overwritten now; or, as the policy wants it, how far
        the consumer has fallen behind `published`. */
    ghost predicate Polled(before: State, c: Consumer, c': Consumer, r: Option<PollResult>)
      reads this
    {
      match r
      case None => c'.cursor == c.cursor && c.policy == Panic && c'.pc.Panicked?
      case Some(Ready(data)) => c'.cursor == c.cursor + 1 && c.cursor < |state.log| && data == state.log[c.cursor]
      case Some(Empty) => c'.cursor == c.cursor && (c.cursor >= Complete(before) || |state.log| > c.cursor + state.capacity)
      case Some(Skipped(lost, newSeq)) =>
        Skips(c.policy) && c'.cursor == newSeq == c.cursor + lost == state.published && lost >= state.capacity
      case Some(Halted(last, lost)) =>
        && c.policy == Halt && c'.cursor == last == c.cursor
        && lost >= state.capacity && c'.halted == Some(lost)
        && (if c.halted.None? then last + lost == state.published else c'.halted == c.halted)
    }

    /** The copy out of the slot, word by word. */
    method ReadWords(id: nat, others: nat -> seq<Action>)
      requires Inv(state) && id in state.consumers && state.consumers[id].pc == Reading(map[])
      requires forall n: nat, a :: a in others(n) ==> Foreign(a, id)
      modifies this
      ensures Inv(state) && id in state.consumers && state.consumers[id].pc.Reading?
      ensures state.capacity == old(state).capacity
      ensures state.consumers[id] == old(state).consumers[id].(pc := state.consumers[id].pc)
      ensures forall k :: 0 <= k < state.width ==> k in state.consumers[id].pc.got
    {
      hide RingOk, ConsumerOk, AfterFirstLoad, AfterSecondLoad, AfterLap, Complete, SlotOf;
      RingFacts(state);
      ghost var c := state.consumers[id];
      for k := 0 to state.width
        invariant Inv(state) && id in state.consumers && state.width == old(state).width
        invariant state.capacity == old(state).capacity
        invariant state.consumers[id] == c.(pc := state.consumers[id].pc)
        invariant state.consumers[id].pc.Reading? && forall n :: n in state.consumers[id].pc.got <==> 0 <= n < k
      {
        RingFacts(state);
        Take(ReadWord(id, k), others(k + 2));
      }
    }

    /** The copy out of the slot and the second version load. */
    method CopyOut(id: nat, others: nat -> seq<Action>) returns (r: PollResult)
      requires Inv(state) && id in state.consumers && state.consumers[id].pc == Reading(map[])
      requires forall n: nat, a :: a in others(n) ==> Foreign(a, id)
      modifies this
      ensures Inv(state) && id in state.consumers && state.consumers[id].pc.AtRest?
      ensures state.capacity == old(state).capacity
      ensures if |state.log| <= old(state).consumers[id].cursor + state.capacity then r.Ready? else r == Empty
      ensures Polled(old(state), old(state).consumers[id], state.consumers[id], Some(r))
    {
      hide Inv;
      ReadWords(id, others);
      r := FinishRead(id);
    }

    method FinishRead(id: nat) returns (r: PollResult)
      requires Inv(state) && id in state.consumers && state.consumers[id].pc.Reading?
      requires forall k :: 0 <= k < state.width ==> k in state.consumers[id].pc.got
      modifies this
      ensures Inv(state) && id in state.consumers && state.consumers[id].pc.AtRest?
      ensures state.capacity == old(state).capacity
      ensures if |state.log| <= old(state).consumers[id].cursor + state.capacity then r.Ready? else r == Empty
      ensures Polled(old(state), old(state).consumers[id], state.consumers[id], Some(r))
    {
      hide RingOk, HistoryOk, ReadOk;
      RingFacts(state);
      SecondLoadIsWhole(state, state.consumers[id]);
      Take(LoadSecond(id), []);
      r := LastResult(state.consumers[id]);
    }

    /** The lap policy, applied to the `published` it loads. */
    method ApplyLapPolicy(id: nat) returns (r: Option<PollResult>)
      requires Inv(state) && id in state.consumers && state.consumers[id].pc.Lapped?
      modifies this
      ensures Inv(state) && id in state.consumers
      ensures state.log == old(state).log && state.capacity == old(state).capacity
      ensures r.Some? ==> state.consumers[id].pc.AtRest? && (r.value.Skipped? || r.value.Halted?)
      ensures Polled(old(state), old(state).consumers[id], state.consumers[id], r)
    {
      hide RingOk, HistoryOk, ReadOk;
      RingFacts(state);
      LapKeeps(state, state.consumers[id]);
      NotHaltedWhileReading(state, state.consumers[id]);
      hide Mod64;
      Take(LoadPublished(id), []);
      if state.consumers[id].pc.Panicked? {
        return None;
      }
      return Some(LastResult(state.consumers[id]));
    }

    /** `poll`, with the producer and other consumers running between its loads. `None` is a panic. A
        value that was complete before and is not being overwritten afterwards is always delivered. */
    method Poll(id: nat, others: nat -> seq<Action>) returns (r: Option<PollResult>)
      requires Inv(state) && id in state.consumers && state.consumers[id].pc.AtRest?
      requires forall n: nat, a :: a in others(n) ==> Foreign(a, id)
      modifies this
      ensures Inv(state) && id in state.consumers
      ensures r.Some? ==> state.consumers[id].pc.AtRest?
      ensures Polled(old(state), old(state).consumers[id], state.consumers[id], r)
      ensures var c := old(state).consumers[id];
              c.halted.None? && c.cursor < Complete(old(state)) && |state.log| <= c.cursor + state.capacity ==>
                r.Some? && r.value.Ready?
    {
      hide RingOk, ConsumerOk;
      RingFacts(state);
      ghost var c := state.consumers[id];
      if state.consumers[id].halted.Some? {
        HaltedValue(state, c);
        r := Some(Halted(state.consumers[id].cursor, state.consumers[id].halted.value));
        Take(PollHalted(id), []);
        return;
      }
      Others(others(0));
      r := Attempt(id, others);
    }

    /** The rest of `poll` for a consumer that has not halted. */
    method Attempt(id: nat, others: nat -> seq<Action>) returns (r: Option<PollResult>)
      requires Inv(state) && id in state.consumers && state.consumers[id].pc.AtRest? && state.consumers[id].halted.None?
      requires forall n: nat, a :: a in others(n) ==> Foreign(a, id)
      modifies this
      ensures Inv(state) && id in state.consumers && state.capacity == old(state).capacity
      ensures r.Some? ==> state.consumers[id].pc.AtRest?
      ensures Polled(old(state), old(state).consumers[id], state.consumers[id], r)
      ensures var c := old(state).consumers[id];
              c.cursor < Complete(old(state)) && |state.log| <= c.cursor + state.capacity ==> r.Some? && r.value.Ready?
    {
      hide RingOk, ConsumerOk, Expected, AfterSecondLoad, AfterLap;
      RingFacts(state);
      FirstLoadIsExact(state, state.consumers[id]);
      Take(LoadFirst(id), others(1));
      if state.consumers[id].pc.AtRest? {
        return Some(Empty);
      }
      if state.consumers[id].pc.Lapped? {
        r := ApplyLapPolicy(id);
        return;
      }
      var result := CopyOut(id, others);
      return Some(result);
    }
  }

  function LastResult(c: Consumer): PollResult
    requires c.history != []
  {
    c.history[|c.history| - 1]
  }

  lemma HaltedValue(s: State, c: Consumer)
    requires Inv(s) && c in s.consumers.Values && c.halted.Some?
    ensures c.halted.value >= s.capacity && c.pc.AtRest? && c.policy == Halt
  {
  }
}
