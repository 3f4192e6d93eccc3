/** What holds over every interleaving of the seqlock ring, of any length. */
module SeqlockRuns {
  import opened Types
  import opened Seqlocks

  ghost predicate Step(s: State, t: State) {
    exists a :: Enabled(s, a) && t == Next(s, a)
  }

  /** Every interleaving of any length. */
  ghost predicate IsRun(states: seq<State>) {
    && states != []
    && (exists capacity: nat, width: nat :: capacity > 0 && states[0] == Init(capacity, width))
    && forall i :: 0 < i < |states| ==> Step(states[i - 1], states[i])
  }

  lemma {:induction false} RunKeepsInv(states: seq<State>, i: nat)
    requires IsRun(states) && i < |states|
    ensures Inv(states[i])
  {
    hide Inv, Next, Enabled, Init;
    if i == 0 {
      var capacity: nat, width: nat :| capacity > 0 && states[0] == Init(capacity, width);
      InitOk(capacity, width);
    } else {
      RunKeepsInv(states, i - 1);
      assert Step(states[i - 1], states[i]);
      var a :| Enabled(states[i - 1], a) && states[i] == Next(states[i - 1], a);
      if IsProducerStep(a) {
        ProducerKeepsInv(states[i - 1], a);
      } else {
        ConsumerKeepsInv(states[i - 1], a);
      }
    }
  }

  /** No torn and no wrong read, in any interleaving: whatever a consumer was ever handed as `Ready` is
      the whole value published under the sequence number its cursor had then. */
  lemma {:induction false} NoTornRead(states: seq<State>, i: nat, id: nat, j: nat)
    requires IsRun(states) && i < |states| && id in states[i].consumers
    requires j < |states[i].consumers[id].history| && states[i].consumers[id].history[j].Ready?
    ensures var s, c := states[i], states[i].consumers[id];
            var at := Position(c.start, c.history[..j]);
            at < |s.log| && c.history[j].data == s.log[at]
  {
    RunKeepsInv(states, i);
    assert ConsumerOk(states[i], states[i].consumers[id]);
    assert ResultOk(states[i], states[i].consumers[id], j);
  }

  /** A consumer's cursor is its starting point, plus the values it was handed, plus the slots it was
      told it lost; and every loss it was told of is at least a whole ring. */
  lemma {:induction false} CursorAccountsForEverything(states: seq<State>, i: nat, id: nat)
    requires IsRun(states) && i < |states| && id in states[i].consumers
    ensures var c := states[i].consumers[id];
            && c.cursor == c.start + |Delivered(c.history)| + Lost(c.history)
            && forall j :: 0 <= j < |c.history| && (c.history[j].Skipped? || c.history[j].Halted?) ==>
                 c.history[j].slotsLost >= states[i].capacity
  {
    RunKeepsInv(states, i);
    var c := states[i].consumers[id];
    assert ConsumerOk(states[i], c);
    PositionIs(c.start, c.history);
    forall j | 0 <= j < |c.history| && (c.history[j].Skipped? || c.history[j].Halted?)
      ensures c.history[j].slotsLost >= states[i].capacity
    {
      assert ResultOk(states[i], c, j);
    }
  }

  /** The values handed over, in order. */
  function Delivered(history: seq<PollResult>): seq<Payload> {
    if history == [] then []
    else
      var before := Delivered(history[..|history| - 1]);
      match history[|history| - 1]
      case Ready(data) => before + [data]
      case Empty => before
      case Halted(_, _) => before
      case Skipped(_, _) => before
  }

  function Lost(history: seq<PollResult>): nat {
    if history == [] then 0
    else Lost(history[..|history| - 1])
         + if history[|history| - 1].Skipped? then history[|history| - 1].slotsLost else 0
  }

  lemma {:induction false} PositionIs(start: nat, history: seq<PollResult>)
    ensures Position(start, history) == start + |Delivered(history)| + Lost(history)
  {
    if history != [] {
      PositionIs(start, history[..|history| - 1]);
    }
  }

  /** Between any two results a position moves by the deliveries and the losses in between. */
  lemma {:induction false} PositionsAdvance(start: nat, history: seq<PollResult>, i: nat, j: nat)
    requires i <= j <= |history|
    ensures Position(start, history[..j]) ==
            Position(start, history[..i]) + |Delivered(history[i..j])| + Lost(history[i..j])
    ensures i < j && history[i].Ready? ==> |Delivered(history[i..j])| > 0
    decreases j
  {
    if i < j {
      assert history[..j][..j - 1] == history[..j - 1] && history[i..j][..j - 1 - i] == history[i..j - 1];
      PositionsAdvance(start, history, i, j - 1);
    }
  }

  /** The consumer of a reachable state: its position before each result lies in the log. */
  lemma {:induction false} PositionsInLog(s: State, c: Consumer, j: nat)
    requires RingOk(s) && ConsumerOk(s, c) && j <= |c.history|
    ensures Position(c.start, c.history[..j]) <= c.cursor <= |s.log|
  {
    PositionsAdvance(c.start, c.history, j, |c.history|);
    assert c.history[..|c.history|] == c.history;
  }

  lemma {:induction false} DeliveredIsSlice(s: State, c: Consumer, i: nat, j: nat)
    requires RingOk(s) && ConsumerOk(s, c) && i <= j <= |c.history|
    requires forall k :: i <= k < j ==> !c.history[k].Skipped?
    ensures Position(c.start, c.history[..i]) <= Position(c.start, c.history[..j]) <= |s.log|
    ensures Delivered(c.history[i..j]) == s.log[Position(c.start, c.history[..i])..Position(c.start, c.history[..j])]
    decreases j
  {
    hide RingOk, ReadOk;
    PositionsInLog(s, c, j);
    if i < j {
      DeliveredIsSlice(s, c, i, j - 1);
      assert c.history[..j][..j - 1] == c.history[..j - 1] && c.history[i..j][..j - 1 - i] == c.history[i..j - 1];
      assert ResultOk(s, c, j - 1);
    }
  }

  /** Between skips, delivery is gapless, whatever the policy: over any stretch of results without a
      skip a consumer is handed exactly the log from its position before to its position after. */
  lemma {:induction false} ContiguousBetweenSkips(states: seq<State>, n: nat, id: nat, i: nat, j: nat)
    requires IsRun(states) && n < |states| && id in states[n].consumers
    requires i <= j <= |states[n].consumers[id].history|
    requires forall k :: i <= k < j ==> !states[n].consumers[id].history[k].Skipped?
    ensures var s, c := states[n], states[n].consumers[id];
            var p, q := Position(c.start, c.history[..i]), Position(c.start, c.history[..j]);
            p <= q <= |s.log| && Delivered(c.history[i..j]) == s.log[p..q]
  {
    RunKeepsInv(states, n);
    assert ConsumerOk(states[n], states[n].consumers[id]);
    DeliveredIsSlice(states[n], states[n].consumers[id], i, j);
  }

  /** Nothing is handed over twice or out of order: of two `Ready` results the later carries the later
      log entry, and the entries between the two were all handed over or reported lost. */
  lemma {:induction false} DeliveriesFollowLog(states: seq<State>, n: nat, id: nat, j: nat, k: nat)
    requires IsRun(states) && n < |states| && id in states[n].consumers
    requires j < k < |states[n].consumers[id].history|
    requires states[n].consumers[id].history[j].Ready? && states[n].consumers[id].history[k].Ready?
    ensures var s, c := states[n], states[n].consumers[id];
            var p, q := Position(c.start, c.history[..j]), Position(c.start, c.history[..k]);
            && p < q < |s.log|
            && c.history[j].data == s.log[p] && c.history[k].data == s.log[q]
            && q - p == |Delivered(c.history[j..k])| + Lost(c.history[j..k])
  {
    NoTornRead(states, n, id, j);
    NoTornRead(states, n, id, k);
    PositionsAdvance(states[n].consumers[id].start, states[n].consumers[id].history, j, k);
  }

  /** A Halt consumer is handed exactly the log from its subscription point up to its cursor, with no
      gap; once lapped, every result from then on is the same `Halted` at that cursor. */
  lemma {:induction false} HaltDeliversWithoutGaps(states: seq<State>, i: nat, id: nat)
    requires IsRun(states) && i < |states| && id in states[i].consumers
    requires states[i].consumers[id].policy == Halt
    ensures var s, c := states[i], states[i].consumers[id];
            && c.start <= c.cursor <= |s.log|
            && Delivered(c.history) == s.log[c.start..c.cursor]
            && forall j, k :: 0 <= j <= k < |c.history| && c.history[j].Halted? ==>
                 c.history[k] == c.history[j] && c.history[j].lastSafeSeq == c.cursor
  {
    RunKeepsInv(states, i);
    var s, c := states[i], states[i].consumers[id];
    assert ConsumerOk(s, c);
    forall k | 0 <= k < |c.history|
      ensures !c.history[k].Skipped?
    {
      assert ResultOk(s, c, k);
    }
    DeliveredIsSlice(s, c, 0, |c.history|);
    assert c.history[..|c.history|] == c.history == c.history[0..|c.history|];
    forall j, k | 0 <= j <= k < |c.history| && c.history[j].Halted?
      ensures c.history[k] == c.history[j] && c.history[j].lastSafeSeq == c.cursor
    {
      assert ResultOk(s, c, j);
    }
  }

  /** No step but subscribing sets a consumer's starting point or its policy. */
  lemma {:induction false} StartKept(s: State, t: State, id: nat)
    requires Step(s, t) && id in s.consumers
    ensures id in t.consumers
    ensures t.consumers[id].start == s.consumers[id].start && t.consumers[id].policy == s.consumers[id].policy
  {
    hide Expected, EvenVersion, OddVersion, WellShaped, Mod64;
    var a :| Enabled(s, a) && t == Next(s, a);
  }

  /** A consumer counts from what was published when it subscribed, under the policy it asked for, for
      the rest of the run. */
  lemma {:induction false} StartsAtPublished(states: seq<State>, i: nat, k: nat, id: nat, policy: LapPolicy)
    requires IsRun(states) && i < k < |states|
    requires Enabled(states[i], Subscribe(id, policy)) && states[i + 1] == Next(states[i], Subscribe(id, policy))
    ensures id in states[k].consumers
    ensures states[k].consumers[id].start == states[i].published && states[k].consumers[id].policy == policy
    decreases k
  {
    hide Step, Inv, Init;
    if i + 1 == k {
      RunKeepsInv(states, i);
      ConsumerKeepsInv(states[i], Subscribe(id, policy));
    } else {
      StartsAtPublished(states, i, k - 1, id, policy);
      assert Step(states[k - 1], states[k]);
      StartKept(states[k - 1], states[k], id);
    }
  }

  /** From its subscription on, a Halt consumer has been handed exactly what was published since, up to
      its cursor. */
  lemma {:induction false} HaltDeliversFromSubscription(states: seq<State>, i: nat, k: nat, id: nat)
    requires IsRun(states) && i < k < |states|
    requires Enabled(states[i], Subscribe(id, Halt)) && states[i + 1] == Next(states[i], Subscribe(id, Halt))
    ensures id in states[k].consumers
    ensures var s, c := states[k], states[k].consumers[id];
            && states[i].published <= c.cursor <= |s.log|
            && Delivered(c.history) == s.log[states[i].published..c.cursor]
            && forall j, m :: 0 <= j <= m < |c.history| && c.history[j].Halted? ==>
                 c.history[m] == c.history[j] && c.history[j].lastSafeSeq == c.cursor
  {
    hide Enabled, Next;
    StartsAtPublished(states, i, k, id, Halt);
    HaltDeliversWithoutGaps(states, k, id);
  }

  /** `c'` is the halted consumer `c` some polls later: nothing but the same answer added. */
  ghost predicate Frozen(c: Consumer, c': Consumer) {
    && c.halted.Some? && c'.halted == c.halted && c'.cursor == c.cursor
    && c.history <= c'.history
    && forall j :: |c.history| <= j < |c'.history| ==> c'.history[j] == Halted(c.cursor, c.halted.value)
  }

  lemma {:induction false} StillFrozen(c: Consumer, c': Consumer)
    requires Frozen(c, c')
    ensures Frozen(c, Returns(c', Halted(c'.cursor, c'.halted.value)))
  {
  }

  /** Once halted, a consumer never moves again, whatever else happens. */
  lemma {:induction false} HaltedForever(states: seq<State>, i: nat, k: nat, id: nat)
    requires IsRun(states) && i <= k < |states| && id in states[i].consumers
    requires states[i].consumers[id].halted.Some?
    ensures id in states[k].consumers && Frozen(states[i].consumers[id], states[k].consumers[id])
    decreases k
  {
    hide Inv, Step, Init;
    if i < k {
      HaltedForever(states, i, k - 1, id);
      RunKeepsInv(states, k - 1);
      assert Step(states[k - 1], states[k]);
      FrozenStep(states[k - 1], states[k], id, states[i].consumers[id]);
    }
  }

  lemma {:induction false} FrozenStep(s: State, t: State, id: nat, c: Consumer)
    requires Inv(s) && Step(s, t) && id in s.consumers && Frozen(c, s.consumers[id])
    ensures id in t.consumers && Frozen(c, t.consumers[id])
  {
    StillFrozen(c, s.consumers[id]);
    assert s.consumers[id].halted.Some?;
    hide Inv, Enabled, Next, Frozen, Returns;
    var a :| Enabled(s, a) && t == Next(s, a);
    HaltedStays(s, a, id);
  }

  lemma {:induction false} HaltedStays(s: State, a: Action, id: nat)
    requires Inv(s) && Enabled(s, a) && id in s.consumers && s.consumers[id].halted.Some?
    ensures id in Next(s, a).consumers
    ensures var c, c' := s.consumers[id], Next(s, a).consumers[id];
            c' == c || c' == Returns(c, Halted(c.cursor, c.halted.value))
  {
  }

  /** A consumer between polls changes only by a poll that returns or is still under way. */
  lemma {:induction false} PollReturnsOrRuns(s: State, t: State, id: nat)
    requires Step(s, t) && id in s.consumers
    ensures id in t.consumers
    ensures var c, c' := s.consumers[id], t.consumers[id];
            || c' == c
            || |c'.history| > |c.history|
            || (|c'.history| == |c.history| && !c'.pc.AtRest?)
  {
    hide Expected, EvenVersion, OddVersion, WellShaped, Mod64;
    var a :| Enabled(s, a) && t == Next(s, a);
  }

  /** While no poll of the consumer has returned, it is as it was or in the middle of a poll. */
  lemma {:induction false} UntilNextResult(states: seq<State>, i: nat, k: nat, id: nat)
    requires IsRun(states) && i <= k < |states| && id in states[i].consumers
    ensures id in states[k].consumers
    ensures var c, c' := states[i].consumers[id], states[k].consumers[id];
            || c' == c
            || |c'.history| > |c.history|
            || (|c'.history| == |c.history| && !c'.pc.AtRest?)
    decreases k
  {
    hide Step, Init;
    if i < k {
      UntilNextResult(states, i, k - 1, id);
      assert Step(states[k - 1], states[k]);
      PollReturnsOrRuns(states[k - 1], states[k], id);
    }
  }

  /** A poll whose second version load finds another version returns `Empty` and leaves the cursor
      where it was; and when that consumer's next poll comes to its first load, however many steps
      later, it finds the lap. */
  lemma {:induction false} TornReadReportsLap(states: seq<State>, i: nat, k: nat, id: nat)
    requires IsRun(states) && i + 1 <= k < |states|
    requires Enabled(states[i], LoadSecond(id)) && states[i + 1] == Next(states[i], LoadSecond(id))
    requires var s, cursor := states[i], states[i].consumers[id].cursor;
             s.slots[SlotOf(s, cursor)].version != Expected(s, states[i].consumers[id])
    requires Enabled(states[k], LoadFirst(id))
    requires |states[k].consumers[id].history| == |states[i].consumers[id].history| + 1
    ensures var c, c' := states[i].consumers[id], states[k].consumers[id];
            c'.cursor == c.cursor && c'.history == c.history + [Empty]
    ensures Next(states[k], LoadFirst(id)).consumers[id].pc.Lapped?
  {
    hide Step, Init, Inv;
    UntilNextResult(states, i + 1, k, id);
    RunKeepsInv(states, k);
    TornMeansLapped(states[k], id);
  }

  lemma {:induction false} TornMeansLapped(s: State, id: nat)
    requires Inv(s) && Enabled(s, LoadFirst(id)) && s.consumers[id].torn
    ensures Next(s, LoadFirst(id)).consumers[id].pc.Lapped?
  {
    assert ConsumerOk(s, s.consumers[id]);
    FirstLoadIsExact(s, s.consumers[id]);
  }

  /** When a lapped consumer comes to load `published`, the subtraction does not wrap and the loss it
      reports is at least a whole ring. */
  lemma {:induction false} LapNeverUnderflows(states: seq<State>, i: nat, id: nat)
    requires IsRun(states) && i < |states| && id in states[i].consumers && states[i].consumers[id].pc.Lapped?
    ensures var s, c := states[i], states[i].consumers[id];
            Mod64(s.published - c.cursor) == s.published - c.cursor >= s.capacity
  {
    RunKeepsInv(states, i);
    assert ConsumerOk(states[i], states[i].consumers[id]);
    LapKeeps(states[i], states[i].consumers[id]);
  }
}
