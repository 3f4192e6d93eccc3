/** The single-producer, many-consumer seqlock ring as a transition system. Every store and every
    load is a step of its own, payloads are written and read word by word in any order, and the steps
    of the producer and of any number of consumers interleave freely. Steps become visible in
    program order. */
module Seqlocks {
  import opened Types
  import opened Arithmetic

  type Word = u64
  type Payload = seq<Word>

  /** `owner` records which sequence number was last begun in the slot; the code does not store it. */
  datatype Slot = Slot(version: nat, words: Payload, owner: int)

  datatype LapPolicy = Halt | Panic | SkipAndAlert | SkipToLatest

  datatype PollResult =
    | Ready(data: Payload)
    | Empty
    | Halted(lastSafeSeq: nat, slotsLost: nat)
    | Skipped(slotsLost: nat, newSeq: nat)

  /** Where `publish` stands: between calls, after the odd store with `done` words written, or after
      the even store and before `published` is stored. */
  datatype ProducerPc = Idle | Writing(done: set<nat>) | Committed

  /** Where `poll` stands: between calls, after the first version load with the words read so far,
      or on the way to loading `published`; or the consumer has panicked. */
  datatype ConsumerPc = AtRest | Reading(got: map<nat, Word>) | Lapped | Panicked

  /** `start`, `history` and `torn` record the subscription point, the results so far and whether the
      last poll gave up on its second version load; the code does not store them. */
  datatype Consumer = Consumer(
    cursor: nat,
    policy: LapPolicy,
    halted: Option<nat>,
    pc: ConsumerPc,
    start: nat,
    history: seq<PollResult>,
    torn: bool)

  /** `log` records every value handed to `publish`, in order. */
  datatype State = State(
    capacity: nat,
    width: nat,
    slots: seq<Slot>,
    published: nat,
    pc: ProducerPc,
    consumers: map<nat, Consumer>,
    log: seq<Payload>)

  function OddVersion(seqno: int, capacity: nat): int
    requires capacity > 0
  {
    2 * (seqno / capacity) + 1
  }

  function EvenVersion(seqno: int, capacity: nat): int
    requires capacity > 0
  {
    2 * (seqno / capacity) + 2
  }

  /** A sequence number that is a u64 and whose versions are, too. */
  predicate SeqFits(seqno: nat, capacity: nat)
    requires capacity > 0
  {
    seqno < U64_MODULUS && EvenVersion(seqno, capacity) < U64_MODULUS
  }

  // ---------------------------------------------------------------------------
  // Steps
  // ---------------------------------------------------------------------------

  function Init(capacity: nat, width: nat): State
    requires capacity > 0
  {
    State(capacity, width,
          seq(capacity, i => Slot(0, seq(width, _ => 0), i - capacity)),
          0, Idle, map[], [])
  }

  datatype Action =
    | StoreOdd(value: Payload)
    | WriteWord(k: nat)
    | StoreEven
    | StorePublished
    | Subscribe(id: nat, policy: LapPolicy)
    | PollHalted(id: nat)
    | LoadFirst(id: nat)
    | ReadWord(id: nat, k: nat)
    | LoadSecond(id: nat)
    | LoadPublished(id: nat)

  predicate IsProducerStep(a: Action) {
    a.StoreOdd? || a.WriteWord? || a.StoreEven? || a.StorePublished?
  }

  /** The slot a sequence number maps to; capacities are powers of two, so this is the masked index. */
  function SlotOf(s: State, seqno: nat): nat
    requires s.capacity > 0
  {
    seqno % s.capacity
  }

  predicate WellShaped(s: State) {
    && s.capacity > 0
    && |s.slots| == s.capacity
    && (forall i :: 0 <= i < |s.slots| ==> |s.slots[i].words| == s.width)
  }

  predicate Enabled(s: State, a: Action) {
    && WellShaped(s)
    && match a
       case StoreOdd(value) => s.pc.Idle? && |value| == s.width && SeqFits(s.published + 1, s.capacity)
       case WriteWord(k) => s.pc.Writing? && k < s.width && k !in s.pc.done && |s.log| > s.published && |s.log[s.published]| == s.width
       case StoreEven => s.pc.Writing? && forall k :: 0 <= k < s.width ==> k in s.pc.done
       case StorePublished => s.pc.Committed?
       case Subscribe(id, _) => id !in s.consumers
       case PollHalted(id) => id in s.consumers && s.consumers[id].pc.AtRest? && s.consumers[id].halted.Some?
       case LoadFirst(id) => id in s.consumers && s.consumers[id].pc.AtRest? && s.consumers[id].halted.None?
       case ReadWord(id, k) => id in s.consumers && s.consumers[id].pc.Reading? && k < s.width && k !in s.consumers[id].pc.got
       case LoadSecond(id) =>
         id in s.consumers && s.consumers[id].pc.Reading? && forall k :: 0 <= k < s.width ==> k in s.consumers[id].pc.got
       case LoadPublished(id) => id in s.consumers && s.consumers[id].pc.Lapped?
  }

  function WithSlot(s: State, i: nat, slot: Slot): State
    requires i < |s.slots|
  {
    s.(slots := s.slots[i := slot])
  }

  function WithConsumer(s: State, id: nat, c: Consumer): State {
    s.(consumers := s.consumers[id := c])
  }

  /** The poll returns `r` and is over. */
  function Returns(c: Consumer, r: PollResult): Consumer {
    c.(pc := AtRest, history := c.history + [r])
  }

  /** The version `poll` expects in its slot, in unchecked u64 arithmetic. */
  function Expected(s: State, c: Consumer): u64
    requires s.capacity > 0
  {
    Mod64(EvenVersion(c.cursor, s.capacity))
  }

  function AfterFirstLoad(s: State, c: Consumer): Consumer
    requires s.capacity > 0 && |s.slots| == s.capacity
  {
    var v1 := s.slots[SlotOf(s, c.cursor)].version;
    var expected := Expected(s, c);
    if v1 > expected then c.(pc := Lapped)
    else if v1 < expected || v1 % 2 != 0 then Returns(c, Empty).(torn := false)
    else c.(pc := Reading(map[]))
  }

  function AfterSecondLoad(s: State, c: Consumer): Consumer
    requires s.capacity > 0 && |s.slots| == s.capacity
    requires c.pc.Reading? && forall k :: 0 <= k < s.width ==> k in c.pc.got
  {
    var v2 := s.slots[SlotOf(s, c.cursor)].version;
    if v2 != Expected(s, c) then Returns(c, Empty).(torn := true)
    else Returns(c, Ready(seq(s.width, k requires 0 <= k < s.width => c.pc.got[k]))).(cursor := c.cursor + 1, torn := false)
  }

  /** The lap policy. The u64 subtraction is unchecked and would wrap below zero. */
  function AfterLap(s: State, c: Consumer): Consumer {
    var lost := Mod64(s.published - c.cursor);
    match c.policy
    case Halt => Returns(c, Halted(c.cursor, lost)).(halted := Some(lost), torn := false)
    case Panic => c.(pc := Panicked)
    case SkipAndAlert => Returns(c, Skipped(lost, s.published)).(cursor := s.published, torn := false)
    case SkipToLatest => Returns(c, Skipped(lost, s.published)).(cursor := s.published, torn := false)
  }

  function Next(s: State, a: Action): State
    requires Enabled(s, a)
  {
    match a
    case StoreOdd(value) =>
      var i := SlotOf(s, s.published);
      WithSlot(s, i, s.slots[i].(version := Mod64(OddVersion(s.published, s.capacity)), owner := s.published))
      .(pc := Writing({}), log := s.log + [value])
    case WriteWord(k) =>
      var i := SlotOf(s, s.published);
      WithSlot(s, i, s.slots[i].(words := s.slots[i].words[k := s.log[s.published][k]]))
      .(pc := Writing(s.pc.done + {k}))
    case StoreEven =>
      var i := SlotOf(s, s.published);
      WithSlot(s, i, s.slots[i].(version := Mod64(EvenVersion(s.published, s.capacity)))).(pc := Committed)
    case StorePublished => s.(published := s.published + 1, pc := Idle)
    case Subscribe(id, policy) =>
      WithConsumer(s, id, Consumer(s.published, policy, None, AtRest, s.published, [], false))
    case PollHalted(id) =>
      var c := s.consumers[id];
      WithConsumer(s, id, Returns(c, Halted(c.cursor, c.halted.value)))
    case LoadFirst(id) => WithConsumer(s, id, AfterFirstLoad(s, s.consumers[id]))
    case ReadWord(id, k) =>
      var c := s.consumers[id];
      WithConsumer(s, id, c.(pc := Reading(c.pc.got[k := s.slots[SlotOf(s, c.cursor)].words[k]])))
    case LoadSecond(id) => WithConsumer(s, id, AfterSecondLoad(s, s.consumers[id]))
    case LoadPublished(id) => WithConsumer(s, id, AfterLap(s, s.consumers[id]))
  }

  // ---------------------------------------------------------------------------
  // The invariant
  // ---------------------------------------------------------------------------

  /** How many values are complete: readable although `published` may lag one behind. */
  function Complete(s: State): nat {
    s.published + if s.pc.Committed? then 1 else 0
  }

  /** The slot holds a complete value, or its initial zeros. */
  ghost predicate Stable(s: State, slot: Slot)
    requires s.capacity > 0
  {
    && slot.version == EvenVersion(slot.owner, s.capacity)
    && (0 <= slot.owner < |s.log| ==> slot.words == s.log[slot.owner])
  }

  /** The slot is being overwritten: odd version, and the words written so far are the new ones. */
  ghost predicate MidWrite(s: State, slot: Slot)
    requires s.capacity > 0
  {
    && s.pc.Writing?
    && slot.version == OddVersion(slot.owner, s.capacity)
    && |slot.words| == s.width
    && s.published < |s.log| && |s.log[s.published]| == s.width
    && forall k :: 0 <= k < s.width && k in s.pc.done ==> slot.words[k] == s.log[s.published][k]
  }

  ghost predicate SlotOk(s: State, i: nat)
    requires s.capacity > 0 && i < |s.slots|
  {
    var slot := s.slots[i];
    && slot.owner % s.capacity == i
    && |s.log| - s.capacity <= slot.owner < |s.log|
    && if s.pc.Writing? && slot.owner == s.published then MidWrite(s, slot) else Stable(s, slot)
  }

  ghost predicate RingOk(s: State) {
    && WellShaped(s)
    && |s.log| == s.published + (if s.pc.Idle? then 0 else 1)
    && SeqFits(|s.log|, s.capacity)
    && (forall n :: 0 <= n < |s.log| ==> |s.log[n]| == s.width)
    && (forall i :: 0 <= i < |s.slots| ==> SlotOk(s, i))
  }

  /** The log position a consumer has reached after the given results. */
  function Position(start: nat, history: seq<PollResult>): nat
  {
    if history == [] then start
    else
      var before := Position(start, history[..|history| - 1]);
      match history[|history| - 1]
      case Ready(_) => before + 1
      case Skipped(lost, _) => before + lost
      case Empty => before
      case Halted(_, _) => before
  }

  predicate Skips(policy: LapPolicy) {
    policy == SkipAndAlert || policy == SkipToLatest
  }

  /** What the result at position `j` of a history has to be. */
  ghost predicate ResultOk(s: State, c: Consumer, j: nat)
    requires j < |c.history|
  {
    var at := Position(c.start, c.history[..j]);
    match c.history[j]
    case Ready(data) => at < |s.log| && data == s.log[at]
    case Empty => true
    case Skipped(lost, newSeq) => Skips(c.policy) && lost >= s.capacity && newSeq == at + lost
    case Halted(last, lost) => lost >= s.capacity && last == c.cursor && c.halted == Some(lost) && c.policy == Halt
  }

  ghost predicate HistoryOk(s: State, c: Consumer) {
    && c.cursor == Position(c.start, c.history)
    && (forall j :: 0 <= j < |c.history| ==> ResultOk(s, c, j))
    && (forall i, j :: 0 <= i < j < |c.history| && c.history[i].Halted? ==> c.history[j] == c.history[i])
    && (c.halted.Some? ==> c.policy == Halt && c.halted.value >= s.capacity && c.pc.AtRest?
                           && c.history != [] && c.history[|c.history| - 1] == Halted(c.cursor, c.halted.value))
    && (c.halted.None? ==> forall j :: 0 <= j < |c.history| ==> !c.history[j].Halted?)
  }

  /** A consumer in the middle of a read: its slot has not gone back, and if it still holds the value
      the consumer wants, the words read so far are that value's. */
  ghost predicate ReadOk(s: State, c: Consumer)
    requires s.capacity > 0 && |s.slots| == s.capacity && c.pc.Reading?
  {
    var owner := s.slots[SlotOf(s, c.cursor)].owner;
    && c.cursor < Complete(s) && c.cursor < |s.log| && |s.log[c.cursor]| == s.width
    && (owner == c.cursor ==> forall k :: 0 <= k < s.width && k in c.pc.got ==> c.pc.got[k] == s.log[c.cursor][k])
  }

  ghost predicate ConsumerOk(s: State, c: Consumer)
    requires s.capacity > 0 && |s.slots| == s.capacity
  {
    && c.start <= c.cursor <= Complete(s)
    && HistoryOk(s, c)
    && (c.pc.Reading? ==> ReadOk(s, c))
    && (c.pc.Lapped? ==> c.cursor + s.capacity <= s.published)
    && (c.torn ==> c.cursor + s.capacity < |s.log|)
  }

  ghost predicate Inv(s: State) {
    && RingOk(s)
    && forall id :: id in s.consumers ==> ConsumerOk(s, s.consumers[id])
  }

  // ---------------------------------------------------------------------------
  // Slots and sequence numbers
  // ---------------------------------------------------------------------------

  /** Versions order the owners of one slot. */
  lemma {:induction false} VersionOrder(a: int, b: int, m: nat)
    requires m > 0 && a % m == b % m
    ensures a < b <==> EvenVersion(a, m) < EvenVersion(b, m)
    ensures a < b <==> EvenVersion(a, m) < OddVersion(b, m)
    ensures a == b <==> EvenVersion(a, m) == EvenVersion(b, m)
    ensures EvenVersion(a, m) != OddVersion(b, m)
  {
    if a < b {
      SameResidue(a, b, m);
    }
    if b < a {
      SameResidue(b, a, m);
    }
  }

  /** The slot that a sequence number maps to was last begun by it, by an earlier lap, or by a later one. */
  lemma {:induction false} OwnerOf(s: State, seqno: nat)
    requires RingOk(s)
    ensures SlotOf(s, seqno) < |s.slots|
    ensures var owner := s.slots[SlotOf(s, seqno)].owner;
            && owner % s.capacity == seqno % s.capacity
            && (owner < seqno <==> |s.log| <= seqno)
            && (owner > seqno <==> |s.log| > seqno + s.capacity)
  {
    var i := SlotOf(s, seqno);
    assert SlotOk(s, i);
    var owner := s.slots[i].owner;
    if owner < seqno {
      SameResidue(owner, seqno, s.capacity);
    }
    if owner > seqno {
      SameResidue(seqno, owner, s.capacity);
    }
  }

  /** What the first version load sees, in terms of log positions alone: the lap branch is taken
      exactly when overwriting has begun, a read starts exactly when the value is complete and not
      being overwritten, and otherwise the value is not there yet. */
  lemma {:induction false} FirstLoadIsExact(s: State, c: Consumer)
    requires Inv(s) && ConsumerOk(s, c) && c.pc.AtRest?
    ensures AfterFirstLoad(s, c).pc.Lapped? <==> |s.log| > c.cursor + s.capacity
    ensures AfterFirstLoad(s, c).pc.Reading? <==> c.cursor < Complete(s) && |s.log| <= c.cursor + s.capacity
    ensures AfterFirstLoad(s, c).pc.AtRest? <==> c.cursor >= Complete(s)
  {
    hide HistoryOk, ReadOk, Mod64;
    OwnerOf(s, c.cursor);
    VersionsUnwrapped(s, c.cursor);
    var slot := s.slots[SlotOf(s, c.cursor)];
    assert SlotOk(s, SlotOf(s, c.cursor));
    VersionOrder(slot.owner, c.cursor, s.capacity);
    VersionOrder(c.cursor, slot.owner, s.capacity);
  }

  // ---------------------------------------------------------------------------
  // Versions in 64 bits
  // ---------------------------------------------------------------------------

  lemma {:induction false} FitsDownward(n: nat, m: nat, capacity: nat)
    requires capacity > 0 && SeqFits(n, capacity) && m <= n
    ensures SeqFits(m, capacity)
  {
    QuotientMonotone(m, n, capacity);
  }

  /** Up to the length of the log the u64 arithmetic on versions does not wrap. */
  lemma {:induction false} VersionsUnwrapped(s: State, seqno: nat)
    requires RingOk(s) && seqno <= |s.log|
    ensures Mod64(EvenVersion(seqno, s.capacity)) == EvenVersion(seqno, s.capacity)
    ensures Mod64(OddVersion(seqno, s.capacity)) == OddVersion(seqno, s.capacity)
  {
    FitsDownward(|s.log|, seqno, s.capacity);
    QuotientMonotone(0, seqno, s.capacity);
  }

  /** No version ever wraps a u64: what a slot stores is its owner's true version, odd while it is
      being written and even otherwise, and what a consumer expects is its cursor's. */
  lemma {:induction false} VersionsFit(s: State)
    requires Inv(s)
    ensures forall i :: 0 <= i < |s.slots| ==>
              var slot := s.slots[i];
              var writing := s.pc.Writing? && slot.owner == s.published;
              slot.version == (if writing then OddVersion(slot.owner, s.capacity) else EvenVersion(slot.owner, s.capacity))
              && slot.version < U64_MODULUS
    ensures forall id :: id in s.consumers ==>
              Expected(s, s.consumers[id]) == EvenVersion(s.consumers[id].cursor, s.capacity)
  {
    forall i | 0 <= i < |s.slots|
      ensures SlotOk(s, i) && s.slots[i].version < U64_MODULUS
    {
      assert SlotOk(s, i);
      FitsDownward(|s.log|, if s.slots[i].owner >= 0 then s.slots[i].owner else 0, s.capacity);
      QuotientMonotone(s.slots[i].owner, if s.slots[i].owner >= 0 then s.slots[i].owner else 0, s.capacity);
    }
    forall id | id in s.consumers
      ensures Expected(s, s.consumers[id]) == EvenVersion(s.consumers[id].cursor, s.capacity)
    {
      assert ConsumerOk(s, s.consumers[id]);
      VersionsUnwrapped(s, s.consumers[id].cursor);
    }
  }

  /** How far sequence numbers go before a version wraps: 2^63 - 1 laps of the ring. A ring of three or
      more slots gets there only after the sequence numbers themselves have run out. */
  lemma {:induction false} FitsExactly(seqno: u64, capacity: nat)
    requires capacity > 0
    ensures SeqFits(seqno, capacity) <==> seqno < capacity * 0x7FFF_FFFF_FFFF_FFFF
    ensures capacity >= 3 ==> SeqFits(seqno, capacity)
  {
    QuotientBelow(seqno, capacity, 0x7FFF_FFFF_FFFF_FFFF);
  }

  /** The bound is sharp. A consumer that has read everything finds the previous lap's version in its
      slot; it is told it was lapped, by nothing at all, exactly when the version it expects has
      wrapped to zero. */
  lemma {:induction false} WrappedVersionMisreads(s: State, c: Consumer)
    requires WellShaped(s) && c.pc.AtRest? && c.cursor == s.published
    requires s.slots[SlotOf(s, c.cursor)].version == Mod64(EvenVersion(c.cursor - s.capacity, s.capacity))
    ensures AfterFirstLoad(s, c).pc.Lapped? <==> Expected(s, c) == 0
    ensures AfterFirstLoad(s, c).pc.Lapped? && c.policy == Halt ==>
              AfterLap(s, AfterFirstLoad(s, c)).history == c.history + [Halted(c.cursor, 0)]
    ensures AfterFirstLoad(s, c).pc.Lapped? && Skips(c.policy) ==>
              AfterLap(s, AfterFirstLoad(s, c)).history == c.history + [Skipped(0, c.cursor)]
    ensures !AfterFirstLoad(s, c).pc.Lapped? ==> AfterFirstLoad(s, c).history == c.history + [Empty]
  {
    PreviousLap(c.cursor, s.capacity);
    EvenBefore(c.cursor / s.capacity);
  }

  lemma EvenBefore(lap: nat)
    ensures Mod64(2 * lap) == if Mod64(2 * lap + 2) == 0 then U64_MODULUS - 2 else Mod64(2 * lap + 2) - 2
  {
  }

  // ---------------------------------------------------------------------------
  // Producer steps keep the invariant
  // ---------------------------------------------------------------------------

  lemma {:induction false} InitOk(capacity: nat, width: nat)
    requires capacity > 0
    ensures Inv(Init(capacity, width))
  {
    var s := Init(capacity, width);
    forall i | 0 <= i < |s.slots|
      ensures SlotOk(s, i)
    {
      var owner := i - capacity;
      assert s.slots[i].owner == owner;
      assert owner / capacity == -1 && owner % capacity == i by {
        assert owner == capacity * (-1) + i;
        EuclidUnique(owner, capacity, -1, i);
      }
    }
  }

  lemma {:induction false} StoreOddRing(s: State, value: Payload)
    requires Inv(s) && Enabled(s, StoreOdd(value))
    ensures RingOk(Next(s, StoreOdd(value)))
  {
    var t := Next(s, StoreOdd(value));
    var n := SlotOf(s, s.published);
    OwnerOf(s, s.published);
    VersionsUnwrapped(s, s.published);
    assert SlotOk(s, n);
    PreviousLap(s.published, s.capacity);
    forall i | 0 <= i < |t.slots|
      ensures SlotOk(t, i)
    {
      assert SlotOk(s, i);
      if i != n {
        assert s.slots[i].owner % s.capacity != (s.published - s.capacity) % s.capacity;
      }
    }
  }

  lemma {:induction false} WriteWordRing(s: State, k: nat)
    requires Inv(s) && Enabled(s, WriteWord(k))
    ensures RingOk(Next(s, WriteWord(k)))
  {
    var t := Next(s, WriteWord(k));
    OwnerOf(s, s.published);
    forall i | 0 <= i < |t.slots|
      ensures SlotOk(t, i)
    {
      assert SlotOk(s, i);
    }
  }

  lemma {:induction false} StoreEvenRing(s: State)
    requires Inv(s) && Enabled(s, StoreEven)
    ensures RingOk(Next(s, StoreEven))
  {
    var t := Next(s, StoreEven);
    OwnerOf(s, s.published);
    VersionsUnwrapped(s, s.published);
    forall i | 0 <= i < |t.slots|
      ensures SlotOk(t, i)
    {
      assert SlotOk(s, i);
      if t.slots[i].owner == s.published {
        assert i == SlotOf(s, s.published);
        assert t.slots[i].words == t.log[s.published];
      }
    }
  }

  lemma {:induction false} StorePublishedRing(s: State)
    requires Inv(s) && Enabled(s, StorePublished)
    ensures RingOk(Next(s, StorePublished))
  {
    var t := Next(s, StorePublished);
    forall i | 0 <= i < |t.slots|
      ensures SlotOk(t, i)
    {
      assert SlotOk(s, i);
    }
  }

  /** What a producer step may do as far as any consumer can tell. */
  ghost predicate ProducerMoved(s: State, t: State) {
    && RingOk(s) && RingOk(t)
    && t.capacity == s.capacity && t.width == s.width && t.consumers == s.consumers
    && s.log <= t.log && s.published <= t.published && Complete(s) <= Complete(t)
    && (forall i :: 0 <= i < |s.slots| ==> s.slots[i].owner <= t.slots[i].owner)
  }

  lemma {:induction false} HistoryKept(s: State, t: State, c: Consumer)
    requires HistoryOk(s, c) && s.capacity == t.capacity && s.log <= t.log
    ensures HistoryOk(t, c)
  {
    forall j | 0 <= j < |c.history|
      ensures ResultOk(t, c, j)
    {
      assert ResultOk(s, c, j);
    }
  }

  lemma {:induction false} ProducerKeepsConsumer(s: State, t: State, c: Consumer)
    requires ProducerMoved(s, t) && ConsumerOk(s, c)
    ensures ConsumerOk(t, c)
  {
    hide HistoryOk, RingOk;
    HistoryKept(s, t, c);
    if c.pc.Reading? {
      OwnerOf(s, c.cursor);
      OwnerOf(t, c.cursor);
    }
  }

  lemma {:induction false} ProducerKeepsInv(s: State, a: Action)
    requires Inv(s) && Enabled(s, a) && IsProducerStep(a)
    ensures Inv(Next(s, a))
  {
    var t := Next(s, a);
    OwnerOf(s, s.published);
    match a {
      case StoreOdd(value) => StoreOddRing(s, value);
      case WriteWord(k) => WriteWordRing(s, k);
      case StoreEven => StoreEvenRing(s);
      case StorePublished => StorePublishedRing(s);
    }
    assert ProducerMoved(s, t);
    forall id | id in t.consumers
      ensures ConsumerOk(t, t.consumers[id])
    {
      ProducerKeepsConsumer(s, t, s.consumers[id]);
    }
  }

  // ---------------------------------------------------------------------------
  // Consumer steps keep the invariant
  // ---------------------------------------------------------------------------

  /** Only one consumer changed. */
  lemma {:induction false} OneConsumerMoved(s: State, id: nat, c: Consumer)
    requires Inv(s) && ConsumerOk(s, c)
    ensures Inv(WithConsumer(s, id, c))
  {
    var t := WithConsumer(s, id, c);
    forall i | 0 <= i < |t.slots|
      ensures SlotOk(t, i)
    {
      assert SlotOk(s, i);
    }
    forall j | j in t.consumers
      ensures ConsumerOk(t, t.consumers[j])
    {
      HistoryKept(s, t, t.consumers[j]);
    }
  }

  /** One more result at the end of a history. */
  lemma {:induction false} HistoryGrows(s: State, c: Consumer, c': Consumer, r: PollResult)
    requires HistoryOk(s, c) && c.halted.None? && c'.halted.None? && !r.Halted?
    requires c'.history == c.history + [r] && c'.start == c.start && c'.policy == c.policy
    requires c'.cursor == Position(c.start, c'.history)
    requires ResultOk(s, c', |c.history|)
    ensures HistoryOk(s, c')
  {
    forall j | 0 <= j < |c'.history|
      ensures ResultOk(s, c', j)
    {
      if j < |c.history| {
        assert c'.history[..j] == c.history[..j];
        assert ResultOk(s, c, j);
      }
    }
  }

  lemma {:induction false} PositionGrows(start: nat, history: seq<PollResult>, r: PollResult)
    ensures Position(start, history + [r]) ==
            Position(start, history) + match r
                                       case Ready(_) => 1
                                       case Skipped(lost, _) => lost
                                       case Empty => 0
                                       case Halted(_, _) => 0
    ensures (history + [r])[..|history|] == history
  {
  }

  lemma {:induction false} FirstLoadKeeps(s: State, c: Consumer)
    requires Inv(s) && ConsumerOk(s, c) && c.pc.AtRest? && c.halted.None?
    ensures ConsumerOk(s, AfterFirstLoad(s, c))
  {
    hide RingOk;
    FirstLoadIsExact(s, c);
    OwnerOf(s, c.cursor);
    RingFacts(s);
    var c' := AfterFirstLoad(s, c);
    if c'.pc.AtRest? {
      PositionGrows(c.start, c.history, Empty);
      HistoryGrows(s, c, c', Empty);
    } else {
      SameHistory(s, c, c');
    }
  }

  /** Moving only the program counter of a consumer that is not halted. */
  lemma {:induction false} SameHistory(s: State, c: Consumer, c': Consumer)
    requires HistoryOk(s, c) && c.halted.None? && c' == c.(pc := c'.pc)
    ensures HistoryOk(s, c')
  {
    forall j | 0 <= j < |c'.history|
      ensures ResultOk(s, c', j)
    {
      assert ResultOk(s, c, j);
    }
  }

  lemma RingFacts(s: State)
    requires RingOk(s)
    ensures WellShaped(s)
    ensures |s.log| == s.published + (if s.pc.Idle? then 0 else 1)
    ensures forall n :: 0 <= n < |s.log| ==> |s.log[n]| == s.width
  {
  }

  lemma {:induction false} ReadWordKeeps(s: State, c: Consumer, k: nat)
    requires Inv(s) && ConsumerOk(s, c) && c.pc.Reading? && k < s.width
    ensures var word := s.slots[SlotOf(s, c.cursor)].words[k];
            ConsumerOk(s, c.(pc := Reading(c.pc.got[k := word])))
  {
    OwnerOf(s, c.cursor);
    var i := SlotOf(s, c.cursor);
    assert SlotOk(s, i);
    var c' := c.(pc := Reading(c.pc.got[k := s.slots[i].words[k]]));
    SameHistory(s, c, c');
  }

  /** The heart of the seqlock: when the second load sees the expected version, every word read is the
      corresponding word of the value published under the consumer's cursor. */
  lemma {:induction false} SecondLoadIsWhole(s: State, c: Consumer)
    requires Inv(s) && ConsumerOk(s, c) && c.pc.Reading?
    requires forall k :: 0 <= k < s.width ==> k in c.pc.got
    ensures var same := s.slots[SlotOf(s, c.cursor)].version == Expected(s, c);
            && c.cursor < |s.log|
            && (same <==> |s.log| <= c.cursor + s.capacity)
            && (same ==> seq(s.width, k requires 0 <= k < s.width => c.pc.got[k]) == s.log[c.cursor])
  {
    OwnerOf(s, c.cursor);
    VersionsUnwrapped(s, c.cursor);
    var i := SlotOf(s, c.cursor);
    assert SlotOk(s, i);
    VersionOrder(s.slots[i].owner, c.cursor, s.capacity);
    VersionOrder(c.cursor, s.slots[i].owner, s.capacity);
  }

  lemma {:induction false} SecondLoadKeeps(s: State, c: Consumer)
    requires Inv(s) && ConsumerOk(s, c) && c.pc.Reading? && c.halted.None?
    requires forall k :: 0 <= k < s.width ==> k in c.pc.got
    ensures ConsumerOk(s, AfterSecondLoad(s, c))
  {
    hide RingOk;
    RingFacts(s);
    SecondLoadIsWhole(s, c);
    var c' := AfterSecondLoad(s, c);
    var r := c'.history[|c.history|];
    PositionGrows(c.start, c.history, r);
    HistoryGrows(s, c, c', r);
  }

  lemma LapDoesNotWrap(s: State, c: Consumer)
    requires RingOk(s) && c.cursor + s.capacity <= s.published
    ensures Mod64(s.published - c.cursor) == s.published - c.cursor
  {
  }

  lemma {:induction false} LapKeeps(s: State, c: Consumer)
    requires Inv(s) && ConsumerOk(s, c) && c.pc.Lapped?
    ensures Mod64(s.published - c.cursor) == s.published - c.cursor >= s.capacity
    ensures ConsumerOk(s, AfterLap(s, c))
  {
    hide RingOk;
    RingFacts(s);
    var lost := s.published - c.cursor;
    LapDoesNotWrap(s, c);
    hide Mod64;
    var c' := AfterLap(s, c);
    if c.policy == Halt {
      HistoryHalts(s, c, c');
    } else if c.policy == Panic {
      SameHistory(s, c, c');
    } else {
      PositionGrows(c.start, c.history, Skipped(lost, s.published));
      HistoryGrows(s, c, c', Skipped(lost, s.published));
    }
  }

  lemma {:induction false} HistoryHalts(s: State, c: Consumer, c': Consumer)
    requires HistoryOk(s, c) && c.halted.None? && c.policy == Halt && c'.halted.Some? && c'.pc.AtRest?
    requires c'.start == c.start && c'.policy == c.policy && c'.cursor == c.cursor && c'.halted.value >= s.capacity
    requires c'.history == c.history + [Halted(c.cursor, c'.halted.value)]
    ensures HistoryOk(s, c')
  {
    PositionGrows(c.start, c.history, Halted(c.cursor, c'.halted.value));
    forall j | 0 <= j < |c'.history|
      ensures ResultOk(s, c', j)
    {
      if j < |c.history| {
        assert c'.history[..j] == c.history[..j];
        assert ResultOk(s, c, j);
      }
    }
  }

  lemma {:induction false} HaltedKeeps(s: State, c: Consumer)
    requires Inv(s) && ConsumerOk(s, c) && c.halted.Some?
    ensures ConsumerOk(s, Returns(c, Halted(c.cursor, c.halted.value)))
  {
    hide RingOk;
    RingFacts(s);
    var r := Halted(c.cursor, c.halted.value);
    var c' := Returns(c, r);
    PositionGrows(c.start, c.history, r);
    forall j | 0 <= j < |c'.history|
      ensures ResultOk(s, c', j)
    {
      if j < |c.history| {
        assert c'.history[..j] == c.history[..j];
        assert ResultOk(s, c, j);
      }
    }
    assert c.history[|c.history| - 1] == r;
    assert HistoryOk(s, c');
  }

  /** Every consumer step keeps the invariant; a new consumer starts at the published count, idle, with
      the policy asked for and nothing delivered, and no other consumer changes. */
  lemma {:induction false} ConsumerKeepsInv(s: State, a: Action)
    requires Inv(s) && Enabled(s, a) && !IsProducerStep(a)
    ensures Inv(Next(s, a))
    ensures a.Subscribe? ==>
              && Next(s, a).consumers.Keys == s.consumers.Keys + {a.id}
              && (forall id :: id in s.consumers ==> Next(s, a).consumers[id] == s.consumers[id])
              && var c := Next(s, a).consumers[a.id];
                 && c.cursor == s.published && c.start == s.published && c.policy == a.policy
                 && c.halted == None && c.pc == AtRest && c.history == []
  {
    hide RingOk, HistoryOk, AfterFirstLoad, AfterSecondLoad, AfterLap;
    RingFacts(s);
    match a
    case Subscribe(id, policy) =>
      var c := Consumer(s.published, policy, None, AtRest, s.published, [], false);
      NewHistory(s, c);
      OneConsumerMoved(s, id, c);
    case PollHalted(id) =>
      HaltedKeeps(s, s.consumers[id]);
      OneConsumerMoved(s, id, Next(s, a).consumers[id]);
    case LoadFirst(id) =>
      FirstLoadKeeps(s, s.consumers[id]);
      OneConsumerMoved(s, id, AfterFirstLoad(s, s.consumers[id]));
    case ReadWord(id, k) =>
      ReadWordKeeps(s, s.consumers[id], k);
      OneConsumerMoved(s, id, Next(s, a).consumers[id]);
    case LoadSecond(id) =>
      NotHaltedWhileReading(s, s.consumers[id]);
      SecondLoadKeeps(s, s.consumers[id]);
      OneConsumerMoved(s, id, AfterSecondLoad(s, s.consumers[id]));
    case LoadPublished(id) =>
      LapKeeps(s, s.consumers[id]);
      OneConsumerMoved(s, id, AfterLap(s, s.consumers[id]));
  }

  lemma NewHistory(s: State, c: Consumer)
    requires c.history == [] && c.halted.None? && c.cursor == c.start
    ensures HistoryOk(s, c)
  {
  }

  lemma NotHaltedWhileReading(s: State, c: Consumer)
    requires HistoryOk(s, c) && !c.pc.AtRest?
    ensures c.halted.None?
  {
  }
}
