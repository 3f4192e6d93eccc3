/** The generational arena: a fixed array of slots whose unoccupied cells hold an
    intrusive LIFO free list, and whose generations make stale handles miss. */
module Arenas {
  import opened Types
  import opened Sequences

  datatype ArenaIdx = ArenaIdx(slot: u32, generation: u32) {
    predicate IsValid() {
      this != SENTINEL
    }
  }

  const SENTINEL: ArenaIdx := ArenaIdx(0, 0)

  const MAX_CAPACITY: u32 := U32_MAX - 1

  /** The free-list terminator. */
  const NO_SLOT: u32 := U32_MAX

  /** What the slot's storage holds: the next free index, or a value. */
  datatype Cell<T> = Free(next: u32) | Occupied(value: T)

  datatype Slot<T> = Slot(generation: u32, cell: Cell<T>)

  /** Generations wrap at 2^32 and skip 0, so they cycle through 1 .. 2^32 - 1. */
  const GENERATION_CYCLE: int := U32_MAX

  function NextGeneration(g: u32): u32 {
    var bumped := (g + 1) % (U32_MAX + 1);
    if bumped == 0 then 1 else bumped
  }

  // ---------------------------------------------------------------------------
  // The arena's contents as a value
  // ---------------------------------------------------------------------------

  datatype State<T> = State(slots: seq<Slot<T>>, freeHead: u32, len: nat)

  function Fresh<T>(capacity: u32): State<T>
    requires 0 < capacity < U32_MAX
  {
    State(seq(capacity, i requires 0 <= i < capacity => FreshSlot(capacity, i)), 0, 0)
  }

  function FreshSlot<T>(capacity: u32, i: u32): Slot<T>
    requires i < capacity
  {
    Slot(1, Free(if i + 1 < capacity then i + 1 else NO_SLOT))
  }

  predicate Resolves<T>(s: State<T>, h: ArenaIdx) {
    h.slot < |s.slots| && s.slots[h.slot].cell.Occupied? && s.slots[h.slot].generation == h.generation
  }

  function Lookup<T>(s: State<T>, h: ArenaIdx): Option<T> {
    if !h.IsValid() then None
    else if Resolves(s, h) then Some(s.slots[h.slot].cell.value) else None
  }

  /** The store through the reference that `get_mut` hands out. */
  function Store<T>(s: State<T>, h: ArenaIdx, value: T): State<T> {
    if !h.IsValid() then s
    else if Resolves(s, h) then s.(slots := s.slots[h.slot := s.slots[h.slot].(cell := Occupied(value))])
    else s
  }

  /** `remove` looks the slot up without the validity test that `get` makes. */
  function Release<T>(s: State<T>, h: ArenaIdx): State<T> {
    if Resolves(s, h) then
      State(s.slots[h.slot := Slot(NextGeneration(h.generation), Free(s.freeHead))],
            h.slot,
            if s.len > 0 then s.len - 1 else 0)
    else s
  }

  /** What the unchecked slot access in `alloc` relies on. */
  predicate FreeHeadOk<T>(s: State<T>) {
    s.freeHead != NO_SLOT ==> s.freeHead < |s.slots| && s.slots[s.freeHead].cell.Free?
  }

  function Acquire<T>(s: State<T>, value: T): (State<T>, Option<ArenaIdx>)
    requires FreeHeadOk(s)
  {
    if s.freeHead == NO_SLOT then (s, None)
    else
      var i := s.freeHead;
      var slot := s.slots[i];
      (State(s.slots[i := slot.(cell := Occupied(value))], slot.cell.next, s.len + 1),
       Some(ArenaIdx(i, slot.generation)))
  }

  // ---------------------------------------------------------------------------
  // The reference: a partial map from handles to values and a stack of free slots
  // ---------------------------------------------------------------------------

  datatype Abs<T> = Abs(live: map<ArenaIdx, T>, free: seq<u32>, generations: seq<u32>)

  function AbsAlloc<T>(a: Abs<T>, value: T): (Abs<T>, Option<ArenaIdx>)
    requires forall i :: 0 <= i < |a.free| ==> a.free[i] < |a.generations|
  {
    if a.free == [] then (a, None)
    else
      var h := ArenaIdx(a.free[0], a.generations[a.free[0]]);
      (Abs(a.live[h := value], a.free[1..], a.generations), Some(h))
  }

  function AbsRemove<T>(a: Abs<T>, h: ArenaIdx): (Abs<T>, Option<T>)
    requires h in a.live ==> h.slot < |a.generations|
  {
    if h !in a.live then (a, None)
    else (Abs(a.live - {h}, [h.slot] + a.free, a.generations[h.slot := NextGeneration(h.generation)]),
          Some(a.live[h]))
  }

  function AbsWrite<T>(a: Abs<T>, h: ArenaIdx, value: T): Abs<T> {
    if h in a.live then a.(live := a.live[h := value]) else a
  }

  /** The index a free-list entry stores: its successor on the stack. */
  function NextFree(free: seq<u32>, k: nat): u32 {
    if k < |free| then free[k] else NO_SLOT
  }

  /** The chain from `freeHead` visits exactly the unoccupied slots, once each, in stack order. */
  ghost predicate FreeListIs<T>(s: State<T>, free: seq<u32>) {
    && s.freeHead == NextFree(free, 0)
    && Distinct(free)
    && (forall k :: 0 <= k < |free| ==> free[k] < |s.slots| && s.slots[free[k]].cell == Free(NextFree(free, k + 1)))
    && (forall i :: 0 <= i < |s.slots| && s.slots[i].cell.Free? ==> i in free)
  }

  ghost predicate LiveIs<T>(s: State<T>, live: map<ArenaIdx, T>) {
    && (forall h :: h in live <==> Resolves(s, h))
    && (forall h :: h in live ==> live[h] == s.slots[h.slot].cell.value)
  }

  ghost predicate Refines<T>(s: State<T>, a: Abs<T>) {
    && 0 < |s.slots| < U32_MAX
    && |a.generations| == |s.slots|
    && (forall i :: 0 <= i < |s.slots| ==> s.slots[i].generation == a.generations[i] != 0)
    && FreeListIs(s, a.free)
    && LiveIs(s, a.live)
    && s.len == |a.live|
    && |a.live| + |a.free| == |s.slots|
  }

  lemma {:induction false} FreshRefines<T>(capacity: u32)
    requires 0 < capacity < U32_MAX
    ensures Refines<T>(Fresh(capacity),
                       Abs(map[], seq(capacity, i requires 0 <= i < capacity => i), seq(capacity, _ => 1)))
  {
    var free: seq<u32> := seq(capacity, i requires 0 <= i < capacity => i);
    var s := Fresh<T>(capacity);
    forall i | 0 <= i < |s.slots|
      ensures i in free
    {
      assert free[i] == i;
    }
  }

  lemma {:induction false} AcquireFreeList<T>(s: State<T>, free: seq<u32>, value: T)
    requires FreeListIs(s, free) && free != [] && free[0] != NO_SLOT
    ensures FreeHeadOk(s) && FreeListIs(Acquire(s, value).0, free[1..])
  {
  }

  lemma {:induction false} AcquireLive<T>(s: State<T>, live: map<ArenaIdx, T>, value: T)
    requires FreeHeadOk(s) && s.freeHead != NO_SLOT && LiveIs(s, live)
    ensures var (t, h) := Acquire(s, value);
            h.value !in live && LiveIs(t, live[h.value := value])
  {
  }

  /** Allocation pops the free stack, or fails exactly when every slot is occupied. */
  lemma {:induction false} AllocRefines<T>(s: State<T>, a: Abs<T>, value: T)
    requires Refines(s, a)
    ensures FreeHeadOk(s)
    ensures Refines(Acquire(s, value).0, AbsAlloc(a, value).0)
    ensures Acquire(s, value).1 == AbsAlloc(a, value).1
    ensures Acquire(s, value).1 == None <==> |a.live| == |s.slots|
    ensures Acquire(s, value).1.Some? ==> Acquire(s, value).1.value !in a.live && Acquire(s, value).1.value.IsValid()
  {
    if a.free != [] {
      AcquireFreeList(s, a.free, value);
      AcquireLive(s, a.live, value);
      assert s.slots[a.free[0]].generation == a.generations[a.free[0]];
    }
  }

  lemma {:induction false} ReleaseFreeList<T>(s: State<T>, free: seq<u32>, h: ArenaIdx)
    requires FreeListIs(s, free) && Resolves(s, h)
    ensures FreeListIs(Release(s, h), [h.slot] + free)
  {
  }

  lemma {:induction false} ReleaseLive<T>(s: State<T>, live: map<ArenaIdx, T>, h: ArenaIdx)
    requires LiveIs(s, live) && Resolves(s, h)
    ensures LiveIs(Release(s, h), live - {h})
  {
  }

  /** Removal pushes the slot on the free stack and bumps its generation; a handle that does not
      resolve changes nothing. */
  lemma {:induction false} RemoveRefines<T>(s: State<T>, a: Abs<T>, h: ArenaIdx)
    requires Refines(s, a)
    ensures h in a.live ==> h.slot < |a.generations|
    ensures Refines(Release(s, h), AbsRemove(a, h).0)
    ensures h !in a.live ==> Release(s, h) == s
  {
    if h in a.live {
      ReleaseFreeList(s, a.free, h);
      ReleaseLive(s, a.live, h);
      assert |a.live - {h}| == |a.live| - 1;
    }
  }

  lemma {:induction false} StoreLive<T>(s: State<T>, live: map<ArenaIdx, T>, h: ArenaIdx, value: T)
    requires LiveIs(s, live) && Resolves(s, h) && h.IsValid()
    ensures LiveIs(Store(s, h, value), live[h := value])
  {
  }

  lemma {:induction false} StoreFreeList<T>(s: State<T>, free: seq<u32>, h: ArenaIdx, value: T)
    requires FreeListIs(s, free)
    ensures FreeListIs(Store(s, h, value), free)
  {
  }

  lemma {:induction false} WriteRefines<T>(s: State<T>, a: Abs<T>, h: ArenaIdx, value: T)
    requires Refines(s, a)
    ensures Refines(Store(s, h, value), AbsWrite(a, h, value))
  {
    assert h in a.live <==> Resolves(s, h);
    StoreFreeList(s, a.free, h, value);
    if h in a.live {
      StoreLive(s, a.live, h, value);
      assert a.live[h := value].Keys == a.live.Keys;
    }
  }

  lemma {:induction false} GetRefines<T>(s: State<T>, a: Abs<T>, h: ArenaIdx)
    requires Refines(s, a)
    ensures Lookup(s, h) == if h in a.live then Some(a.live[h]) else None
    ensures SENTINEL !in a.live
    ensures Release(s, SENTINEL) == s
  {
    assert Resolves(s, h) <==> h in a.live;
    assert !Resolves(s, SENTINEL);
  }

  // ---------------------------------------------------------------------------
  // Whole runs: how long a stale handle stays stale
  // ---------------------------------------------------------------------------

  datatype Op<T> = DoAlloc(value: T) | DoRemove(handle: ArenaIdx) | DoWrite(handle: ArenaIdx, value: T)

  function Exec<T>(s: State<T>, op: Op<T>): (t: State<T>)
    ensures |t.slots| == |s.slots|
  {
    match op
    case DoAlloc(v) => if FreeHeadOk(s) then Acquire(s, v).0 else s
    case DoRemove(h) => Release(s, h)
    case DoWrite(h, v) => Store(s, h, v)
  }

  function Execs<T>(s: State<T>, ops: seq<Op<T>>): (t: State<T>)
    ensures |t.slots| == |s.slots|
    decreases |ops|
  {
    if ops == [] then s else Execs(Exec(s, ops[0]), ops[1..])
  }

  ghost predicate InRange<T>(a: Abs<T>) {
    && (forall i :: 0 <= i < |a.free| ==> a.free[i] < |a.generations|)
    && (forall h :: h in a.live ==> h.slot < |a.generations|)
  }

  ghost function AbsExecs<T>(a: Abs<T>, ops: seq<Op<T>>): Abs<T>
    requires InRange(a)
    decreases |ops|
  {
    if ops == [] then a
    else
      match ops[0]
      case DoAlloc(v) => AbsExecs(AbsAlloc(a, v).0, ops[1..])
      case DoRemove(h) => AbsExecs(AbsRemove(a, h).0, ops[1..])
      case DoWrite(h, v) => AbsExecs(AbsWrite(a, h, v), ops[1..])
  }

  lemma RefinesInRange<T>(s: State<T>, a: Abs<T>)
    requires Refines(s, a)
    ensures InRange(a) && FreeHeadOk(s)
  {
    forall h | h in a.live
      ensures h.slot < |a.generations|
    {
      assert Resolves(s, h);
    }
  }

  /** Over any run the slots stay the map-and-stack reference, so the unchecked access in `alloc`
      is always in range and no slot is ever lost. */
  lemma {:induction false} RunRefines<T>(s: State<T>, a: Abs<T>, ops: seq<Op<T>>)
    requires Refines(s, a)
    ensures InRange(a)
    ensures Refines(Execs(s, ops), AbsExecs(a, ops))
    ensures FreeHeadOk(Execs(s, ops))
    decreases |ops|
  {
    hide Refines, AbsAlloc, AbsRemove, AbsWrite, Store, Release, Acquire;
    RefinesInRange(s, a);
    if ops != [] {
      match ops[0]
      case DoAlloc(v) =>
        AllocRefines(s, a, v);
        RunRefines(Exec(s, ops[0]), AbsAlloc(a, v).0, ops[1..]);
      case DoRemove(h) =>
        RemoveRefines(s, a, h);
        RunRefines(Exec(s, ops[0]), AbsRemove(a, h).0, ops[1..]);
      case DoWrite(h, v) =>
        WriteRefines(s, a, h, v);
        RunRefines(Exec(s, ops[0]), AbsWrite(a, h, v), ops[1..]);
    }
  }

  /** How many removals of `slot` succeed in a run. */
  function Removals<T>(s: State<T>, ops: seq<Op<T>>, slot: u32): nat
    decreases |ops|
  {
    if ops == [] then 0
    else
      (if ops[0].DoRemove? && ops[0].handle.slot == slot && Resolves(s, ops[0].handle) then 1 else 0)
      + Removals(Exec(s, ops[0]), ops[1..], slot)
  }

  /** The generation a slot reaches after `k` successful removals. */
  function GenerationAfter(g: u32, k: nat): u32
    requires g != 0
  {
    (g - 1 + k) % GENERATION_CYCLE + 1
  }

  lemma {:induction false} GenerationStep(g: u32, k: nat)
    requires g != 0
    ensures NextGeneration(g) != 0
    ensures GenerationAfter(NextGeneration(g), k) == GenerationAfter(g, k + 1)
  {
  }

  lemma {:induction false} GenerationOfRun<T>(s: State<T>, ops: seq<Op<T>>, slot: u32)
    requires slot < |s.slots| && s.slots[slot].generation != 0
    ensures Execs(s, ops).slots[slot].generation == GenerationAfter(s.slots[slot].generation, Removals(s, ops, slot))
    decreases |ops|
  {
    if ops != [] {
      var t := Exec(s, ops[0]);
      GenerationStep(s.slots[slot].generation, Removals(t, ops[1..], slot));
      GenerationOfRun(t, ops[1..], slot);
    }
  }

  /** Exactly when a removed handle resolves again: its slot is occupied and the generations have
      gone all the way round. In particular it misses through 2^32 - 3 further removals. */
  lemma {:induction false} StaleHandle<T(!new)>(s: State<T>, h: ArenaIdx, ops: seq<Op<T>>)
    requires Resolves(s, h) && h.generation != 0
    ensures var t, k := Execs(Release(s, h), ops), Removals(Release(s, h), ops, h.slot);
            && (Lookup(t, h).Some? <==> t.slots[h.slot].cell.Occupied? && (k + 1) % GENERATION_CYCLE == 0)
            && (k < GENERATION_CYCLE - 1 ==>
                  Lookup(t, h) == None && Release(t, h) == t && forall v :: Store(t, h, v) == t)
  {
    var s1 := Release(s, h);
    var k := Removals(s1, ops, h.slot);
    GenerationStep(h.generation, k);
    GenerationOfRun(s1, ops, h.slot);
    CycleReturns(h.generation, k + 1);
  }

  lemma {:induction false} CycleReturns(g: u32, n: nat)
    requires g != 0
    ensures GenerationAfter(g, n) == g <==> n % GENERATION_CYCLE == 0
  {
  }

  // ---------------------------------------------------------------------------
  // The arena in place
  // ---------------------------------------------------------------------------

  class Arena<T> {
    const slots: array<Slot<T>>
    var freeHead: u32
    var len: nat
    ghost var abs: Abs<T>

    ghost function Model(): State<T>
      reads this, slots
    {
      State(slots[..], freeHead, len)
    }

    ghost predicate Valid()
      reads this, slots
    {
      Refines(Model(), abs)
    }

    constructor (capacity: u32)
      requires 0 < capacity < U32_MAX
      ensures Valid() && fresh(slots)
      ensures slots.Length == capacity
      ensures Model() == Fresh(capacity)
      ensures abs.live == map[]
    {
      slots := new Slot<T>[capacity](i requires 0 <= i < capacity => FreshSlot(capacity, i));
      freeHead := 0;
      len := 0;
      abs := Abs(map[], seq(capacity, i requires 0 <= i < capacity => i), seq(capacity, _ => 1));
      new;
      FreshRefines<T>(capacity);
      assert slots[..] == Fresh<T>(capacity).slots;
    }

    method Get(idx: ArenaIdx) returns (r: Option<T>)
      requires Valid()
      ensures r == if idx in abs.live then Some(abs.live[idx]) else None
    {
      GetRefines(Model(), abs, idx);
      if !idx.IsValid() {
        return None;
      }
      if idx.slot < slots.Length && slots[idx.slot].cell.Occupied? && slots[idx.slot].generation == idx.generation {
        return Some(slots[idx.slot].cell.value);
      }
      return None;
    }

    /** `get_mut` followed by the store through the reference it returns. */
    method Write(idx: ArenaIdx, value: T) returns (written: bool)
      requires Valid()
      modifies this`abs, slots
      ensures Valid()
      ensures written <==> idx in old(abs.live)
      ensures abs == AbsWrite(old(abs), idx, value)
    {
      WriteRefines(Model(), abs, idx, value);
      written := false;
      if idx.IsValid() && idx.slot < slots.Length && slots[idx.slot].cell.Occupied?
         && slots[idx.slot].generation == idx.generation {
        slots[idx.slot] := slots[idx.slot].(cell := Occupied(value));
        written := true;
      }
      assert slots[..] == Store(old(Model()), idx, value).slots;
      abs := AbsWrite(abs, idx, value);
    }

    method Alloc(value: T) returns (r: Option<ArenaIdx>)
      requires Valid()
      modifies this, slots
      ensures Valid()
      ensures r == None <==> |old(abs.live)| == slots.Length
      ensures r.Some? ==> r.value !in old(abs.live) && r.value.IsValid()
      ensures (abs, r) == AbsAlloc(old(abs), value)
    {
      AllocRefines(Model(), abs, value);
      if freeHead == NO_SLOT {
        return None;
      }
      var slotIdx := freeHead;
      var slot := slots[slotIdx];
      slots[slotIdx] := slot.(cell := Occupied(value));
      freeHead := slot.cell.next;
      len := len + 1;
      assert slots[..] == Acquire(old(Model()), value).0.slots;
      abs := AbsAlloc(abs, value).0;
      return Some(ArenaIdx(slotIdx, slot.generation));
    }

    method Remove(idx: ArenaIdx) returns (r: Option<T>)
      requires Valid()
      modifies this, slots
      ensures Valid()
      ensures idx in old(abs.live) ==> idx.slot < |old(abs.generations)|
      ensures (abs, r) == AbsRemove(old(abs), idx)
    {
      RemoveRefines(Model(), abs, idx);
      if idx.slot >= slots.Length {
        return None;
      }
      var slot := slots[idx.slot];
      if !slot.cell.Occupied? || slot.generation != idx.generation {
        return None;
      }
      slots[idx.slot] := Slot(NextGeneration(slot.generation), Free(freeHead));
      len := len - 1;
      freeHead := idx.slot;
      assert slots[..] == Release(old(Model()), idx).slots;
      abs := AbsRemove(abs, idx).0;
      return Some(slot.cell.value);
    }
  }
}
