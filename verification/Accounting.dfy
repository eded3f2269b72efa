/**
 The lock-free byte and entry counters of MemoryCache under any interleaving.  A thread changes
 entries only inside the critical section of one shard, so its program counter is kept with the
 lock it holds; Flush holds every lock.  Every load, compare-and-swap, atomic add and map write is
 a step of its own.
 */
module Accounting {
  import opened Wrappers
  import opened MemoryCaches

  /** Where the holder of a shard lock is. */
  datatype Phase =
    | Free
    | Working
    | Removed(cost: nat)                                // entry deleted, bytes not given back yet
    | Returned                                          // bytes given back, entry still counted
    | Reserving(key: Key, entry: Entry)                 // about to load the byte counter
    | Loaded(key: Key, entry: Entry, seen: int)         // about to compare and swap
    | Storing(key: Key, entry: Entry, reserved: nat)    // about to write the map
    | Stored(added: bool, saved: nat)                   // entry not counted, saved bytes not given back
    | Flushing                                          // held by Flush

  datatype Slot = Slot(entries: Shard, phase: Phase)

  datatype Flush =
    | Quiet
    | Locking(next: nat)
    | Clearing(next: nat)
    | Zeroing(bytesDone: bool)
    | Unlocking(left: nat)

  datatype Books = Books(slots: seq<Slot>, current: int, entries: int, flush: Flush)

  datatype Event =
    | Acquire
    | Release
    | Delete(key: Key)
    | Subtract
    | Uncount
    | Store(key: Key, entry: Entry)
    | Load
    | Refuse
    | Swap
    | Write
    | Count
    | GiveBack

  function OldCost(m: Shard, key: Key): nat {
    if key in m then m[key].cost else 0
  }

  /** The bytes a write needs on top of those of the entry it replaces. */
  function Wanted(slot: Slot, key: Key, entry: Entry): int {
    entry.cost - OldCost(slot.entries, key)
  }

  /** A shard and both counters after a step of the lock holder. */
  datatype Move = Move(slot: Slot, current: int, entries: int)

  /** What a step of the holder of a shard lock does; None when its program counter is elsewhere. */
  function SlotStep(slot: Slot, current: int, entries: int, e: Event, maxMemory: int): Option<Move> {
    match slot.phase
    case Free => if e == Acquire then Some(Move(slot.(phase := Working), current, entries)) else None
    case Working => (
      match e
      case Release => Some(Move(slot.(phase := Free), current, entries))
      case Delete(key) =>
        if key !in slot.entries then None
        else Some(Move(Slot(slot.entries - {key}, Removed(slot.entries[key].cost)), current, entries))
      case Store(key, entry) =>
        Some(Move(slot.(phase := if Wanted(slot, key, entry) <= 0 then Storing(key, entry, 0)
                                else Reserving(key, entry)),
                  current, entries))
      case _ => None
    )
    case Removed(cost) => if e == Subtract then Some(Move(slot.(phase := Returned), current - cost, entries)) else None
    case Returned => if e == Uncount then Some(Move(slot.(phase := Working), current, entries - 1)) else None
    case Reserving(key, entry) =>
      if e == Load then Some(Move(slot.(phase := Loaded(key, entry, current)), current, entries)) else None
    case Loaded(key, entry, seen) =>
      var delta := Wanted(slot, key, entry);
      if e == Refuse && seen + delta > maxMemory then Some(Move(slot.(phase := Working), current, entries))
      else if e != Swap || seen + delta > maxMemory || delta < 0 then None
      else if current != seen then Some(Move(slot.(phase := Reserving(key, entry)), current, entries))
      else Some(Move(slot.(phase := Storing(key, entry, delta)), seen + delta, entries))
    case Storing(key, entry, _) =>
      var delta := Wanted(slot, key, entry);
      var written := Slot(slot.entries[key := entry], Stored(key !in slot.entries, if delta < 0 then -delta else 0));
      if e == Write then Some(Move(written, current, entries)) else None
    case Stored(true, saved) =>
      if e == Count then Some(Move(slot.(phase := Stored(false, saved)), current, entries + 1)) else None
    case Stored(false, saved) =>
      if e == GiveBack then Some(Move(slot.(phase := Working), current - saved, entries)) else None
    case Flushing => None
  }

  ghost predicate Step(c: Books, i: nat, e: Event, maxMemory: int, c': Books)
    requires i < |c.slots|
  {
    var r := SlotStep(c.slots[i], c.current, c.entries, e, maxMemory);
    r.Some? && c' == c.(slots := c.slots[i := r.value.slot], current := r.value.current, entries := r.value.entries)
  }

  function At(c: Books, i: nat, slot: Slot): Books
    requires i < |c.slots|
  {
    c.(slots := c.slots[i := slot])
  }

  /** Flush takes every lock in order, empties the shards, resets both counters and unlocks backwards. */
  function FlushStep(c: Books): Option<Books> {
    match c.flush
    case Quiet => Some(c.(flush := Locking(0)))
    case Locking(i) =>
      if i >= |c.slots| then Some(c.(flush := Clearing(0)))
      else if c.slots[i].phase == Free then Some(At(c, i, c.slots[i].(phase := Flushing)).(flush := Locking(i + 1)))
      else None
    case Clearing(i) =>
      if i >= |c.slots| then Some(c.(flush := Zeroing(false)))
      else Some(At(c, i, Slot(map[], Flushing)).(flush := Clearing(i + 1)))
    case Zeroing(false) => Some(c.(current := 0, flush := Zeroing(true)))
    case Zeroing(true) => Some(c.(entries := 0, flush := Unlocking(|c.slots|)))
    case Unlocking(left) =>
      if left == 0 then Some(c.(flush := Quiet))
      else if left > |c.slots| then None
      else Some(At(c, left - 1, c.slots[left - 1].(phase := Free)).(flush := Unlocking(left - 1)))
  }

  ghost predicate Next(c: Books, c': Books, maxMemory: int) {
    || FlushStep(c) == Some(c')
    || exists i: nat, e | i < |c.slots| :: Step(c, i, e, maxMemory, c')
  }

  ghost predicate Init(c: Books) {
    c.current == 0 && c.entries == 0 && c.flush == Quiet && c.slots != []
    && forall i :: 0 <= i < |c.slots| ==> c.slots[i] == Slot(map[], Free)
  }

  ghost predicate Run(cs: seq<Books>, maxMemory: int) {
    && cs != [] && Init(cs[0])
    && forall i :: 0 <= i < |cs| - 1 ==> Next(cs[i], cs[i + 1], maxMemory)
  }

  // ------------------------------------------------------------------------------ totals

  ghost function Total(slots: seq<Slot>, f: Slot -> int): int {
    if slots == [] then 0 else f(slots[0]) + Total(slots[1..], f)
  }

  lemma {:induction false} TotalUpdate(slots: seq<Slot>, f: Slot -> int, i: nat, s: Slot)
    requires i < |slots|
    ensures Total(slots[i := s], f) == Total(slots, f) - f(slots[i]) + f(s)
  {
    if i == 0 {
      assert slots[0 := s][1..] == slots[1..];
    } else {
      TotalUpdate(slots[1..], f, i - 1, s);
      assert slots[i := s][1..] == slots[1..][i - 1 := s];
    }
  }

  lemma {:induction false} TotalSame(slots: seq<Slot>, f: Slot -> int, g: Slot -> int)
    requires forall s <- slots :: f(s) <= g(s)
    ensures Total(slots, f) <= Total(slots, g)
    ensures (forall s <- slots :: f(s) == g(s)) ==> Total(slots, f) == Total(slots, g)
  {
    if slots != [] { TotalSame(slots[1..], f, g); }
  }

  /** What the entries of a shard cost. */
  ghost function Cost(s: Slot): int {
    Sum(s.entries)
  }

  ghost function Number(s: Slot): int {
    |s.entries|
  }

  /** Bytes that the counter holds beyond the installed entries: reserved, or not yet given back. */
  function Slack(phase: Phase): nat {
    match phase
    case Removed(cost) => cost
    case Storing(_, _, reserved) => reserved
    case Stored(_, saved) => saved
    case _ => 0
  }

  /** How far the entry counter is off. */
  function Drift(phase: Phase): int {
    match phase
    case Removed(_) => 1
    case Returned => 1
    case Stored(true, _) => -1
    case _ => 0
  }

  ghost function Owed(s: Slot): int {
    Sum(s.entries) + Slack(s.phase)
  }

  ghost function Counted(s: Slot): int {
    |s.entries| + Drift(s.phase)
  }

  ghost predicate PhaseOk(s: Slot) {
    match s.phase
    case Storing(key, entry, reserved) => reserved == if Wanted(s, key, entry) > 0 then Wanted(s, key, entry) else 0
    case _ => true
  }

  /** Which locks Flush holds, and how far the shards are emptied. */
  ghost predicate FlushOk(c: Books) {
    match c.flush
    case Quiet => forall s <- c.slots :: s.phase != Flushing
    case Locking(i) => i <= |c.slots| && HeldBelow(c.slots, i)
    case Clearing(i) =>
      i <= |c.slots| && HeldBelow(c.slots, |c.slots|) && forall j :: 0 <= j < i ==> c.slots[j].entries == map[]
    case Zeroing(_) => HeldBelow(c.slots, |c.slots|) && forall j :: 0 <= j < |c.slots| ==> c.slots[j].entries == map[]
    case Unlocking(i) => i <= |c.slots| && HeldBelow(c.slots, i)
  }

  ghost predicate HeldBelow(slots: seq<Slot>, n: nat) {
    forall j :: 0 <= j < |slots| ==> (slots[j].phase == Flushing <==> j < n)
  }

  /** The two counters, except while Flush has emptied shards and not reset them yet. */
  ghost predicate Balanced(c: Books) {
    && (c.flush.Clearing? || c.flush == Zeroing(false) || c.current == Total(c.slots, Owed))
    && (c.flush.Clearing? || c.flush.Zeroing? || c.entries == Total(c.slots, Counted))
  }

  ghost predicate Inv(c: Books, maxMemory: int) {
    && (forall s <- c.slots :: PhaseOk(s))
    && FlushOk(c) && Balanced(c) && c.slots != []
    && Total(c.slots, Cost) <= c.current <= maxMemory
  }

  lemma CostsAreOwed(slots: seq<Slot>)
    ensures Total(slots, Cost) <= Total(slots, Owed)
  {
    forall s <- slots ensures Cost(s) <= Owed(s) { }
    TotalSame(slots, Cost, Owed);
  }

  /** Writing an entry turns what was reserved into what is installed, or owes back what it saves. */
  lemma WriteBalance(slot: Slot, key: Key, entry: Entry, reserved: nat)
    requires slot.phase == Storing(key, entry, reserved) && PhaseOk(slot)
    ensures var delta := Wanted(slot, key, entry);
            var slot' := Slot(slot.entries[key := entry],
                              Stored(key !in slot.entries, if delta < 0 then -delta else 0));
            Owed(slot') == Owed(slot) && Counted(slot') == Counted(slot)
  {
    SumAdds(slot.entries, key, entry);
    assert slot.entries[key := entry].Keys == slot.entries.Keys + {key};
    if key in slot.entries { assert slot.entries.Keys + {key} == slot.entries.Keys; }
  }

  lemma DeleteBalance(slot: Slot, key: Key)
    requires slot.phase == Working && key in slot.entries
    ensures var slot' := Slot(slot.entries - {key}, Removed(slot.entries[key].cost));
            Owed(slot') == Owed(slot) && Counted(slot') == Counted(slot)
  {
    RemoveFactsOnly(slot.entries, key);
  }

  lemma CounterBalance(slot: Slot, current: int, entries: int, e: Event, maxMemory: int)
    requires PhaseOk(slot) && SlotStep(slot, current, entries, e, maxMemory).Some? && !e.Delete? && !e.Write?
    ensures var m := SlotStep(slot, current, entries, e, maxMemory).value;
            && m.slot.entries == slot.entries
            && m.current - current == Slack(m.slot.phase) - Slack(slot.phase)
            && m.entries - entries == Drift(m.slot.phase) - Drift(slot.phase)
            && (m.current <= maxMemory || m.current <= current)
  {
  }

  lemma StepKeepsPhase(slot: Slot, current: int, entries: int, e: Event, maxMemory: int)
    requires PhaseOk(slot) && SlotStep(slot, current, entries, e, maxMemory).Some?
    ensures slot.phase != Flushing
    ensures var m := SlotStep(slot, current, entries, e, maxMemory).value; PhaseOk(m.slot) && m.slot.phase != Flushing
  {
  }

  /** A step of a shard holder moves both counters exactly as it moves what they owe. */
  lemma StepMovesBalance(slot: Slot, current: int, entries: int, e: Event, maxMemory: int)
    requires PhaseOk(slot) && SlotStep(slot, current, entries, e, maxMemory).Some?
    ensures var m := SlotStep(slot, current, entries, e, maxMemory).value;
            && m.current - current == Owed(m.slot) - Owed(slot)
            && m.entries - entries == Counted(m.slot) - Counted(slot)
            && (m.current <= maxMemory || m.current <= current)
  {
    if e.Delete? {
      DeleteBalance(slot, e.key);
    } else if e.Write? {
      WriteBalance(slot, slot.phase.key, slot.phase.entry, slot.phase.reserved);
    } else {
      CounterBalance(slot, current, entries, e, maxMemory);
    }
  }

  lemma StepKeepsInv(c: Books, i: nat, e: Event, maxMemory: int, c': Books)
    requires Inv(c, maxMemory) && i < |c.slots| && Step(c, i, e, maxMemory, c')
    ensures Inv(c', maxMemory)
  {
    StepMovesBalance(c.slots[i], c.current, c.entries, e, maxMemory);
    StepKeepsPhase(c.slots[i], c.current, c.entries, e, maxMemory);
    TotalUpdate(c.slots, Owed, i, c'.slots[i]);
    TotalUpdate(c.slots, Counted, i, c'.slots[i]);
    CostsAreOwed(c'.slots);
  }

  lemma AllFlushing(slots: seq<Slot>)
    requires forall s <- slots :: s.phase == Flushing || s.phase == Free || s.phase == Working
    ensures Total(slots, Owed) == Total(slots, Cost) && Total(slots, Counted) == Total(slots, Number)
  {
    TotalSame(slots, Cost, Owed);
    TotalSame(slots, Number, Counted);
  }

  lemma {:induction false} AllEmpty(slots: seq<Slot>)
    requires forall s <- slots :: s.entries == map[]
    ensures Total(slots, Cost) == 0 && Total(slots, Number) == 0
  {
    if slots != [] { AllEmpty(slots[1..]); }
  }

  lemma FlushKeepsInv(c: Books, maxMemory: int, c': Books)
    requires Inv(c, maxMemory) && FlushStep(c) == Some(c') && 0 <= maxMemory
    ensures Inv(c', maxMemory)
  {
    match c.flush
    case Locking(i) =>
      if i < |c.slots| { Rephased(c, i, Flushing); }
    case Clearing(i) =>
      if i < |c.slots| {
        TotalUpdate(c.slots, Cost, i, Slot(map[], Flushing));
      }
    case Zeroing(false) =>
      AllFlushing(c.slots);
      AllEmpty(c.slots);
    case Zeroing(true) =>
      AllFlushing(c.slots);
      AllEmpty(c.slots);
    case Unlocking(left) =>
      if left > 0 { Rephased(c, left - 1, Free); }
    case _ =>
  }

  lemma Rephased(c: Books, i: nat, phase: Phase)
    requires i < |c.slots| && phase in {Free, Flushing} && c.slots[i].phase in {Free, Flushing}
    ensures var slots' := c.slots[i := c.slots[i].(phase := phase)];
            && Total(slots', Owed) == Total(c.slots, Owed) && Total(slots', Counted) == Total(c.slots, Counted)
            && Total(slots', Cost) == Total(c.slots, Cost)
  {
    var s := c.slots[i].(phase := phase);
    TotalUpdate(c.slots, Owed, i, s);
    TotalUpdate(c.slots, Counted, i, s);
    TotalUpdate(c.slots, Cost, i, s);
  }

  lemma {:induction false} RunKeepsInv(cs: seq<Books>, maxMemory: int, k: nat)
    requires Run(cs, maxMemory) && 0 <= maxMemory && k < |cs|
    ensures Inv(cs[k], maxMemory)
  {
    if k == 0 {
      AllFlushing(cs[0].slots);
      AllEmpty(cs[0].slots);
    } else {
      RunKeepsInv(cs, maxMemory, k - 1);
      var c, c' := cs[k - 1], cs[k];
      assert Next(cs[k - 1], cs[k - 1 + 1], maxMemory);
      if FlushStep(c) == Some(c') {
        FlushKeepsInv(c, maxMemory, c');
      } else {
        var i: nat, e :| i < |c.slots| && Step(c, i, e, maxMemory, c');
        StepKeepsInv(c, i, e, maxMemory, c');
      }
    }
  }

  // ------------------------------------------------------------------------ main results

  /** At every atomic step the installed entries cost no more than the byte counter says, and that
      is within the budget. */
  lemma BudgetAlwaysHolds(cs: seq<Books>, maxMemory: int, k: nat)
    requires Run(cs, maxMemory) && 0 <= maxMemory && k < |cs|
    ensures Total(cs[k].slots, Cost) <= cs[k].current <= maxMemory
  {
    RunKeepsInv(cs, maxMemory, k);
  }

  /** With no shard lock held, both counters are exact. */
  lemma QuietCountersAreExact(cs: seq<Books>, maxMemory: int, k: nat)
    requires Run(cs, maxMemory) && 0 <= maxMemory && k < |cs|
    requires forall s <- cs[k].slots :: s.phase == Free
    ensures cs[k].current == Total(cs[k].slots, Cost) && cs[k].entries == Total(cs[k].slots, Number)
  {
    RunKeepsInv(cs, maxMemory, k);
    AllFlushing(cs[k].slots);
    assert cs[k].slots[0].phase == Free;
  }

  /** A reservation that may be refused now did not fit at an earlier moment of the same attempt. */
  lemma RefusalIsJustified(cs: seq<Books>, maxMemory: int, k: nat, i: nat) returns (j: nat)
    requires Run(cs, maxMemory) && k < |cs| && i < |cs[k].slots|
    requires SlotStep(cs[k].slots[i], cs[k].current, cs[k].entries, Refuse, maxMemory).Some?
    ensures j <= k && forall m :: j <= m <= k ==> i < |cs[m].slots| && cs[m].slots[i] == cs[k].slots[i]
    ensures var slot := cs[j].slots[i];
            slot.phase.Loaded? && cs[j].current + Wanted(slot, slot.phase.key, slot.phase.entry) > maxMemory
  {
    j := LoadedSince(cs, maxMemory, k, i);
  }

  lemma {:induction false} LoadedSince(cs: seq<Books>, maxMemory: int, k: nat, i: nat) returns (j: nat)
    requires Run(cs, maxMemory) && k < |cs| && i < |cs[k].slots| && cs[k].slots[i].phase.Loaded?
    ensures j <= k && cs[j].current == cs[k].slots[i].phase.seen
    ensures forall m :: j <= m <= k ==> i < |cs[m].slots| && cs[m].slots[i] == cs[k].slots[i]
  {
    j := k;
    if k > 0 {
      assert Next(cs[k - 1], cs[k - 1 + 1], maxMemory);
      LoadedOrigin(cs[k - 1], cs[k], maxMemory, i);
      if cs[k - 1].slots[i] == cs[k].slots[i] {
        j := LoadedSince(cs, maxMemory, k - 1, i);
      }
    }
  }

  lemma LoadedOrigin(c: Books, c': Books, maxMemory: int, i: nat)
    requires Next(c, c', maxMemory) && i < |c'.slots| && c'.slots[i].phase.Loaded?
    ensures |c.slots| == |c'.slots|
    ensures c.slots[i] == c'.slots[i] || c'.current == c'.slots[i].phase.seen
  {
  }
}
