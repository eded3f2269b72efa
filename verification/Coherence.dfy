/**
 Safety of the coherence protocol over every run: what each instance keeps on its own, and the
 cross-instance claim that a stale copy always has an invalidation on its way.
 */
module Coherence {
  import opened Wrappers
  import opened Protocol

  // ------------------------------------------------- what a step of an instance may change

  /** The phases of the lock that say nothing about L2. */
  predicate Idle(lock: Lock) {
    lock.Free? || lock.Gate? || lock.Settling? || lock.Leaving? || (lock.Calling? && !lock.dirty)
  }

  predicate LockMoves(n: Node, n': Node) {
    n'.lock == n.lock || (Idle(n'.lock) && Idle(n.lock))
  }

  /** At most reader `rid` differs. */
  predicate OneReader(n: Node, n': Node, rid: nat) {
    || n'.readers == n.readers
    || n'.readers == n.readers - {rid}
    || (rid in n'.readers && n'.readers == n.readers[rid := n'.readers[rid]])
  }

  /** The reader that holds the lock, if any. */
  function Holder(lock: Lock): nat {
    if lock.Settling? then lock.rid
    else if lock.Gate? && !lock.who.Mutation? then lock.who.rid
    else 0
  }

  lemma EnvFrame(n: Node, a: EnvAction, n': Node)
    requires EnvStep(n, a, n')
    ensures n' == n.(l1 := n'.l1, link := n'.link)
    ensures forall k <- n'.l1 :: k in n.l1 && n'.l1[k] == n.l1[k]
  {
  }

  lemma SubFrame(i: nat, n: Node, log: seq<Store>, a: SubAction, n': Node)
    requires log != [] && SubStep(i, n, log, a, n')
    ensures n'.readers == n.readers && n'.lock == n.lock && n'.recovery == n.recovery && n.version <= n'.version
    ensures n'.pendingKeys == n.pendingKeys && n'.pendingFlush == n.pendingFlush
    ensures n.version == n'.version || n.lock.Free?
    ensures n'.resetAt == n.resetAt || (a.SubFlush? && n.version < n'.version)
    ensures n.degraded ==> n'.degraded
    ensures n'.ready && !n.ready ==> a.SubReady?
    ensures forall k <- n'.l1 :: k in n.l1 && n'.l1[k] == n.l1[k]
  {
  }

  lemma MutFrame(bus: bool, i: nat, n: Node, log: seq<Store>, a: MutAction, n': Node, log': seq<Store>, out: Out)
    requires log != [] && MutStep(bus, i, n, log, a, n', log', out)
    ensures log <= log'
    ensures n'.link == n.link && n'.subscriber == n.subscriber && n'.recovery == n.recovery && n'.ready == n.ready
    ensures n'.readers == n.readers && n'.resetAt == n.resetAt && n.version <= n'.version
    ensures !n.lock.Settling? && !n'.lock.Settling? && (n'.lock.Gate? ==> n'.lock.who.Mutation?)
    ensures n.degraded ==> n'.degraded
  {
  }

  lemma ReadFrame(n: Node, log: seq<Store>, a: ReadAction, n': Node)
    requires log != [] && ReadStep(n, log, a, n')
    ensures n' == n.(readers := n'.readers, lock := n'.lock)
    ensures LockMoves(n, n') && OneReader(n, n', a.rid)
  {
  }

  lemma GateFrame(n: Node, log: seq<Store>, n': Node)
    requires log != [] && GatePassStep(n, log, n')
    ensures n' == n.(l1 := n'.l1, readers := n'.readers, lock := n'.lock, degraded := n'.degraded, epoch := n'.epoch)
    ensures Idle(n'.lock) && OneReader(n, n', Holder(n.lock))
    ensures n.degraded ==> n'.degraded
    ensures n'.l1 == n.l1 || n'.l1 == map[]
  {
  }

  lemma SettleFrame(n: Node, k: Key, stored: bool, late: bool, n': Node)
    requires SettleStep(n, k, stored, late, n')
    ensures n' == n.(l1 := n'.l1, readers := n'.readers, lock := n'.lock)
    ensures n'.lock.Settling? && n'.lock.rid == n.lock.rid
    ensures n'.readers == n.readers || n'.readers == n.readers[n.lock.rid := n'.readers[n.lock.rid]]
    ensures n'.readers[n.lock.rid] == n.readers[n.lock.rid].(hits := n'.readers[n.lock.rid].hits)
    ensures n'.l1 == n.l1 || (k in n.readers[n.lock.rid].found && n'.l1 == n.l1[k := n.readers[n.lock.rid].found[k]])
  {
  }

  lemma HeldFrame(n: Node, log: seq<Store>, a: HeldAction, n': Node)
    requires log != [] && HeldStep(n, log, a, n')
    ensures n' == n.(l1 := n'.l1, readers := n'.readers, lock := n'.lock, degraded := n'.degraded, epoch := n'.epoch)
    ensures LockMoves(n, n') && Idle(n.lock) && OneReader(n, n', Holder(n.lock))
    ensures n.degraded ==> n'.degraded
    ensures a.Settle? || n'.l1 == n.l1 || n'.l1 == map[]
  {
    match a
    case GatePass => GateFrame(n, log, n');
    case Settle(k, stored, late) => SettleFrame(n, k, stored, late, n');
    case _ =>
  }

  lemma RecFrame(i: nat, n: Node, a: RecAction, n': Node, out: Out)
    requires RecStep(i, n, a, n', out)
    ensures n'.link == n.link && n'.subscriber == n.subscriber && n'.ready == n.ready && n'.lock == n.lock
    ensures n'.readers == n.readers && n'.resetAt == n.resetAt && n'.version == n.version
    ensures n'.l1 == n.l1 || n'.l1 == map[]
    ensures n.degraded && !n'.degraded ==> a.RecHealthy?
  {
  }

  /** Only recovery heals, only the reconnect flush resets, only a flushed subscriber gets ready. */
  lemma StepFrame(bus: bool, i: nat, n: Node, log: seq<Store>, a: Action, n': Node, log': seq<Store>, out: Out)
    requires log != [] && NodeStep(bus, i, n, log, a, n', log', out)
    ensures log <= log'
    ensures n.degraded && !n'.degraded ==> a == Rec(RecHealthy)
    ensures n'.ready && !n.ready ==> a == Sub(SubReady)
    ensures n'.resetAt != n.resetAt ==> a == Sub(SubFlush)
    ensures n.version <= n'.version
  {
    match a
    case Env(e) => EnvFrame(n, e, n');
    case Sub(e) => SubFrame(i, n, log, e, n');
    case Mut(e) => MutFrame(bus, i, n, log, e, n', log', out);
    case Read(e) => ReadFrame(n, log, e, n');
    case Held(e) => HeldFrame(n, log, e, n');
    case Rec(e) => RecFrame(i, n, e, n', out);
  }

  // ------------------------------------------------- what one instance keeps by itself

  /** Some pending invalidation waits to be published again. */
  predicate HasPending(n: Node) {
    n.pendingFlush || n.pendingKeys != {}
  }

  /** Recovery has seen the instance degraded and ready at once. */
  predicate Recovering(r: Recovery) {
    !r.Resting? && !r.SawDegraded?
  }

  predicate PastReplay(r: Recovery) {
    r.Replayed? || HoldsRecoveryMu(r)
  }

  predicate HealthInv(n: Node) {
    // A lock holder was let in while healthy; until it degrades the instance itself and leaves, only
    // a failing subscriber does so behind its back, and that subscriber then waits for the lock.
    && (!n.lock.Free? && !n.lock.Leaving? ==> !n.degraded || n.subscriber.FlushingDown?)
    && (!n.recovery.Resting? ==> n.degraded)
    && (Recovering(n.recovery) ==> n.lock.Free? || n.lock.Leaving?)
    && (n.recovery.Cleared? || n.recovery.Admitted? ==> n.lock.Free?)
    && (n.lock.Leaving? ==> n.degraded)
    && (n.recovery.EpochRead? || n.recovery.Cleared? ==> n.recovery.expected == n.epoch)
  }

  predicate PendingInv(n: Node) {
    && (n.pendingFlush ==> n.pendingKeys == {})
    && (HasPending(n) ==> n.degraded || n.lock.Degrading?)
    && (PastReplay(n.recovery) ==> !HasPending(n))
  }

  predicate EmptyInv(n: Node) {
    && (n.recovery.Cleared? || n.recovery.Admitted? ==> n.l1 == map[])
    && (n.subscriber.Flushed? ==> n.l1 == map[] && (n.lock.Free? || n.lock.Gate?))
  }

  predicate LinkInv(bus: bool, n: Node) {
    && (bus <==> !n.subscriber.Off?)
    && (!bus ==> !HasPending(n) && !n.lock.Marking? && !n.lock.Degrading?)
    && (n.ready <==> n.subscriber.Off? || n.subscriber.Listening? || n.subscriber.Holding? || n.subscriber.Dropped?)
    && match n.subscriber {
         case Off => n.link == Live([])
         case Connected => n.link.Opening? || n.link.Broken?
         case Flushed | Listening | Holding(_) => n.link.Live? || n.link.Broken?
         case _ => n.link.Down?
       }
  }

  /** A fetched item that may still be warmed was read after the last reconnect flush. */
  predicate ReaderInv(n: Node, r: Reader) {
    && r.version <= n.version
    && (!r.many ==> |r.keys| == 1)
    && (r.stage.Fetched? && r.version == n.version ==> n.resetAt <= r.at)
    && r.found.Keys <= r.misses
  }

  /** What the lock says about the reader that holds it. */
  predicate HolderInv(n: Node) {
    && (n.lock.Settling? ==>
          && n.lock.rid in n.readers
          && n.readers[n.lock.rid].stage.Fetched?
          && n.readers[n.lock.rid].version == n.version
          && n.lock.left <= n.readers[n.lock.rid].misses)
    && (n.lock.Gate? && n.lock.who.FinalCheck? ==>
          && n.lock.who.rid in n.readers
          && AtFinal(n.readers[n.lock.who.rid])
          && (ComparesVersion(n.readers[n.lock.who.rid]) ==> n.readers[n.lock.who.rid].version == n.version))
    && (n.lock.Gate? && n.lock.who.EntryCheck? ==>
          n.lock.who.rid in n.readers && n.readers[n.lock.who.rid].stage.Entering?)
  }

  predicate ReadersInv(n: Node) {
    (forall rid <- n.readers :: ReaderInv(n, n.readers[rid])) && HolderInv(n)
  }

  predicate StateInv(bus: bool, n: Node) {
    HealthInv(n) && PendingInv(n) && EmptyInv(n) && LinkInv(bus, n)
  }

  predicate NodeInv(bus: bool, n: Node, log: seq<Store>) {
    n.resetAt < |log| && StateInv(bus, n) && ReadersInv(n)
  }

  lemma SubKeepsState(bus: bool, i: nat, n: Node, log: seq<Store>, a: SubAction, n': Node)
    requires log != [] && StateInv(bus, n) && SubStep(i, n, log, a, n')
    ensures StateInv(bus, n')
  {
  }

  lemma MutKeepsState(bus: bool, i: nat, n: Node, log: seq<Store>, a: MutAction, n': Node, log': seq<Store>, out: Out)
    requires log != [] && StateInv(bus, n) && MutStep(bus, i, n, log, a, n', log', out)
    ensures StateInv(bus, n')
  {
  }

  lemma ReadKeepsState(bus: bool, n: Node, log: seq<Store>, a: ReadAction, n': Node)
    requires log != [] && StateInv(bus, n) && ReadStep(n, log, a, n')
    ensures StateInv(bus, n')
  {
  }

  lemma HeldKeepsState(bus: bool, n: Node, log: seq<Store>, a: HeldAction, n': Node)
    requires log != [] && StateInv(bus, n) && HeldStep(n, log, a, n')
    ensures StateInv(bus, n')
  {
  }

  lemma RecKeepsState(bus: bool, i: nat, n: Node, a: RecAction, n': Node, out: Out)
    requires StateInv(bus, n) && RecStep(i, n, a, n', out)
    ensures StateInv(bus, n')
  {
  }

  lemma SameReadersKeep(n: Node, n': Node)
    requires ReadersInv(n) && n'.readers == n.readers && n.version <= n'.version
    requires n'.resetAt == n.resetAt || n.version < n'.version
    requires HolderInv(n')
    ensures ReadersInv(n')
  {
    forall rid <- n'.readers ensures ReaderInv(n', n'.readers[rid]) { assert ReaderInv(n, n.readers[rid]); }
  }

  lemma OneReaderKeeps(n: Node, n': Node, rid: nat)
    requires ReadersInv(n) && OneReader(n, n', rid) && n'.version == n.version && n'.resetAt == n.resetAt
    requires rid in n'.readers ==> ReaderInv(n', n'.readers[rid])
    requires HolderInv(n')
    ensures ReadersInv(n')
  {
    forall x <- n'.readers ensures ReaderInv(n', n'.readers[x]) {
      if x != rid { assert ReaderInv(n, n.readers[x]); }
    }
  }

  lemma ReadKeepsHolder(n: Node, log: seq<Store>, a: ReadAction, n': Node)
    requires log != [] && ReadStep(n, log, a, n') && HolderInv(n)
    ensures HolderInv(n')
  {
  }

  lemma ReadKeepsReader(n: Node, log: seq<Store>, a: ReadAction, n': Node)
    requires n.resetAt < |log| && ReadStep(n, log, a, n')
    requires a.rid in n.readers ==> ReaderInv(n, n.readers[a.rid])
    ensures a.rid in n'.readers ==> ReaderInv(n', n'.readers[a.rid])
  {
  }

  lemma HeldKeepsHolder(n: Node, log: seq<Store>, a: HeldAction, n': Node)
    requires log != [] && HeldStep(n, log, a, n') && HolderInv(n)
    ensures HolderInv(n')
  {
  }

  lemma GateKeepsReader(n: Node, log: seq<Store>, n': Node)
    requires n.resetAt < |log| && GatePassStep(n, log, n')
    requires Holder(n.lock) in n.readers ==> ReaderInv(n, n.readers[Holder(n.lock)])
    ensures Holder(n.lock) in n'.readers ==> ReaderInv(n', n'.readers[Holder(n.lock)])
  {
  }

  lemma HeldKeepsReader(n: Node, log: seq<Store>, a: HeldAction, n': Node)
    requires n.resetAt < |log| && HeldStep(n, log, a, n')
    requires Holder(n.lock) in n.readers ==> ReaderInv(n, n.readers[Holder(n.lock)])
    ensures Holder(n.lock) in n'.readers ==> ReaderInv(n', n'.readers[Holder(n.lock)])
  {
    match a
    case GatePass => GateKeepsReader(n, log, n');
    case Settle(k, stored, late) => SettleFrame(n, k, stored, late, n');
    case _ =>
  }

  lemma StepKeepsNodeInv(bus: bool, i: nat, n: Node, log: seq<Store>, a: Action, n': Node, log': seq<Store>, out: Out)
    requires log != [] && NodeInv(bus, n, log) && NodeStep(bus, i, n, log, a, n', log', out)
    ensures log' != [] && NodeInv(bus, n', log')
  {
    match a
    case Env(e) =>
      EnvFrame(n, e, n'); SameReadersKeep(n, n');
    case Sub(e) =>
      SubFrame(i, n, log, e, n'); SubKeepsState(bus, i, n, log, e, n'); SameReadersKeep(n, n');
    case Mut(e) =>
      MutFrame(bus, i, n, log, e, n', log', out); MutKeepsState(bus, i, n, log, e, n', log', out);
      SameReadersKeep(n, n');
    case Read(e) =>
      ReadFrame(n, log, e, n'); ReadKeepsState(bus, n, log, e, n');
      ReadKeepsHolder(n, log, e, n'); ReadKeepsReader(n, log, e, n'); OneReaderKeeps(n, n', e.rid);
    case Held(e) =>
      HeldFrame(n, log, e, n'); HeldKeepsState(bus, n, log, e, n');
      HeldKeepsHolder(n, log, e, n'); HeldKeepsReader(n, log, e, n'); OneReaderKeeps(n, n', Holder(n.lock));
    case Rec(e) =>
      RecFrame(i, n, e, n', out); RecKeepsState(bus, i, n, e, n', out); SameReadersKeep(n, n');
  }

  // ------------------------------------------------------------ who owes an invalidation

  function ValueAt(l2: Store, k: Key): Option<Value> {
    if k in l2 then Some(l2[k].value) else None
  }

  /** The copy has another value than L2, whatever their lifetimes. */
  predicate Wrong(l2: Store, k: Key, copy: Item) {
    ValueAt(l2, k) != Some(copy.value)
  }

  /** The instance has changed k in L2 and not yet told the others. */
  predicate Untold(lock: Lock, k: Key) {
    match lock
    case Calling(op, dirty) => dirty && Rewrites(op, k)
    case Fixing(op, _) => Rewrites(op, k)
    case Publishing(op, todo) => Rewrites(op, k) && (op.Clear? || k in todo)
    case Marking(op) => Rewrites(op, k)
    case _ => false
  }

  predicate Duty(n: Node, k: Key) {
    Untold(n.lock, k) || n.pendingFlush || k in n.pendingKeys
  }

  /** An event for k waits in the queue of instance i or is in its subscriber's hand. */
  predicate Queued(n: Node, i: nat, k: Key) {
    || (exists x :: 0 <= x < |Buffered(n.link)| && Covers(Buffered(n.link)[x], i, k))
    || (n.subscriber.Holding? && Covers(n.subscriber.event, i, k))
  }

  /** Someone other than i's own mutation will still invalidate k at i: a queued event, a peer
      with k untold or pending, or the flush that must follow a lost subscription. */
  predicate Owed(s: System, i: nat, k: Key)
    requires i < |s.nodes|
  {
    || !s.nodes[i].link.Live?
    || Queued(s.nodes[i], i, k)
    || (exists j :: 0 <= j < |s.nodes| && j != i && Duty(s.nodes[j], k))
  }

  /** The instance's own mutation has changed k in L2 and has not bumped the version yet. */
  predicate Unbumped(lock: Lock, k: Key) {
    lock.Calling? && lock.dirty && Rewrites(lock.op, k)
  }

  /** The instance's own mutation has changed k in L2 and has not put L1 right yet. */
  predicate Unfixed(lock: Lock, k: Key) {
    || Unbumped(lock, k)
    || (lock.Fixing? && Rewrites(lock.op, k) && (lock.op.Clear? || k in lock.todo))
  }

  /** What is put right is more than the lifetime, which is all that Touch changes. */
  predicate Overwritten(lock: Lock, k: Key) {
    Unfixed(lock, k) && !lock.op.Renew?
  }

  /** Every stale L1 entry is owed an invalidation, or the instance's own mutation is about to
      put it right. */
  predicate L1Covered(n: Node, l2: Store, owed: iset<Key>) {
    forall k <- n.l1 ::
      && (Stale(l2, k, n.l1[k]) ==> k in owed || Unfixed(n.lock, k))
      && (Wrong(l2, k, n.l1[k]) ==> k in owed || Overwritten(n.lock, k))
  }

  /** The same for what a reader fetched, as long as its version is current. */
  predicate ReaderCovered(n: Node, r: Reader, l2: Store, owed: iset<Key>) {
    r.stage.Fetched? && r.version == n.version ==>
      forall k <- r.found :: Stale(l2, k, r.found[k]) ==> k in owed || Unbumped(n.lock, k)
  }

  predicate ReadersCovered(n: Node, l2: Store, owed: iset<Key>) {
    forall rid <- n.readers :: ReaderCovered(n, n.readers[rid], l2, owed)
  }

  /** The same for the values a mutation is about to write into L1. */
  predicate WriteCovered(lock: Lock, l2: Store, owed: iset<Key>) {
    ((lock.Calling? && lock.dirty) || lock.Fixing?) && lock.op.Put? ==>
      forall k <- lock.op.values ::
        (lock.Fixing? ==> k in lock.todo) && Stale(l2, k, lock.op.values[k]) ==> k in owed
  }

  predicate NodeCovered(n: Node, l2: Store, owed: iset<Key>) {
    L1Covered(n, l2, owed) && ReadersCovered(n, l2, owed) && WriteCovered(n.lock, l2, owed)
  }

  ghost function OwedKeys(s: System, i: nat): iset<Key>
    requires i < |s.nodes|
  {
    iset k: Key | Owed(s, i, k)
  }

  ghost predicate Covered(s: System, i: nat)
    requires s.log != [] && i < |s.nodes|
  {
    NodeCovered(s.nodes[i], Last(s.log), OwedKeys(s, i))
  }

  ghost predicate Inv(s: System) {
    && s.log != []
    && (s.bus || |s.nodes| <= 1)
    && (forall i :: 0 <= i < |s.nodes| ==> NodeInv(s.bus, s.nodes[i], s.log))
    && (forall i :: 0 <= i < |s.nodes| ==> Covered(s, i))
  }

  predicate Announces(out: Out, j: nat, k: Key) {
    && out.Send? && out.reach.Everyone? && out.event.origin == Some(j)
    && (out.event.target.None? || out.event.target == Some(k))
  }

  lemma EffectRewrites(op: Op, a: Store, b: Store, k: Key)
    requires Effect(op, a, b) && !Rewrites(op, k)
    ensures (k in a <==> k in b) && (k in a ==> a[k] == b[k])
  {
  }

  lemma MutDuty(i: nat, n: Node, log: seq<Store>, a: MutAction, n': Node, log': seq<Store>, out: Out, k: Key)
    requires log != [] && MutStep(true, i, n, log, a, n', log', out)
    ensures log' != [] && (Spoils(Last(log), Last(log'), k) ==> Duty(n', k))
    ensures Duty(n, k) ==> Duty(n', k) || Announces(out, i, k)
  {
    if a.MutEffect? && !Rewrites(n.lock.op, k) { EffectRewrites(n.lock.op, Last(log), a.after, k); }
  }

  lemma RecDuty(i: nat, n: Node, a: RecAction, n': Node, out: Out, k: Key)
    requires RecStep(i, n, a, n', out)
    ensures Duty(n, k) ==> Duty(n', k) || Announces(out, i, k)
  {
  }

  /** What instance i guarantees to its peers in each step: a change of L2 that makes copies of k
      stale creates a duty, and a duty ends only by announcing k to everyone. */
  lemma DutyStep(i: nat, n: Node, log: seq<Store>, a: Action, n': Node, log': seq<Store>, out: Out, k: Key)
    requires log != [] && NodeStep(true, i, n, log, a, n', log', out)
    ensures log' != [] && (Spoils(Last(log), Last(log'), k) ==> Duty(n', k))
    ensures Duty(n, k) ==> Duty(n', k) || Announces(out, i, k)
  {
    match a
    case Env(e) => EnvFrame(n, e, n');
    case Sub(e) => SubFrame(i, n, log, e, n');
    case Mut(e) => MutDuty(i, n, log, e, n', log', out, k);
    case Read(e) => ReadFrame(n, log, e, n');
    case Held(e) => HeldFrame(n, log, e, n');
    case Rec(e) => RecDuty(i, n, e, n', out, k);
  }

  // ------------------------------------------------------------ steps seen by a peer

  lemma DeliverAt(nodes: seq<Node>, out: Out, x: nat)
    requires x < |nodes|
    ensures var n, m := nodes[x], Deliver(nodes, out)[x];
            && m == n.(link := m.link)
            && (m == n || (out.Send? && m == Receive(n, out.event)))
            && (out.Send? && out.reach.Everyone? ==> m == Receive(n, out.event))
  {
  }

  /** Receiving a message never loses what was queued, and queues it if the link is up. */
  lemma ReceiveKeepsQueue(n: Node, e: Event, i: nat, k: Key)
    ensures Receive(n, e) == n.(link := Receive(n, e).link)
    ensures Receive(n, e).link.Live? <==> n.link.Live?
    ensures Queued(n, i, k) ==> Queued(Receive(n, e), i, k)
    ensures n.link.Live? && Covers(e, i, k) ==> Queued(Receive(n, e), i, k)
  {
    var q := Buffered(n.link);
    var q' := Buffered(Receive(n, e).link);
    assert forall x :: 0 <= x < |q| ==> q'[x] == q[x];
    if n.link.Live? && Covers(e, i, k) { assert q'[|q|] == e; }
  }

  /** A peer's step keeps what was owed, and owes whatever it changes. */
  lemma PeerOwes(s: System, m: Move, t: System, i: nat, k: Key)
    requires Next(s, m, t) && s.bus && i < |s.nodes| && i != m.who
    ensures t.log != []
    ensures Owed(s, i, k) ==> Owed(t, i, k)
    ensures Spoils(Last(s.log), Last(t.log), k) ==> Owed(t, i, k)
  {
    var j := m.who;
    var mid := s.nodes[j := m.node];
    DutyStep(j, s.nodes[j], s.log, m.action, m.node, m.log, m.out, k);
    DeliverAt(mid, m.out, i);
    DeliverAt(mid, m.out, j);
    if m.out.Send? {
      ReceiveKeepsQueue(s.nodes[i], m.out.event, i, k);
      ReceiveKeepsQueue(m.node, m.out.event, j, k);
    }
    if Duty(m.node, k) { assert Duty(t.nodes[j], k); }
    forall x | 0 <= x < |s.nodes| && x != i && x != j && Duty(s.nodes[x], k)
      ensures Duty(t.nodes[x], k)
    {
      DeliverAt(mid, m.out, x);
    }
  }

  /** What instance i sees of a peer's step. */
  ghost predicate PeerMoved(s: System, t: System, i: nat)
    requires s.log != [] && t.log != [] && i < |s.nodes| && i < |t.nodes|
  {
    && t.nodes[i] == s.nodes[i].(link := t.nodes[i].link)
    && forall k: Key ::
         (Owed(s, i, k) ==> Owed(t, i, k)) && (Spoils(Last(s.log), Last(t.log), k) ==> Owed(t, i, k))
  }

  lemma PeerMoves(s: System, m: Move, t: System, i: nat)
    requires Next(s, m, t) && s.bus && i < |s.nodes| && i != m.who
    ensures t.log != [] && i < |t.nodes| && PeerMoved(s, t, i)
  {
    DeliverAt(s.nodes[m.who := m.node], m.out, i);
    forall k: Key
      ensures t.log != []
      ensures Owed(s, i, k) ==> Owed(t, i, k)
      ensures Spoils(Last(s.log), Last(t.log), k) ==> Owed(t, i, k)
    {
      PeerOwes(s, m, t, i, k);
    }
  }

  lemma PeerKeepsCovered(s: System, t: System, i: nat)
    requires s.log != [] && t.log != [] && i < |s.nodes| && i < |t.nodes| && PeerMoved(s, t, i) && Covered(s, i)
    ensures Covered(t, i)
  {
    var n, n' := s.nodes[i], t.nodes[i];
    forall rid <- n'.readers ensures ReaderCovered(n', n'.readers[rid], Last(t.log), OwedKeys(t, i)) {
      assert ReaderCovered(n, n.readers[rid], Last(s.log), OwedKeys(s, i));
    }
  }

  // ------------------------------------------------------------ an instance's own steps

  predicate Applies(a: Action) {
    a.Sub? && (a.sub.SubFlush? || a.sub.SubApply?)
  }

  /** Only the reconnect flush and applying an event discharge what is owed to an instance. */
  lemma OwnKeepsOwed(s: System, m: Move, t: System, k: Key)
    requires Next(s, m, t) && !Applies(m.action)
    ensures Owed(s, m.who, k) ==> Owed(t, m.who, k)
  {
    var i := m.who;
    var n, mid := s.nodes[i], s.nodes[i := m.node];
    if Owed(s, i, k) {
      forall x | 0 <= x < |s.nodes| && x != i && Duty(s.nodes[x], k)
        ensures Duty(t.nodes[x], k)
      {
        DeliverAt(mid, m.out, x);
      }
      DeliverAt(mid, m.out, i);
      if m.out.Send? { ReceiveKeepsQueue(m.node, m.out.event, i, k); }
      OwnKeepsQueue(s.bus, i, n, s.log, m.action, m.node, m.log, m.out, k);
    }
  }

  lemma SubKeepsQueue(i: nat, n: Node, log: seq<Store>, a: SubAction, n': Node, k: Key)
    requires log != [] && SubStep(i, n, log, a, n') && !a.SubFlush? && !a.SubApply?
    ensures !n.link.Live? ==> !n'.link.Live?
    ensures Queued(n, i, k) ==> Queued(n', i, k) || !n'.link.Live?
  {
    if a.SubReceive? && Queued(n, i, k) && n.link.Live? {
      var q := n.link.queue;
      var x :| 0 <= x < |q| && Covers(q[x], i, k);
      if x > 0 { assert Buffered(n'.link)[x - 1] == q[x]; }
    }
  }

  lemma OwnKeepsQueue(bus: bool, i: nat, n: Node, log: seq<Store>, a: Action, n': Node, log': seq<Store>,
                      out: Out, k: Key)
    requires log != [] && NodeStep(bus, i, n, log, a, n', log', out) && !Applies(a)
    ensures !n.link.Live? ==> !n'.link.Live?
    ensures Queued(n, i, k) ==> Queued(n', i, k) || !n'.link.Live?
  {
    match a
    case Env(e) => if e.TrackingFlush? { ReceiveKeepsQueue(n, Event(None, None), i, k); }
    case Sub(e) => SubKeepsQueue(i, n, log, e, n', k);
    case Mut(e) => MutFrame(bus, i, n, log, e, n', log', out);
    case Read(e) => ReadFrame(n, log, e, n');
    case Held(e) => HeldFrame(n, log, e, n');
    case Rec(e) => RecFrame(i, n, e, n', out);
  }

  lemma ReadersStayCovered(n: Node, n': Node, l2: Store, owed: iset<Key>, owed': iset<Key>)
    requires ReadersCovered(n, l2, owed) && owed <= owed'
    requires n'.readers == n.readers && n'.version == n.version && n'.lock == n.lock
    ensures ReadersCovered(n', l2, owed')
  {
    forall rid <- n'.readers ensures ReaderCovered(n', n'.readers[rid], l2, owed') {
      assert ReaderCovered(n, n.readers[rid], l2, owed);
    }
  }

  lemma BumpCoversReaders(n: Node, n': Node, l2: Store, owed: iset<Key>)
    requires forall rid <- n.readers :: ReaderInv(n, n.readers[rid])
    requires n'.readers == n.readers && n.version < n'.version
    ensures ReadersCovered(n', l2, owed)
  {
    forall rid <- n'.readers ensures ReaderCovered(n', n'.readers[rid], l2, owed) {
      assert ReaderInv(n, n.readers[rid]);
    }
  }

  lemma L1StaysCovered(n: Node, n': Node, l2: Store, owed: iset<Key>, owed': iset<Key>)
    requires L1Covered(n, l2, owed) && n'.lock == n.lock
    requires forall k <- n'.l1 :: k in n.l1 && n'.l1[k] == n.l1[k] && (k in owed ==> k in owed')
    ensures L1Covered(n', l2, owed')
  {
    forall k <- n'.l1 | Stale(l2, k, n'.l1[k]) ensures k in owed' || Unfixed(n'.lock, k) {
      assert Stale(l2, k, n.l1[k]);
    }
  }

  lemma EnvKeepsCovered(n: Node, a: EnvAction, n': Node, l2: Store, owed: iset<Key>, owed': iset<Key>)
    requires EnvStep(n, a, n') && NodeCovered(n, l2, owed) && owed <= owed'
    ensures NodeCovered(n', l2, owed')
  {
    EnvFrame(n, a, n');
    ReadersStayCovered(n, n', l2, owed, owed');
    L1StaysCovered(n, n', l2, owed, owed');
  }

  lemma SubKeepsCovered(i: nat, n: Node, log: seq<Store>, a: SubAction, n': Node, l2: Store,
                        owed: iset<Key>, owed': iset<Key>)
    requires log != [] && SubStep(i, n, log, a, n') && NodeCovered(n, l2, owed)
    requires forall rid <- n.readers :: ReaderInv(n, n.readers[rid])
    requires a.SubFlush?
             || (a.SubApply? && forall k <- owed :: k in owed' || Covers(n.subscriber.event, i, k))
             || owed <= owed'
    ensures NodeCovered(n', l2, owed')
  {
    SubFrame(i, n, log, a, n');
    L1StaysCovered(n, n', l2, owed, owed');
    if n.version < n'.version {
      BumpCoversReaders(n, n', l2, owed');
    } else {
      ReadersStayCovered(n, n', l2, owed, owed');
    }
  }

  /** L2 changes: what becomes stale is about to be put right. */
  lemma EffectKeepsCovered(n: Node, log: seq<Store>, after: Store, n': Node, owed: iset<Key>, owed': iset<Key>)
    requires log != [] && n.lock.Calling? && Effect(n.lock.op, Last(log), after) && NodeCovered(n, Last(log), owed)
    requires n' == n.(lock := Calling(n.lock.op, true)) && owed <= owed'
    ensures NodeCovered(n', after, owed')
  {
    forall k | !Rewrites(n.lock.op, k)
      ensures k in Last(log) <==> k in after
      ensures k in Last(log) ==> Last(log)[k] == after[k]
    {
      EffectRewrites(n.lock.op, Last(log), after, k);
    }
  }

  lemma HarmlessKeepsCovered(n: Node, log: seq<Store>, after: Store, n': Node, owed: iset<Key>, owed': iset<Key>)
    requires log != [] && Harmless(Last(log), after) && NodeCovered(n, Last(log), owed)
    requires (n.lock.Calling? && !n.lock.dirty) || n.lock.Lost?
    requires n' == n.(lock := n'.lock) && n'.lock.Lost? && owed <= owed'
    ensures NodeCovered(n', after, owed')
  {
    forall k, copy: Item | k in Last(log) && !Stale(Last(log), k, copy) ensures !Stale(after, k, copy) {
      assert !Spoils(Last(log), after, k);
    }
    forall rid <- n'.readers ensures ReaderCovered(n', n'.readers[rid], after, owed') {
      assert ReaderCovered(n, n.readers[rid], Last(log), owed);
    }
  }

  /** The write to L1 that follows, one key at a time. */
  lemma FixKeepsCovered(n: Node, k: Key, keep: bool, n': Node, l2: Store, owed: iset<Key>, owed': iset<Key>)
    requires n.lock.Fixing? && !n.lock.op.Clear? && k in n.lock.todo && FixesL1(n.lock.op, k, keep, n.l1, n'.l1)
    requires n' == n.(l1 := n'.l1, lock := Fixing(n.lock.op, n.lock.todo - {k}))
    requires NodeCovered(n, l2, owed) && owed <= owed'
    ensures NodeCovered(n', l2, owed')
  {
    forall rid <- n'.readers ensures ReaderCovered(n', n'.readers[rid], l2, owed') {
      assert ReaderCovered(n, n.readers[rid], l2, owed);
    }
  }

  lemma MutKeepsCovered(bus: bool, i: nat, n: Node, log: seq<Store>, a: MutAction, n': Node, log': seq<Store>,
                        out: Out, owed: iset<Key>, owed': iset<Key>)
    requires log != [] && MutStep(bus, i, n, log, a, n', log', out) && NodeCovered(n, Last(log), owed) && owed <= owed'
    requires forall rid <- n.readers :: ReaderInv(n, n.readers[rid])
    ensures log' != [] && NodeCovered(n', Last(log'), owed')
  {
    match a
    case MutEffect(after) => EffectKeepsCovered(n, log, after, n', owed, owed');
    case MutLose(after) => HarmlessKeepsCovered(n, log, after, n', owed, owed');
    case MutFix(k, keep) => FixKeepsCovered(n, k, keep, n', Last(log), owed, owed');
    case _ =>
  }

  lemma ReadersWrittenCovered(n: Node, n': Node, rid: nat, l2: Store, owed: iset<Key>, owed': iset<Key>)
    requires ReadersCovered(n, l2, owed) && owed <= owed'
    requires n'.version == n.version && (forall k :: Unbumped(n.lock, k) ==> Unbumped(n'.lock, k))
    requires n'.readers - {rid} == n.readers - {rid}
    requires rid in n'.readers ==> ReaderCovered(n', n'.readers[rid], l2, owed')
    ensures ReadersCovered(n', l2, owed')
  {
    forall x <- n'.readers ensures ReaderCovered(n', n'.readers[x], l2, owed') {
      if x != rid {
        assert x in n'.readers - {rid} && x in n.readers && n'.readers[x] == n.readers[x];
        assert ReaderCovered(n, n.readers[x], l2, owed);
      }
    }
  }

  lemma ReadFetches(n: Node, log: seq<Store>, a: ReadAction, n': Node)
    requires log != [] && ReadStep(n, log, a, n')
    requires a.rid in n'.readers && n'.readers[a.rid].stage.Fetched?
    ensures (a.rid in n.readers && n.readers[a.rid] == n'.readers[a.rid])
            || (a.ReadFetch? && ReadsAs(n'.readers[a.rid].found, n.readers[a.rid].misses, Last(log)))
  {
  }

  lemma HeldFetches(n: Node, log: seq<Store>, a: HeldAction, n': Node)
    requires log != [] && HeldStep(n, log, a, n') && !a.Settle?
    requires Holder(n.lock) in n'.readers && n'.readers[Holder(n.lock)].stage.Fetched?
    ensures Holder(n.lock) in n.readers && n.readers[Holder(n.lock)] == n'.readers[Holder(n.lock)]
  {
  }

  lemma SettleKeepsCovered(n: Node, k: Key, stored: bool, late: bool, n': Node, l2: Store, owed: iset<Key>)
    requires SettleStep(n, k, stored, late, n') && ReadersInv(n) && NodeCovered(n, l2, owed)
    ensures NodeCovered(n', l2, owed)
  {
    SettleFrame(n, k, stored, late, n');
    assert ReaderCovered(n, n.readers[n.lock.rid], l2, owed);
    ReadersWrittenCovered(n, n', n.lock.rid, l2, owed, owed);
  }

  lemma CoveredGrows(n: Node, l2: Store, owed: iset<Key>, owed': iset<Key>)
    requires NodeCovered(n, l2, owed) && owed <= owed'
    ensures NodeCovered(n, l2, owed')
  {
    ReadersStayCovered(n, n, l2, owed, owed');
  }

  lemma IdleLockKeepsCovered(n: Node, n': Node, rid: nat, l2: Store, owed: iset<Key>, owed': iset<Key>)
    requires NodeCovered(n, l2, owed) && owed <= owed' && n'.version == n.version
    requires LockMoves(n, n') && OneReader(n, n', rid)
    requires n'.l1 == n.l1 || n'.l1 == map[]
    requires rid in n'.readers && n'.readers[rid].stage.Fetched? ==>
               || (rid in n.readers && n.readers[rid] == n'.readers[rid])
               || forall k <- n'.readers[rid].found :: !Stale(l2, k, n'.readers[rid].found[k])
    ensures NodeCovered(n', l2, owed')
  {
    if rid in n'.readers && rid in n.readers { assert ReaderCovered(n, n.readers[rid], l2, owed); }
    ReadersWrittenCovered(n, n', rid, l2, owed, owed');
  }

  lemma ReadKeepsCovered(n: Node, log: seq<Store>, a: ReadAction, n': Node, owed: iset<Key>, owed': iset<Key>)
    requires log != [] && ReadStep(n, log, a, n') && NodeCovered(n, Last(log), owed) && owed <= owed'
    ensures NodeCovered(n', Last(log), owed')
  {
    ReadFrame(n, log, a, n');
    if a.rid in n'.readers && n'.readers[a.rid].stage.Fetched? { ReadFetches(n, log, a, n'); }
    IdleLockKeepsCovered(n, n', a.rid, Last(log), owed, owed');
  }

  lemma HeldKeepsCovered(n: Node, log: seq<Store>, a: HeldAction, n': Node, owed: iset<Key>, owed': iset<Key>)
    requires log != [] && HeldStep(n, log, a, n') && NodeCovered(n, Last(log), owed) && owed <= owed'
    requires ReadersInv(n)
    ensures NodeCovered(n', Last(log), owed')
  {
    if a.Settle? {
      SettleKeepsCovered(n, a.key, a.stored, a.late, n', Last(log), owed);
      CoveredGrows(n', Last(log), owed, owed');
    } else {
      var rid := Holder(n.lock);
      HeldFrame(n, log, a, n');
      if rid in n'.readers && n'.readers[rid].stage.Fetched? { HeldFetches(n, log, a, n'); }
      IdleLockKeepsCovered(n, n', rid, Last(log), owed, owed');
    }
  }

  lemma RecKeepsCovered(i: nat, n: Node, a: RecAction, n': Node, out: Out, l2: Store, owed: iset<Key>, owed': iset<Key>)
    requires RecStep(i, n, a, n', out) && NodeCovered(n, l2, owed) && owed <= owed'
    ensures NodeCovered(n', l2, owed')
  {
    RecFrame(i, n, a, n', out);
    ReadersStayCovered(n, n', l2, owed, owed');
    L1StaysCovered(n, n', l2, owed, owed');
  }

  // ------------------------------------------------------------------ the whole system

  lemma ApplyOwed(s: System, m: Move, t: System, k: Key)
    requires Next(s, m, t) && m.action == Sub(SubApply) && Owed(s, m.who, k)
    ensures Owed(t, m.who, k) || Covers(s.nodes[m.who].subscriber.event, m.who, k)
  {
    forall x | 0 <= x < |s.nodes| && x != m.who && Duty(s.nodes[x], k)
      ensures Duty(t.nodes[x], k)
    {
      DeliverAt(s.nodes[m.who := m.node], m.out, x);
    }
  }

  lemma OwnKeepsCovered(s: System, m: Move, t: System)
    requires Next(s, m, t) && NodeInv(s.bus, s.nodes[m.who], s.log) && Covered(s, m.who)
    ensures t.log != [] && Covered(t, m.who)
  {
    var i, n := m.who, s.nodes[m.who];
    var owed, owed' := OwedKeys(s, i), OwedKeys(t, i);
    DeliverAt(s.nodes[i := m.node], m.out, i);
    assert t.nodes[i] == m.node.(link := t.nodes[i].link);
    if !Applies(m.action) {
      forall k <- owed ensures k in owed' { OwnKeepsOwed(s, m, t, k); }
    } else if m.action.sub.SubApply? {
      forall k <- owed ensures k in owed' || Covers(n.subscriber.event, i, k) { ApplyOwed(s, m, t, k); }
    }
    OwnNodeCovered(s.bus, i, n, s.log, m.action, m.node, m.log, m.out, owed, owed');
    LinkIsNoCopy(m.node, t.nodes[i], Last(t.log), owed');
  }

  lemma LinkIsNoCopy(n: Node, n': Node, l2: Store, owed: iset<Key>)
    requires NodeCovered(n, l2, owed) && n' == n.(link := n'.link)
    ensures NodeCovered(n', l2, owed)
  {
    ReadersStayCovered(n, n', l2, owed, owed);
  }

  lemma OwnNodeCovered(bus: bool, i: nat, n: Node, log: seq<Store>, a: Action, n': Node, log': seq<Store>, out: Out,
                       owed: iset<Key>, owed': iset<Key>)
    requires log != [] && NodeInv(bus, n, log) && NodeStep(bus, i, n, log, a, n', log', out)
    requires NodeCovered(n, Last(log), owed)
    requires !Applies(a) ==> owed <= owed'
    requires a == Sub(SubApply) ==> forall k <- owed :: k in owed' || Covers(n.subscriber.event, i, k)
    ensures log' != [] && NodeCovered(n', Last(log'), owed')
  {
    match a
    case Env(e) => EnvKeepsCovered(n, e, n', Last(log), owed, owed');
    case Sub(e) => SubKeepsCovered(i, n, log, e, n', Last(log), owed, owed');
    case Mut(e) => MutKeepsCovered(bus, i, n, log, e, n', log', out, owed, owed');
    case Read(e) => ReadKeepsCovered(n, log, e, n', owed, owed');
    case Held(e) => HeldKeepsCovered(n, log, e, n', owed, owed');
    case Rec(e) => RecKeepsCovered(i, n, e, n', out, Last(log), owed, owed');
  }

  lemma LoneIsQuiet(i: nat, n: Node, log: seq<Store>, a: Action, n': Node, log': seq<Store>, out: Out)
    requires log != [] && NodeInv(false, n, log) && NodeStep(false, i, n, log, a, n', log', out)
    ensures out.Quiet?
  {
  }

  lemma LogGrows(s: System, m: Move, t: System)
    requires Next(s, m, t)
    ensures s.log <= t.log && |t.nodes| == |s.nodes| && t.bus == s.bus
  {
  }

  lemma ReceiveKeepsNodeInv(n: Node, e: Event, log: seq<Store>, log': seq<Store>)
    requires NodeInv(true, n, log) && log <= log'
    ensures NodeInv(true, Receive(n, e), log') && NodeInv(true, n, log')
  {
    var n' := Receive(n, e);
    assert n' == n.(link := n'.link);
  }

  lemma NextKeepsNodes(s: System, m: Move, t: System, i: nat)
    requires Inv(s) && Next(s, m, t) && i < |s.nodes|
    ensures NodeInv(t.bus, t.nodes[i], t.log)
  {
    var mid := s.nodes[m.who := m.node];
    StepKeepsNodeInv(s.bus, m.who, s.nodes[m.who], s.log, m.action, m.node, m.log, m.out);
    LogGrows(s, m, t);
    DeliverAt(mid, m.out, i);
    if s.bus {
      ReceiveKeepsNodeInv(mid[i], if m.out.Send? then m.out.event else Event(None, None),
                          if i == m.who then t.log else s.log, t.log);
    } else {
      LoneIsQuiet(m.who, s.nodes[m.who], s.log, m.action, m.node, m.log, m.out);
    }
  }

  lemma NextKeepsInv(s: System, m: Move, t: System)
    requires Inv(s) && Next(s, m, t)
    ensures Inv(t)
  {
    LogGrows(s, m, t);
    forall i | 0 <= i < |t.nodes| ensures NodeInv(t.bus, t.nodes[i], t.log) && t.log != [] && Covered(t, i) {
      NextKeepsNodes(s, m, t, i);
      if i == m.who { OwnKeepsCovered(s, m, t); } else { PeerMoves(s, m, t, i); PeerKeepsCovered(s, t, i); }
    }
  }

  lemma InitHasInv(s: System)
    requires Init(s)
    ensures Inv(s)
  {
    forall i | 0 <= i < |s.nodes| ensures NodeInv(s.bus, s.nodes[i], s.log) && Covered(s, i) {
      assert InitNode(s.bus, s.nodes[i]);
    }
  }

  lemma {:induction false} RunKeepsInv(states: seq<System>, moves: seq<Move>, x: nat)
    requires Run(states, moves) && x < |states|
    ensures Inv(states[x])
  {
    if x == 0 {
      InitHasInv(states[0]);
    } else {
      RunKeepsInv(states, moves, x - 1);
      NextKeepsInv(states[x - 1], moves[x - 1], states[x]);
    }
  }

  // ---------------------------------------------------------------------- main results

  /** Coherence: in every reachable state of any number of instances, an L1 entry that disagrees
      with L2 or would outlive its item there is owed an invalidation, unless its own instance is
      about to put it right. */
  lemma StaleEntryIsOwed(states: seq<System>, moves: seq<Move>, x: nat, i: nat, k: Key)
    requires Run(states, moves) && x < |states| && i < |states[x].nodes|
    requires states[x].log != [] && k in states[x].nodes[i].l1
    requires Stale(Last(states[x].log), k, states[x].nodes[i].l1[k])
    ensures Owed(states[x], i, k) || Unfixed(states[x].nodes[i].lock, k)
  {
    RunKeepsInv(states, moves, x);
    assert Covered(states[x], i);
  }

  /** The same for an L2 read in flight that could still be warmed into L1. */
  lemma StaleReadIsOwed(states: seq<System>, moves: seq<Move>, x: nat, i: nat, rid: nat, k: Key)
    requires Run(states, moves) && x < |states| && i < |states[x].nodes| && states[x].log != []
    requires var n := states[x].nodes[i];
             && rid in n.readers && n.readers[rid].stage.Fetched? && n.readers[rid].version == n.version
             && k in n.readers[rid].found && Stale(Last(states[x].log), k, n.readers[rid].found[k])
    ensures Owed(states[x], i, k) || Unbumped(states[x].nodes[i].lock, k)
  {
    RunKeepsInv(states, moves, x);
    var n := states[x].nodes[i];
    assert Covered(states[x], i);
    assert ReaderCovered(n, n.readers[rid], Last(states[x].log), OwedKeys(states[x], i));
  }

  /** No mutation is under way anywhere and no invalidation is queued, in hand or pending. */
  predicate Settled(s: System) {
    forall i :: 0 <= i < |s.nodes| ==>
      var n := s.nodes[i];
      n.link == Live([]) && !n.subscriber.Holding? && Idle(n.lock) && !HasPending(n)
  }

  /** Once the bus has caught up, every L1 holds only what L2 holds, and nothing longer than L2. */
  lemma SettledMeansFresh(states: seq<System>, moves: seq<Move>, x: nat, i: nat, k: Key)
    requires Run(states, moves) && x < |states| && i < |states[x].nodes| && Settled(states[x])
    requires states[x].log != [] && k in states[x].nodes[i].l1
    ensures !Stale(Last(states[x].log), k, states[x].nodes[i].l1[k])
  {
    if Stale(Last(states[x].log), k, states[x].nodes[i].l1[k]) {
      StaleEntryIsOwed(states, moves, x, i, k);
    }
  }

  lemma HealingStep(bus: bool, i: nat, n: Node, log: seq<Store>, a: Action, n': Node, log': seq<Store>, out: Out)
    requires log != [] && NodeInv(bus, n, log) && NodeStep(bus, i, n, log, a, n', log', out)
    requires n.degraded && !n'.degraded
    ensures n.l1 == map[] && n'.l1 == map[] && !HasPending(n) && !HasPending(n')
  {
    StepFrame(bus, i, n, log, a, n', log', out);
  }

  /** Recovery: whenever an instance turns from degraded to healthy its L1 is empty and nothing is
      pending, whatever mutations, readers and the subscriber did meanwhile. */
  lemma HealedIsClean(states: seq<System>, moves: seq<Move>, x: nat, i: nat)
    requires Run(states, moves) && x < |moves| && i < |states[x].nodes| && i < |states[x + 1].nodes|
    requires states[x].nodes[i].degraded && !states[x + 1].nodes[i].degraded
    ensures states[x].nodes[i].l1 == map[] && states[x + 1].nodes[i].l1 == map[]
    ensures !HasPending(states[x].nodes[i]) && !HasPending(states[x + 1].nodes[i])
  {
    var s, m, t := states[x], moves[x], states[x + 1];
    RunKeepsInv(states, moves, x);
    assert Next(s, m, t);
    DeliverAt(s.nodes[m.who := m.node], m.out, i);
    HealingStep(s.bus, i, s.nodes[i], s.log, m.action, m.node, m.log, m.out);
  }

  /** Pending work exists only while degraded or while the mutation that marked it holds the lock;
      a pending flush swallows the pending keys; the epoch guard of recovery never fires. */
  lemma PendingIsHeld(states: seq<System>, moves: seq<Move>, x: nat, i: nat)
    requires Run(states, moves) && x < |states| && i < |states[x].nodes|
    ensures var n := states[x].nodes[i];
            && (HasPending(n) ==> n.degraded || n.lock.Degrading?)
            && (n.pendingFlush ==> n.pendingKeys == {})
            && (n.recovery.Cleared? ==> n.degraded && n.epoch == n.recovery.expected)
  {
    RunKeepsInv(states, moves, x);
  }

  lemma ReadyingStep(bus: bool, i: nat, n: Node, log: seq<Store>, a: Action, n': Node, log': seq<Store>, out: Out)
    requires log != [] && NodeInv(bus, n, log) && NodeStep(bus, i, n, log, a, n', log', out)
    requires !n.ready && n'.ready
    ensures n'.l1 == map[]
  {
    StepFrame(bus, i, n, log, a, n', log', out);
  }

  /** Subscription gap: L1 is empty whenever an instance becomes ready again. */
  lemma ReadyAgainIsEmpty(states: seq<System>, moves: seq<Move>, x: nat, i: nat)
    requires Run(states, moves) && x < |moves| && i < |states[x].nodes| && i < |states[x + 1].nodes|
    requires !states[x].nodes[i].ready && states[x + 1].nodes[i].ready
    ensures states[x + 1].nodes[i].l1 == map[]
  {
    var s, m, t := states[x], moves[x], states[x + 1];
    RunKeepsInv(states, moves, x);
    assert Next(s, m, t);
    DeliverAt(s.nodes[m.who := m.node], m.out, i);
    ReadyingStep(s.bus, i, s.nodes[i], s.log, m.action, m.node, m.log, m.out);
  }
}
