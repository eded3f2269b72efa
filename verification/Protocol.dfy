/**
 The coherence protocol of TieredCache as a transition system.

 A system is any number of instances, each with its own L1, one shared L2 and a bus of
 per-subscriber queues.  A step is the code between two lock, atomic or network points, so
 every interleaving of the goroutines is a run.  L2 is kept as the log of all its
 committed contents, the last one being current.

 Expiry is not timed here.  A committed item that carries a TTL is `mortal`: a read of L2 may
 miss it, and any L1 entry may disappear at any moment (expiry, eviction, cleanup).
 */
module Protocol {
  import opened Wrappers

  type Key = string
  type Value = string

  datatype Item = Item(value: Value, mortal: bool)

  type Store = map<Key, Item>

  /** An invalidation message: one key, or a flush when `target` is None.  A flush raised by
      Redis key tracking has no origin. */
  datatype Event = Event(target: Option<Key>, origin: Option<nat>)

  predicate Covers(e: Event, receiver: nat, k: Key) {
    e.origin != Some(receiver) && (e.target.None? || e.target == Some(k))
  }

  /** The transport behind one subscription.  `Opening` is attached but L1 has not been flushed
      since; `Broken` still hands out what it had buffered but receives nothing new. */
  datatype Link = Down | Opening(queue: seq<Event>) | Live(queue: seq<Event>) | Broken(queue: seq<Event>)

  function Buffered(link: Link): seq<Event> {
    if link.Down? then [] else link.queue
  }

  /** Authoritative mutations: Set, Forever, Add and SetMany; Increment and Decrement; Forget;
      Touch; Flush. */
  datatype Op =
    | Put(values: Store, onlyAbsent: bool)
    | Count(key: Key)
    | Remove(key: Key)
    | Renew(key: Key)
    | Clear

  function Keys(op: Op): set<Key> {
    match op
    case Put(values, _) => values.Keys
    case Clear => {}
    case _ => {op.key}
  }

  /** The operation can change what L2 holds for `k`. */
  predicate Rewrites(op: Op, k: Key) {
    op.Clear? || k in Keys(op)
  }

  /** One atomic change of L2 made by the operation.  A flush scans and deletes, so it makes
      many of them. */
  predicate Effect(op: Op, a: Store, b: Store) {
    match op
    case Put(values, onlyAbsent) =>
      && b == a + values
      && (onlyAbsent ==> forall k <- values :: k in a ==> a[k].mortal)
    case Count(k) =>
      && k in b
      && b == a[k := b[k]]
      && (b[k].mortal ==> k in a && a[k].mortal)
    case Remove(k) => b == a - {k}
    case Renew(k) => k in a && b == a[k := a[k].(mortal := true)]
    case Clear => forall k <- b :: k in a && b[k] == a[k]
  }

  /** A copy of k disagrees with L2: another value, no item at all, or a copy without expiry of an
      item that expires and that the copy would outlive. */
  predicate Stale(l2: Store, k: Key, copy: Item) {
    !(k in l2 && l2[k].value == copy.value && (l2[k].mortal ==> copy.mortal))
  }

  /** A change of L2 that turns good copies of k into stale ones. */
  predicate Spoils(a: Store, b: Store, k: Key) {
    k in a && Stale(b, k, a[k])
  }

  predicate Harmless(a: Store, b: Store) {
    forall k <- a :: !Spoils(a, b, k)
  }

  /** Who is checking availability: health is loaded first, readiness second. */
  datatype Visitor = Mutation(op: Op) | EntryCheck(rid: nat) | FinalCheck(rid: nat)

  /** The holder of mutationMu and how far it got.  `Lost` is a call that changed L2 and then failed;
      `Leaving` has just degraded the instance and may still have to flush L1. */
  datatype Lock =
    | Free
    | Gate(who: Visitor)
    | Calling(op: Op, dirty: bool)
    | Lost(op: Op)
    | Fixing(op: Op, todo: set<Key>)
    | Publishing(op: Op, todo: set<Key>)
    | Marking(op: Op)
    | Degrading
    | Leaving(flush: bool)
    | Settling(rid: nat, left: set<Key>)

  datatype Subscriber =
    | Off
    | Resetting
    | Connecting
    | Connected
    | Flushed
    | Listening
    | Holding(event: Event)
    | Dropped
    | Failed
    | FlushingDown

  datatype Recovery =
    | Resting
    | SawDegraded
    | Probing
    | Replaying
    | Replayed
    | Armed
    | ArmedReady
    | EpochRead(expected: nat)
    | Cleared(expected: nat)
    | Admitted

  /** recoveryMu is held from arming until the health state changes. */
  predicate HoldsRecoveryMu(r: Recovery) {
    r.Armed? || r.ArmedReady? || r.EpochRead? || r.Cleared? || r.Admitted?
  }

  datatype Stage = Entering | Scanning | Fetching | Fetched | FetchFailed

  /** One call of Get (`many` false, one key) or GetMany.  `since` is the position in the L2 log
      at the latest entry check and `at` the one at the L2 read. */
  datatype Reader = Reader(
    keys: seq<Key>, many: bool, stage: Stage,
    since: nat, version: nat,
    next: nat, hits: map<Key, Value>, misses: set<Key>,
    found: Store, at: nat)

  /** One instance; `resetAt` is the position in the L2 log at its last reconnect flush. */
  datatype Node = Node(
    l1: Store,
    version: nat,
    degraded: bool, epoch: nat, ready: bool,
    pendingKeys: set<Key>, pendingFlush: bool,
    link: Link, subscriber: Subscriber,
    lock: Lock, recovery: Recovery,
    readers: map<nat, Reader>,
    resetAt: nat)

  datatype System = System(bus: bool, log: seq<Store>, nodes: seq<Node>)

  datatype Reach = Everyone | Only(members: set<nat>)

  datatype Out = Quiet | Send(event: Event, reach: Reach)

  datatype EnvAction = Evict(key: Key) | Break | TrackingFlush

  datatype SubAction =
    SubReset | SubRefused | SubAttach | SubFlush | SubReady | SubReceive | SubLose | SubNotReady |
    SubDegrade | SubFlushDown | SubApply

  datatype MutAction =
    | MutLock(op: Op)
    | MutEffect(after: Store)
    | MutLose(after: Store)
    | MutReject
    | MutFail
    | MutBump
    | MutFix(key: Key, keep: bool)
    | MutFixFlush
    | MutFixed
    | MutPublish(key: Key)
    | MutPublishFlush
    | MutPublished
    | MutPublishFail(event: Event, members: set<nat>)
    | MutMark
    | MutDegrade

  datatype ReadAction =
    | ReadCall(rid: nat, keys: seq<Key>, many: bool)
    | ReadEnter(rid: nat)
    | ReadProbe(rid: nat)
    | ReadFetchStart(rid: nat)
    | ReadFetch(rid: nat, found: Store)
    | ReadFetchFail(rid: nat)
    | ReadFinal(rid: nat)
    | ReadRetry(rid: nat)
    | ReadRefused(rid: nat)

  /** Steps of whoever holds the lock for an availability check or a reader's last section, or leaves it
      after degrading. */
  datatype HeldAction = GatePass | GateRefuse | Settle(key: Key, stored: bool, late: bool) | SettleDone | Leave

  datatype RecAction =
    | RecWake
    | RecReady
    | RecAbort
    | RecProbe
    | RecReplayKey(key: Key)
    | RecReplayFlush
    | RecReplayFail(event: Event, members: set<nat>)
    | RecReplayed
    | RecArm
    | RecArmReady
    | RecEpoch
    | RecFlush
    | RecAdmit
    | RecHealthy

  datatype Action =
    | Env(env: EnvAction) | Sub(sub: SubAction) | Mut(mut: MutAction)
    | Read(read: ReadAction) | Held(held: HeldAction) | Rec(rec: RecAction)

  function Degrade(n: Node): Node {
    n.(degraded := true, epoch := if n.degraded then n.epoch else n.epoch + 1)
  }

  function Last(log: seq<Store>): Store
    requires log != []
  {
    log[|log| - 1]
  }

  function Receive(n: Node, e: Event): Node {
    match n.link
    case Opening(q) => n.(link := Opening(q + [e]))
    case Live(q) => n.(link := Live(q + [e]))
    case _ => n
  }

  function Deliver(nodes: seq<Node>, out: Out): (r: seq<Node>)
    ensures |r| == |nodes|
  {
    if out.Quiet? then nodes
    else (
      seq(|nodes|, j requires 0 <= j < |nodes| =>
        if out.reach.Everyone? || j in out.reach.members then Receive(nodes[j], out.event) else nodes[j])
    )
  }

  /** What one L2 read of `wanted` may return: exactly the committed items, except that a mortal
      one may have expired. */
  predicate ReadsAs(found: Store, wanted: set<Key>, l2: Store) {
    && found.Keys <= wanted
    && (forall k <- found :: k in l2 && found[k] == l2[k])
    && (forall k <- wanted :: k !in found && k in l2 ==> l2[k].mortal)
  }

  /** The reader is about to take mutationMu for the last time. */
  predicate AtFinal(r: Reader) {
    r.stage.Fetched? || r.stage.FetchFailed? || (r.stage.Scanning? && r.next == |r.keys| && r.misses == {})
  }

  /** Get returns an L1 hit without comparing versions; every other exit compares. */
  predicate ComparesVersion(r: Reader) {
    r.many || !r.stage.Scanning?
  }

  // ---------------------------------------------------------------- steps of one instance

  predicate EnvStep(n: Node, a: EnvAction, n': Node) {
    match a
    case Evict(k) => n' == n.(l1 := n.l1 - {k})
    case Break =>
      && !n.subscriber.Off? && !n.link.Down?
      && n' == n.(link := Broken(n.link.queue))
    case TrackingFlush =>
      && !n.subscriber.Off?
      && n' == Receive(n, Event(None, None))
  }

  predicate SubStep(i: nat, n: Node, log: seq<Store>, a: SubAction, n': Node)
    requires log != []
  {
    match a
    case SubReset => n.subscriber.Resetting? && n' == n.(subscriber := Connecting, ready := false)
    case SubRefused => n.subscriber.Connecting? && n' == n.(subscriber := Failed)
    case SubAttach => n.subscriber.Connecting? && n' == n.(subscriber := Connected, link := Opening([]))
    case SubFlush =>
      && n.subscriber.Connected? && n.lock.Free? && !HoldsRecoveryMu(n.recovery)
      && n' == n.(subscriber := Flushed, version := n.version + 1, l1 := map[], resetAt := |log| - 1,
                  link := if n.link.Opening? then Live(n.link.queue) else n.link)
    case SubReady => n.subscriber.Flushed? && n' == n.(subscriber := Listening, ready := true)
    case SubReceive =>
      && n.subscriber.Listening?
      && match n.link {
           case Live(q) => q != [] && n' == n.(subscriber := Holding(q[0]), link := Live(q[1..]))
           case Broken(q) => q != [] && n' == n.(subscriber := Holding(q[0]), link := Broken(q[1..]))
           case _ => false
         }
    case SubLose =>
      && (n.subscriber.Listening? || n.subscriber.Holding?)
      && n' == n.(subscriber := Dropped, link := Down)
    case SubNotReady => n.subscriber.Dropped? && n' == n.(subscriber := Failed, ready := false)
    case SubDegrade =>
      && n.subscriber.Failed? && !n.recovery.Admitted?
      && n' == Degrade(n).(subscriber := FlushingDown)
    case SubFlushDown =>
      && n.subscriber.FlushingDown? && n.lock.Free? && !HoldsRecoveryMu(n.recovery)
      && n' == n.(subscriber := Resetting, l1 := map[])
    case SubApply =>
      && n.subscriber.Holding?
      && var e := n.subscriber.event;
         if e.origin == Some(i) then
           n' == n.(subscriber := Listening)
         else
           && n.lock.Free?
           && n' == n.(subscriber := Listening, version := n.version + 1,
                       l1 := if e.target.None? then map[] else n.l1 - {e.target.value})
  }

  /** The L1 write that follows a committed operation; an entry whose TTL ran out meanwhile is
      forgotten instead of written. */
  predicate FixesL1(op: Op, k: Key, keep: bool, l1: Store, l1': Store) {
    match op
    case Put(values, _) =>
      && k in values
      && if keep then l1' == l1[k := values[k]] else values[k].mortal && l1' == l1 - {k}
    case Renew(_) =>
      l1' == if !keep then l1 - {k} else if k in l1 then l1[k := l1[k].(mortal := true)] else l1
    case _ => l1' == l1 - {k}
  }

  /** What is left to do after the L2 call: a Touch that found nothing goes on like a Forget. */
  function Following(op: Op, dirty: bool): Op {
    if op.Renew? && !dirty then Remove(op.key) else op
  }

  predicate EventOf(i: nat, op: Op, todo: set<Key>, e: Event) {
    && e.origin == Some(i)
    && if op.Clear? then e.target.None? else e.target.Some? && e.target.value in todo
  }

  /** L2 makes the change but the call will fail; a flush can fail after some of its pages. */
  predicate LosesReply(n: Node, log: seq<Store>, after: Store, n': Node)
    requires log != []
  {
    && ((n.lock.Calling? && !n.lock.dirty) || (n.lock.Lost? && n.lock.op.Clear?))
    && Effect(n.lock.op, Last(log), after)
    && n' == n.(lock := Lost(n.lock.op))
  }

  predicate MutStep(bus: bool, i: nat, n: Node, log: seq<Store>, a: MutAction, n': Node, log': seq<Store>, out: Out)
    requires log != []
  {
    && (!a.MutEffect? && !a.MutLose? ==> log' == log)
    && (!a.MutPublish? && !a.MutPublishFlush? && !a.MutPublishFail? ==> out == Quiet)
    && match a {
         case MutLock(op) => n.lock.Free? && !n.degraded && n' == n.(lock := Gate(Mutation(op)))
         case MutEffect(after) =>
           && n.lock.Calling? && (n.lock.dirty ==> n.lock.op.Clear?)
           && Effect(n.lock.op, Last(log), after)
           && log' == log + [after]
           && n' == n.(lock := Calling(n.lock.op, true))
         case MutLose(after) =>
           && LosesReply(n, log, after, n') && Harmless(Last(log), after)
           && log' == log + [after]
         case MutReject =>
           && n.lock.Calling? && !n.lock.dirty && (n.lock.op.Put? || n.lock.op.Count?)
           && n' == n.(lock := Free)
         case MutFail =>
           && ((n.lock.Calling? && !n.lock.dirty) || n.lock.Lost?)
           && n' == Degrade(n).(lock := Leaving(n.lock.op.Renew?))
         case MutBump =>
           && n.lock.Calling? && (n.lock.op.Put? || n.lock.op.Count? ==> n.lock.dirty)
           && n' == n.(version := n.version + 1,
                       lock := Fixing(Following(n.lock.op, n.lock.dirty), Keys(n.lock.op)))
         case MutFix(k, keep) =>
           && n.lock.Fixing? && !n.lock.op.Clear? && k in n.lock.todo
           && FixesL1(n.lock.op, k, keep, n.l1, n'.l1)
           && n' == n.(l1 := n'.l1, lock := Fixing(n.lock.op, n.lock.todo - {k}))
         case MutFixFlush =>
           && n.lock.Fixing?
           && n' == n.(l1 := map[], lock := Publishing(n.lock.op, Keys(n.lock.op)))
         case MutFixed =>
           && n.lock.Fixing? && !n.lock.op.Clear? && n.lock.todo == {}
           && n' == n.(lock := Publishing(n.lock.op, Keys(n.lock.op)))
         case MutPublish(k) =>
           && bus && n.lock.Publishing? && !n.lock.op.Clear? && k in n.lock.todo
           && out == Send(Event(Some(k), Some(i)), Everyone)
           && n' == n.(lock := Publishing(n.lock.op, n.lock.todo - {k}))
         case MutPublishFlush =>
           && bus && n.lock.Publishing? && n.lock.op.Clear?
           && out == Send(Event(None, Some(i)), Everyone)
           && n' == n.(lock := Free)
         case MutPublished =>
           && n.lock.Publishing? && (bus ==> !n.lock.op.Clear? && n.lock.todo == {})
           && n' == n.(lock := Free)
         case MutPublishFail(e, members) =>
           && bus && n.lock.Publishing? && EventOf(i, n.lock.op, n.lock.todo, e)
           && out == Send(e, Only(members))
           && n' == n.(lock := Marking(n.lock.op))
         case MutMark =>
           && n.lock.Marking? && !n.recovery.Replaying?
           && n' == n.(lock := Degrading,
                       pendingFlush := n.pendingFlush || n.lock.op.Clear?,
                       pendingKeys := if n.pendingFlush || n.lock.op.Clear? then {}
                                      else n.pendingKeys + Keys(n.lock.op))
         case MutDegrade =>
           && n.lock.Degrading?
           && n' == Degrade(n).(lock := Leaving(true))
       }
  }

  function Drop(n: Node, rid: nat): Node {
    n.(readers := n.readers - {rid})
  }

  function Probed(n: Node, r: Reader): Reader
    requires r.next < |r.keys|
  {
    var k := r.keys[r.next];
    if k in n.l1 then r.(next := r.next + 1, hits := r.hits[k := n.l1[k].value])
    else r.(next := r.next + 1, misses := r.misses + {k})
  }

  predicate GatePassStep(n: Node, log: seq<Store>, n': Node)
    requires log != []
  {
    && n.lock.Gate? && n.ready
    && match n.lock.who {
         case Mutation(op) => n' == n.(lock := Calling(op, false))
         case EntryCheck(rid) =>
           && rid in n.readers
           && n' == n.(lock := Free, readers := n.readers[rid := n.readers[rid].(
                         stage := Scanning, since := |log| - 1, version := n.version,
                         next := 0, hits := map[], misses := {}, found := map[])])
         case FinalCheck(rid) =>
           && rid in n.readers
           && match n.readers[rid].stage {
                case FetchFailed => n' == Drop(Degrade(n).(lock := Leaving(true)), rid)
                case Fetched => n' == n.(lock := Settling(rid, n.readers[rid].misses))
                case _ => n' == Drop(n.(lock := Free), rid)
              }
       }
  }

  /** Under the lock: L1 wins if it has an entry by now, otherwise the L2 item is warmed, unless
      it ran out while it was being read. */
  predicate SettleStep(n: Node, k: Key, stored: bool, late: bool, n': Node) {
    && n.lock.Settling? && k in n.lock.left && n.lock.rid in n.readers
    && var rid := n.lock.rid;
       var r := n.readers[rid];
       var unlocked := n.(lock := Settling(rid, n.lock.left - {k}));
       if k in n.l1 then
         !late && n' == unlocked.(readers := n.readers[rid := r.(hits := r.hits[k := n.l1[k].value])])
       else if k !in r.found || late then
         (late ==> k in r.found && r.found[k].mortal) && n' == unlocked
       else
         n' == unlocked.(l1 := if stored then n.l1[k := r.found[k]] else n.l1,
                         readers := n.readers[rid := r.(hits := r.hits[k := r.found[k].value])])
  }

  predicate ReadStep(n: Node, log: seq<Store>, a: ReadAction, n': Node)
    requires log != []
  {
    match a
    case ReadCall(rid, keys, many) =>
      && rid !in n.readers && keys != [] && (!many ==> |keys| == 1)
      && n' == n.(readers := n.readers[rid := Reader(keys, many, Entering, 0, 0, 0, map[], {}, map[], 0)])
    case ReadEnter(rid) =>
      && rid in n.readers && n.readers[rid].stage.Entering? && n.lock.Free? && !n.degraded
      && n' == n.(lock := Gate(EntryCheck(rid)))
    case ReadProbe(rid) =>
      && rid in n.readers && n.readers[rid].stage.Scanning? && n.readers[rid].next < |n.readers[rid].keys|
      && n' == n.(readers := n.readers[rid := Probed(n, n.readers[rid])])
    case ReadFetchStart(rid) =>
      && rid in n.readers
      && var r := n.readers[rid];
         && r.stage.Scanning? && r.next == |r.keys| && r.misses != {}
         && n' == n.(readers := n.readers[rid :=
                       if r.many then r.(stage := Fetching)
                       else r.(stage := Fetching, version := n.version)])
    case ReadFetch(rid, found) =>
      && rid in n.readers && n.readers[rid].stage.Fetching?
      && ReadsAs(found, n.readers[rid].misses, Last(log))
      && n' == n.(readers := n.readers[rid := n.readers[rid].(stage := Fetched, found := found, at := |log| - 1)])
    case ReadFetchFail(rid) =>
      && rid in n.readers && n.readers[rid].stage.Fetching?
      && n' == n.(readers := n.readers[rid := n.readers[rid].(stage := FetchFailed)])
    case ReadFinal(rid) =>
      && rid in n.readers && AtFinal(n.readers[rid]) && n.lock.Free? && !n.degraded
      && (ComparesVersion(n.readers[rid]) ==> n.readers[rid].version == n.version)
      && n' == n.(lock := Gate(FinalCheck(rid)))
    case ReadRetry(rid) =>
      && rid in n.readers && AtFinal(n.readers[rid]) && n.lock.Free?
      && ComparesVersion(n.readers[rid]) && n.readers[rid].version != n.version
      && n' == n.(readers := n.readers[rid := n.readers[rid].(stage := Entering)])
    case ReadRefused(rid) =>
      && rid in n.readers && n.lock.Free? && n.degraded
      && var r := n.readers[rid];
         && (r.stage.Entering? || (AtFinal(r) && (ComparesVersion(r) ==> r.version == n.version)))
         && n' == Drop(n, rid)
  }

  predicate HeldStep(n: Node, log: seq<Store>, a: HeldAction, n': Node)
    requires log != []
  {
    match a
    case GatePass => GatePassStep(n, log, n')
    case GateRefuse =>
      && n.lock.Gate? && !n.ready
      && n' == if n.lock.who.Mutation? then n.(lock := Free) else Drop(n.(lock := Free), n.lock.who.rid)
    case Settle(k, stored, late) => SettleStep(n, k, stored, late, n')
    case SettleDone =>
      && n.lock.Settling? && n.lock.left == {}
      && n' == Drop(n.(lock := Free), n.lock.rid)
    case Leave =>
      && n.lock.Leaving?
      && n' == n.(lock := Free, l1 := if n.lock.flush then map[] else n.l1)
  }

  predicate RecStep(i: nat, n: Node, a: RecAction, n': Node, out: Out) {
    && (!a.RecReplayKey? && !a.RecReplayFlush? && !a.RecReplayFail? ==> out == Quiet)
    && match a {
         case RecWake => n.recovery.Resting? && n.degraded && n' == n.(recovery := SawDegraded)
         case RecReady => n.recovery.SawDegraded? && n.ready && n' == n.(recovery := Probing)
         case RecAbort =>
           && (n.recovery.Probing?
               || (!n.ready && (n.recovery.SawDegraded? || n.recovery.Armed? || n.recovery.Cleared?)))
           && n' == n.(recovery := Resting)
         case RecProbe => n.recovery.Probing? && n' == n.(recovery := Replaying)
         case RecReplayKey(k) =>
           && n.recovery.Replaying? && !n.pendingFlush && k in n.pendingKeys
           && out == Send(Event(Some(k), Some(i)), Everyone)
           && n' == n.(pendingKeys := n.pendingKeys - {k})
         case RecReplayFlush =>
           && n.recovery.Replaying? && n.pendingFlush
           && out == Send(Event(None, Some(i)), Everyone)
           && n' == n.(pendingFlush := false, recovery := Replayed)
         case RecReplayFail(e, members) =>
           && n.recovery.Replaying? && e.origin == Some(i)
           && (if n.pendingFlush then e.target.None? else e.target.Some? && e.target.value in n.pendingKeys)
           && out == Send(e, Only(members))
           && n' == n.(recovery := Resting)
         case RecReplayed =>
           && n.recovery.Replaying? && !n.pendingFlush && n.pendingKeys == {}
           && n' == n.(recovery := Replayed)
         case RecArm => n.recovery.Replayed? && n.degraded && n' == n.(recovery := Armed)
         case RecArmReady => n.recovery.Armed? && n.ready && n' == n.(recovery := ArmedReady)
         case RecEpoch => n.recovery.ArmedReady? && n' == n.(recovery := EpochRead(n.epoch))
         case RecFlush =>
           && n.recovery.EpochRead? && n.lock.Free?
           && n' == n.(recovery := Cleared(n.recovery.expected), l1 := map[])
         case RecAdmit =>
           && n.recovery.Cleared? && n.degraded && n.epoch == n.recovery.expected && n.ready
           && n' == n.(recovery := Admitted)
         case RecHealthy => n.recovery.Admitted? && n' == n.(recovery := Resting, degraded := false)
       }
  }

  /** One step of instance `i`: its state, the L2 log and at most one message. */
  predicate NodeStep(bus: bool, i: nat, n: Node, log: seq<Store>, a: Action, n': Node, log': seq<Store>, out: Out)
    requires log != []
  {
    match a
    case Env(e) => EnvStep(n, e, n') && log' == log && out == Quiet
    case Sub(e) => SubStep(i, n, log, e, n') && log' == log && out == Quiet
    case Mut(e) => MutStep(bus, i, n, log, e, n', log', out)
    case Read(e) => ReadStep(n, log, e, n') && log' == log && out == Quiet
    case Held(e) => HeldStep(n, log, e, n') && log' == log && out == Quiet
    case Rec(e) => RecStep(i, n, e, n', out) && log' == log
  }

  // ------------------------------------------------------------------ the whole system

  datatype Move = Move(who: nat, action: Action, node: Node, log: seq<Store>, out: Out)

  predicate Next(s: System, m: Move, t: System) {
    && s.log != []
    && m.who < |s.nodes|
    && NodeStep(s.bus, m.who, s.nodes[m.who], s.log, m.action, m.node, m.log, m.out)
    && t == System(s.bus, m.log, Deliver(s.nodes[m.who := m.node], m.out))
  }

  predicate InitNode(bus: bool, n: Node) {
    n == Node(map[], 0, false, 0, !bus, {}, false,
              if bus then Down else Live([]), if bus then Resetting else Off,
              Free, Resting, map[], 0)
  }

  /** Several instances need a bus; one alone may run without. */
  predicate Init(s: System) {
    && |s.log| == 1
    && (s.bus || |s.nodes| <= 1)
    && forall i :: 0 <= i < |s.nodes| ==> InitNode(s.bus, s.nodes[i])
  }

  predicate Run(states: seq<System>, moves: seq<Move>) {
    && |states| == |moves| + 1
    && Init(states[0])
    && forall x :: 0 <= x < |moves| ==> Next(states[x], moves[x], states[x + 1])
  }
}
