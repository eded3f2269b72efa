/**
 What the protocol needs of L2 calls that fail.  A mutation whose call failed neither bumps the
 version, nor fixes L1, nor publishes, nor leaves anything pending.  Coherence survives such a call
 exactly if no change that it made to L2 after all has spoiled a copy, and whether it can is decided
 by the operation and the contents of L2 before the change.
 */
module Hypotheses {
  import opened Protocol
  import opened Coherence

  /** The operation cannot spoil any copy of these contents. */
  predicate Safe(op: Op, a: Store) {
    match op
    case Put(values, onlyAbsent) =>
      || (onlyAbsent && exists k <- values :: k in a && !a[k].mortal)
      || forall k <- values :: k in a ==> !Stale(values, k, a[k])
    case Count(k) => k !in a
    case Remove(k) => k !in a
    case Renew(k) => k in a ==> a[k].mortal
    case Clear => a == map[]
  }

  /** A change that spoils a copy, if the operation has one. */
  function Damage(op: Op, a: Store): Store {
    match op
    case Put(values, _) => a + values
    case Count(k) => if k in a then a[k := Item(a[k].value + "0", a[k].mortal)] else a
    case Remove(k) => a - {k}
    case Renew(k) => if k in a then a[k := a[k].(mortal := true)] else a
    case Clear => map[]
  }

  lemma UnsafeDamages(op: Op, a: Store) returns (k: Key)
    requires !Safe(op, a)
    ensures Effect(op, a, Damage(op, a)) && Spoils(a, Damage(op, a), k)
  {
    match op
    case Put(values, _) => k :| k in values && k in a && Stale(values, k, a[k]);
    case Clear => k :| k in a;
    case _ => k := op.key;
  }

  lemma SafeIsHarmless(op: Op, a: Store, b: Store)
    requires Safe(op, a) && Effect(op, a, b)
    ensures Harmless(a, b)
  {
  }

  // ------------------------------------------------- runs in which such a call may fail

  /** The call of instance i changes the contents `a` and will fail, harmful or not. */
  predicate LosesAnyhow(op: Op, a: Store, s: System, i: nat, after: Store, t: System) {
    && s.log != [] && i < |s.nodes| && Last(s.log) == a
    && LosesReply(s.nodes[i], s.log, after, s.nodes[i].(lock := Lost(op))) && s.nodes[i].lock.op == op
    && t == System(s.bus, s.log + [after], s.nodes[i := s.nodes[i].(lock := Lost(op))])
  }

  ghost predicate Loose(op: Op, a: Store, s: System, t: System) {
    (exists m :: Next(s, m, t)) || (exists i: nat, after :: LosesAnyhow(op, a, s, i, after, t))
  }

  ghost predicate Path(op: Op, a: Store, ss: seq<System>) {
    && ss != [] && Init(ss[0])
    && forall x :: 0 <= x < |ss| - 1 ==> Loose(op, a, ss[x], ss[x + 1])
  }

  ghost predicate Reachable(op: Op, a: Store, s: System) {
    exists ss :: Path(op, a, ss) && ss[|ss| - 1] == s
  }

  lemma Extend(op: Op, a: Store, s: System, t: System)
    requires Reachable(op, a, s) && Loose(op, a, s, t)
    ensures Reachable(op, a, t)
  {
    var ss :| Path(op, a, ss) && ss[|ss| - 1] == s;
    var longer := ss + [t];
    forall x | 0 <= x < |longer| - 1 ensures Loose(op, a, longer[x], longer[x + 1]) {
      if x < |ss| - 1 { assert Loose(op, a, ss[x], ss[x + 1]); }
    }
    assert Path(op, a, longer) && longer[|longer| - 1] == t;
  }

  /** Every stale copy is owed an invalidation or about to be put right. */
  ghost predicate Coherent(s: System) {
    forall i, k | 0 <= i < |s.nodes| && s.log != [] && k in s.nodes[i].l1 && Stale(Last(s.log), k, s.nodes[i].l1[k])
      :: Owed(s, i, k) || Unfixed(s.nodes[i].lock, k)
  }

  lemma SafeLossIsAStep(op: Op, a: Store, s: System, t: System) returns (m: Move)
    requires Safe(op, a) && Loose(op, a, s, t)
    ensures Next(s, m, t)
  {
    if i: nat, after :| LosesAnyhow(op, a, s, i, after, t) {
      SafeIsHarmless(op, a, after);
      m := Move(i, Mut(MutLose(after)), s.nodes[i].(lock := Lost(op)), t.log, Quiet);
    } else {
      m :| Next(s, m, t);
    }
  }

  lemma SafeStepKeepsInv(op: Op, a: Store, s: System, t: System)
    requires Safe(op, a) && Loose(op, a, s, t) && Inv(s)
    ensures Inv(t)
  {
    var m := SafeLossIsAStep(op, a, s, t);
    NextKeepsInv(s, m, t);
  }

  lemma {:induction false} SafePathKeepsInv(op: Op, a: Store, ss: seq<System>, x: nat)
    requires Safe(op, a) && Path(op, a, ss) && x < |ss|
    ensures Inv(ss[x])
  {
    if x == 0 {
      InitHasInv(ss[0]);
    } else {
      SafePathKeepsInv(op, a, ss, x - 1);
      assert Loose(op, a, ss[x - 1], ss[x]);
      SafeStepKeepsInv(op, a, ss[x - 1], ss[x]);
    }
  }

  lemma SafeFailuresKeepCoherence(op: Op, a: Store, s: System)
    requires Safe(op, a) && Reachable(op, a, s)
    ensures Coherent(s)
  {
    var ss :| Path(op, a, ss) && ss[|ss| - 1] == s;
    SafePathKeepsInv(op, a, ss, |ss| - 1);
    forall i, k | 0 <= i < |s.nodes| && k in s.nodes[i].l1 && Stale(Last(s.log), k, s.nodes[i].l1[k])
      ensures Owed(s, i, k) || Unfixed(s.nodes[i].lock, k)
    {
      assert Covered(s, i);
    }
  }

  // ---------------------------------------------------------------- steps of one instance

  /** The rest of the system stays as in `base`. */
  function At(base: System, who: nat, n: Node, log: seq<Store>): System
    requires who < |base.nodes|
  {
    System(base.bus, log, base.nodes[who := n])
  }

  ghost predicate Gets(op: Op, a: Store, base: System, who: nat, n: Node, log: seq<Store>) {
    who < |base.nodes| && log != [] && Reachable(op, a, At(base, who, n, log))
  }

  lemma DoesTo(op: Op, a: Store, base: System, who: nat, n: Node, log: seq<Store>, act: Action, n': Node,
               log': seq<Store>)
    requires Gets(op, a, base, who, n, log) && NodeStep(base.bus, who, n, log, act, n', log', Quiet) && log' != []
    ensures Gets(op, a, base, who, n', log')
  {
    var s, t := At(base, who, n, log), At(base, who, n', log');
    assert base.nodes[who := n][who := n'] == base.nodes[who := n'];
    assert Next(s, Move(who, act, n', log', Quiet), t);
    Extend(op, a, s, t);
  }

  lemma Does(op: Op, a: Store, base: System, who: nat, n: Node, log: seq<Store>, act: Action, n': Node)
    requires Gets(op, a, base, who, n, log) && NodeStep(base.bus, who, n, log, act, n', log, Quiet)
    ensures Gets(op, a, base, who, n', log)
  {
    DoesTo(op, a, base, who, n, log, act, n', log);
  }

  /** An instance at rest is let in with a mutation. */
  lemma Calls(op: Op, a: Store, base: System, who: nat, n: Node, log: seq<Store>, op': Op)
    requires Gets(op, a, base, who, n, log) && n.lock == Free && !n.degraded && n.ready
    ensures Gets(op, a, base, who, n.(lock := Calling(op', false)), log)
  {
    Does(op, a, base, who, n, log, Mut(MutLock(op')), n.(lock := Gate(Mutation(op'))));
    Holds(op, a, base, who, n.(lock := Gate(Mutation(op'))), log, GatePass, n.(lock := Calling(op', false)));
  }

  /** If the failures are safe, a path is a run. */
  lemma {:induction false} PathIsRun(op: Op, a: Store, ss: seq<System>, x: nat) returns (moves: seq<Move>)
    requires Safe(op, a) && Path(op, a, ss) && x < |ss|
    ensures |moves| == x && forall z :: 0 <= z < x ==> Next(ss[z], moves[z], ss[z + 1])
  {
    if x == 0 { return []; }
    moves := PathIsRun(op, a, ss, x - 1);
    assert Loose(op, a, ss[x - 1], ss[x]);
    var m := SafeLossIsAStep(op, a, ss[x - 1], ss[x]);
    moves := moves + [m];
  }

  lemma Changes(op: Op, a: Store, base: System, who: nat, n: Node, log: seq<Store>, b: Store)
    requires Gets(op, a, base, who, n, log) && Last(log) == a && Effect(op, a, b) && n.lock == Calling(op, false)
    ensures Gets(op, a, base, who, n.(lock := Lost(op)), log + [b])
  {
    var s, t := At(base, who, n, log), At(base, who, n.(lock := Lost(op)), log + [b]);
    assert base.nodes[who := n][who := n.(lock := Lost(op))] == base.nodes[who := n.(lock := Lost(op))];
    assert LosesAnyhow(op, a, s, who, b, t);
    Extend(op, a, s, t);
  }

  lemma Reads(op: Op, a: Store, base: System, who: nat, n: Node, log: seq<Store>, act: ReadAction, n': Node)
    requires Gets(op, a, base, who, n, log) && ReadStep(n, log, act, n')
    ensures Gets(op, a, base, who, n', log)
  {
    Does(op, a, base, who, n, log, Read(act), n');
  }

  lemma Holds(op: Op, a: Store, base: System, who: nat, n: Node, log: seq<Store>, act: HeldAction, n': Node)
    requires Gets(op, a, base, who, n, log) && HeldStep(n, log, act, n')
    ensures Gets(op, a, base, who, n', log)
  {
    Does(op, a, base, who, n, log, Held(act), n');
  }

  lemma Mends(op: Op, a: Store, base: System, who: nat, n: Node, log: seq<Store>, act: RecAction, n': Node)
    requires Gets(op, a, base, who, n, log) && RecStep(who, n, act, n', Quiet)
    ensures Gets(op, a, base, who, n', log)
  {
    Does(op, a, base, who, n, log, Rec(act), n');
  }

  lemma Subscribes(op: Op, a: Store, base: System, who: nat, n: Node, log: seq<Store>, act: SubAction, n': Node)
    requires Gets(op, a, base, who, n, log) && SubStep(who, n, log, act, n')
    ensures Gets(op, a, base, who, n', log)
  {
    Does(op, a, base, who, n, log, Sub(act), n');
  }

  /** A healthy instance at rest that holds no copies yet. */
  predicate Empty(n: Node) {
    AtRest(n) && n.l1 == map[]
  }

  predicate AtRest(n: Node) {
    && !n.degraded && n.ready && n.link == Live([]) && (n.subscriber.Off? || n.subscriber.Listening?)
    && n.lock == Free && n.recovery == Resting && n.readers == map[] && !HasPending(n)
  }

  function Reading(n: Node, k: Key, item: Item, at: nat, stage: Stage): Reader {
    Reader([k], false, stage, at, n.version, 1, map[], {k}, if stage.Fetched? then map[k := item] else map[],
           if stage.Fetched? then at else 0)
  }

  function Asking(n: Node, k: Key, item: Item, at: nat, stage: Stage): Node {
    n.(readers := map[0 := Reading(n, k, item, at, stage)])
  }

  function Entered(n: Node, k: Key, at: nat): Reader {
    Reader([k], false, Scanning, at, n.version, 0, map[], {}, map[], 0)
  }

  /** A Get is called and passes its entry check. */
  lemma GetEnters(op: Op, a: Store, base: System, who: nat, n: Node, log: seq<Store>, k: Key)
    requires Gets(op, a, base, who, n, log) && Empty(n)
    ensures Gets(op, a, base, who, n.(readers := map[0 := Entered(n, k, |log| - 1)]), log)
  {
    var r := Reader([k], false, Entering, 0, 0, 0, map[], {}, map[], 0);
    var called := n.(readers := map[0 := r]);
    Reads(op, a, base, who, n, log, ReadCall(0, [k], false), called);
    Reads(op, a, base, who, called, log, ReadEnter(0), called.(lock := Gate(EntryCheck(0))));
    Holds(op, a, base, who, called.(lock := Gate(EntryCheck(0))), log, GatePass,
          n.(readers := map[0 := Entered(n, k, |log| - 1)]));
  }

  /** It misses in L1 and fetches the item from L2. */
  lemma GetFetches(op: Op, a: Store, base: System, who: nat, n: Node, log: seq<Store>, k: Key)
    requires Gets(op, a, base, who, n, log) && Empty(n) && k in Last(log)
    ensures Gets(op, a, base, who, Asking(n, k, Last(log)[k], |log| - 1, Fetched), log)
  {
    var item, at := Last(log)[k], |log| - 1;
    var entered := n.(readers := map[0 := Entered(n, k, at)]);
    var missed, fetching := Asking(n, k, item, at, Scanning), Asking(n, k, item, at, Fetching);
    GetEnters(op, a, base, who, n, log, k);
    assert {} + {k} == {k};
    assert Probed(entered, entered.readers[0]) == Reading(n, k, item, at, Scanning);
    Reads(op, a, base, who, entered, log, ReadProbe(0), missed);
    Reads(op, a, base, who, missed, log, ReadFetchStart(0), fetching);
    Reads(op, a, base, who, fetching, log, ReadFetch(0, map[k := item]), Asking(n, k, item, at, Fetched));
  }

  /** The Get goes on: its version is still current, so the item it has is warmed. */
  lemma GetWarms(op: Op, a: Store, base: System, who: nat, n: Node, log: seq<Store>, k: Key, item: Item, at: nat)
    requires Gets(op, a, base, who, Asking(n, k, item, at, Fetched), log) && Empty(n)
    ensures Gets(op, a, base, who, n.(l1 := map[k := item]), log)
  {
    var asking := Asking(n, k, item, at, Fetched);
    var settling := asking.(lock := Settling(0, {k}));
    Reads(op, a, base, who, asking, log, ReadFinal(0), asking.(lock := Gate(FinalCheck(0))));
    Holds(op, a, base, who, asking.(lock := Gate(FinalCheck(0))), log, GatePass, settling);
    GetSettles(op, a, base, who, n, log, k, item, at);
  }

  lemma GetSettles(op: Op, a: Store, base: System, who: nat, n: Node, log: seq<Store>, k: Key, item: Item, at: nat)
    requires Gets(op, a, base, who, Asking(n, k, item, at, Fetched).(lock := Settling(0, {k})), log) && Empty(n)
    ensures Gets(op, a, base, who, n.(l1 := map[k := item]), log)
  {
    var settling := Asking(n, k, item, at, Fetched).(lock := Settling(0, {k}));
    var r := settling.readers[0].(hits := map[k := item.value]);
    var settled := n.(lock := Settling(0, {}), l1 := map[k := item], readers := map[0 := r]);
    assert {k} - {k} == {} && settled.readers - {0} == map[];
    Holds(op, a, base, who, settling, log, Settle(k, true, false), settled);
    Holds(op, a, base, who, settled, log, SettleDone, n.(l1 := map[k := item]));
  }

  /** What a failed call leaves of the instance. */
  function Degraded(op: Op, n: Node): Node {
    n.(degraded := true, epoch := n.epoch + 1, l1 := if op.Renew? then map[] else n.l1)
  }

  /** The operation changes L2, then fails: the instance degrades. */
  lemma CallFails(op: Op, a: Store, base: System, who: nat, n: Node, log: seq<Store>, b: Store)
    requires Gets(op, a, base, who, n, log) && Last(log) == a && Effect(op, a, b)
    requires n.lock == Free && !n.degraded && n.ready
    ensures Gets(op, a, base, who, Degraded(op, n), log + [b])
  {
    Calls(op, a, base, who, n, log, op);
    Changes(op, a, base, who, n.(lock := Calling(op, false)), log, b);
    var log' := log + [b];
    var leaving := Degrade(n).(lock := Leaving(op.Renew?));
    Does(op, a, base, who, n.(lock := Lost(op)), log', Mut(MutFail), leaving);
    Holds(op, a, base, who, leaving, log', Leave, Degraded(op, n));
  }

  lemma Replays(op: Op, a: Store, base: System, who: nat, n: Node, log: seq<Store>)
    requires Gets(op, a, base, who, n, log) && n.recovery == Resting && n.degraded && n.ready && !HasPending(n)
    ensures Gets(op, a, base, who, n.(recovery := Replayed), log)
  {
    Mends(op, a, base, who, n, log, RecWake, n.(recovery := SawDegraded));
    Mends(op, a, base, who, n.(recovery := SawDegraded), log, RecReady, n.(recovery := Probing));
    Mends(op, a, base, who, n.(recovery := Probing), log, RecProbe, n.(recovery := Replaying));
    Mends(op, a, base, who, n.(recovery := Replaying), log, RecReplayed, n.(recovery := Replayed));
  }

  /** Recovery finds L2 reachable and nothing pending, flushes L1 and heals the instance. */
  lemma Recovers(op: Op, a: Store, base: System, who: nat, n: Node, log: seq<Store>)
    requires Gets(op, a, base, who, n, log) && n.lock == Free && n.recovery == Resting
    requires n.degraded && n.ready && !HasPending(n)
    ensures Gets(op, a, base, who, n.(degraded := false, l1 := map[]), log)
  {
    Replays(op, a, base, who, n, log);
    Mends(op, a, base, who, n.(recovery := Replayed), log, RecArm, n.(recovery := Armed));
    Mends(op, a, base, who, n.(recovery := Armed), log, RecArmReady, n.(recovery := ArmedReady));
    Mends(op, a, base, who, n.(recovery := ArmedReady), log, RecEpoch, n.(recovery := EpochRead(n.epoch)));
    var cleared := n.(recovery := Cleared(n.epoch), l1 := map[]);
    Mends(op, a, base, who, n.(recovery := EpochRead(n.epoch)), log, RecFlush, cleared);
    Mends(op, a, base, who, cleared, log, RecAdmit, cleared.(recovery := Admitted));
    Mends(op, a, base, who, cleared.(recovery := Admitted), log, RecHealthy, n.(degraded := false, l1 := map[]));
  }

  // ------------------------------------------------------------------- runs that go wrong

  function Initial(bus: bool): Node {
    Node(map[], 0, false, 0, !bus, {}, false, if bus then Down else Live([]), if bus then Resetting else Off,
         Free, Resting, map[], 0)
  }

  function Subscribed(): Node {
    Initial(true).(version := 1, ready := true, link := Live([]), subscriber := Listening)
  }

  lemma Starts(op: Op, a: Store, s: System)
    requires Init(s)
    ensures Reachable(op, a, s)
  {
    assert Path(op, a, [s]) && [s][|[s]| - 1] == s;
  }

  lemma Connects(op: Op, a: Store, base: System, who: nat, l2: Store)
    requires Gets(op, a, base, who, Initial(true), [l2])
    ensures Gets(op, a, base, who, Subscribed(), [l2])
  {
    var n, log := Initial(true), [l2];
    Subscribes(op, a, base, who, n, log, SubReset, n.(subscriber := Connecting));
    var connected := n.(subscriber := Connected, link := Opening([]));
    Subscribes(op, a, base, who, n.(subscriber := Connecting), log, SubAttach, connected);
    var flushed := n.(subscriber := Flushed, link := Live([]), version := 1);
    Subscribes(op, a, base, who, connected, log, SubFlush, flushed);
    Subscribes(op, a, base, who, flushed, log, SubReady, Subscribed());
  }

  /** Every instance is at rest and nothing is owed, yet some copy of k is stale. */
  ghost predicate Broken(s: System, k: Key) {
    && s.log != [] && (forall i :: 0 <= i < |s.nodes| ==> AtRest(s.nodes[i]))
    && exists i :: 0 <= i < |s.nodes| && k in s.nodes[i].l1 && Stale(Last(s.log), k, s.nodes[i].l1[k])
                   && !Owed(s, i, k)
  }

  lemma NothingIsOwed(s: System, i: nat, k: Key)
    requires i < |s.nodes| && forall j :: 0 <= j < |s.nodes| ==> AtRest(s.nodes[j])
    ensures !Owed(s, i, k)
  {
    assert AtRest(s.nodes[i]);
  }

  /** One instance without a bus: a Get that was under way warms what the failed call has spoiled. */
  lemma FailureBreaksLone(op: Op, a: Store, b: Store, k: Key) returns (s: System)
    requires Effect(op, a, b) && Spoils(a, b, k)
    ensures Reachable(op, a, s) && !s.bus && |s.nodes| == 1 && Broken(s, k)
  {
    var base := System(false, [a], [Initial(false)]);
    var n := Initial(false);
    Starts(op, a, base);
    assert At(base, 0, n, [a]) == base;
    GetFetches(op, a, base, 0, n, [a], k);
    var asking := Asking(n, k, a[k], 0, Fetched);
    CallFails(op, a, base, 0, asking, [a], b);
    Recovers(op, a, base, 0, Degraded(op, asking), [a] + [b]);
    assert Degraded(op, asking).(degraded := false, l1 := map[]) == Asking(n.(epoch := 1), k, a[k], 0, Fetched);
    GetWarms(op, a, base, 0, n.(epoch := 1), [a] + [b], k, a[k], 0);
    s := At(base, 0, n.(epoch := 1, l1 := map[k := a[k]]), [a] + [b]);
    NothingIsOwed(s, 0, k);
  }

  /** Two instances on a bus, the second of which holds a copy of k. */
  function Peers(l2: Store, k: Key): System
    requires k in l2
  {
    System(true, [l2], [Subscribed(), Subscribed().(l1 := map[k := l2[k]])])
  }

  lemma PeersConnect(op: Op, a: Store, l2: Store)
    ensures Reachable(op, a, System(true, [l2], [Subscribed(), Subscribed()]))
  {
    var base := System(true, [l2], [Initial(true), Initial(true)]);
    var half := System(true, [l2], [Subscribed(), Initial(true)]);
    Starts(op, a, base);
    assert At(base, 0, Initial(true), [l2]) == base;
    Connects(op, a, base, 0, l2);
    assert At(base, 0, Subscribed(), [l2]) == half == At(half, 1, Initial(true), [l2]);
    Connects(op, a, half, 1, l2);
    assert At(half, 1, Subscribed(), [l2]) == System(true, [l2], [Subscribed(), Subscribed()]);
  }

  lemma PeerWarms(op: Op, a: Store, l2: Store, k: Key)
    requires k in l2
    ensures Reachable(op, a, Peers(l2, k))
  {
    var n, log := Subscribed(), [l2];
    var base := System(true, log, [n, n]);
    PeersConnect(op, a, l2);
    assert At(base, 1, n, log) == base;
    GetFetches(op, a, base, 1, n, log, k);
    GetWarms(op, a, base, 1, n, log, k, l2[k], 0);
    assert At(base, 1, n.(l1 := map[k := l2[k]]), log) == Peers(l2, k);
  }

  /** The peer of an instance whose call fails keeps what the call has spoiled. */
  lemma FailureBreaksPeer(op: Op, a: Store, b: Store, k: Key) returns (s: System)
    requires Effect(op, a, b) && Spoils(a, b, k)
    ensures Reachable(op, a, s) && s.bus && |s.nodes| == 2 && Broken(s, k)
  {
    var n := Subscribed();
    PeerWarms(op, a, a, k);
    assert At(Peers(a, k), 0, n, [a]) == Peers(a, k);
    CallFails(op, a, Peers(a, k), 0, n, [a], b);
    Recovers(op, a, Peers(a, k), 0, Degraded(op, n), [a] + [b]);
    s := System(true, [a] + [b], [n.(epoch := 1), Peers(a, k).nodes[1]]);
    assert At(Peers(a, k), 0, n.(epoch := 1), [a] + [b]) == s;
    NothingIsOwed(s, 1, k);
  }

  /** A flush that fails after its first page deleted k leaves a healthy peer with a copy of k. */
  lemma PartlyFailedFlushBreaksPeer(a: Store, k: Key) returns (s: System)
    requires k in a
    ensures Reachable(Clear, a, s) && s.bus && |s.nodes| == 2 && Broken(s, k)
  {
    s := FailureBreaksPeer(Clear, a, a - {k}, k);
  }

  lemma BrokenIsIncoherent(s: System, k: Key)
    requires Broken(s, k)
    ensures !Coherent(s)
  {
  }

  /** The exact condition: failing calls of an operation that nevertheless change the contents `a`
      leave every reachable state coherent if and only if the operation is safe there. */
  lemma SafetyIsExact(op: Op, a: Store)
    ensures Safe(op, a) <==> forall s :: Reachable(op, a, s) ==> Coherent(s)
  {
    if Safe(op, a) {
      forall s | Reachable(op, a, s) ensures Coherent(s) { SafeFailuresKeepCoherence(op, a, s); }
    } else {
      var k := UnsafeDamages(op, a);
      var s := FailureBreaksLone(op, a, Damage(op, a), k);
      BrokenIsIncoherent(s, k);
    }
  }
}
