/**
 What reads return on one instance without a bus: Get is linearizable and GetMany is an atomic
 snapshot of L2, in every interleaving with mutations, recovery and other readers.
 */
module Linearizable {
  import opened Wrappers
  import opened Protocol
  import opened Coherence
  import opened Recency

  /** The answer for k agrees with L2: a value is the committed one; a miss means that k was
      absent or its item carried a TTL and had run out. */
  predicate AnswerAt(answer: map<Key, Value>, k: Key, l2: Store) {
    if k in answer then ValueAt(l2, k) == Some(answer[k]) else k in l2 ==> l2[k].mortal
  }

  /** A value as a copy whose lifetime does not matter. */
  function Plain(v: Value): Item {
    Item(v, true)
  }

  /** No committed mutation waits to be fixed or published. */
  predicate Calm(lock: Lock) {
    lock.Free? || lock.Gate? || lock.Calling? || lock.Leaving? || lock.Settling?
  }

  predicate Dirty(lock: Lock) {
    lock.Calling? && lock.dirty
  }

  predicate ScanInv(r: Reader) {
    && (r.stage.Scanning? ==> r.next <= |r.keys|)
    && (!r.stage.Scanning? ==> r.next == |r.keys|)
    && forall x :: 0 <= x < r.next ==> r.keys[x] in r.hits || r.keys[x] in r.misses
  }

  /** While its version is current and no mutation has touched L2, a GetMany sees L2 exactly as it
      was at its entry check. */
  predicate SnapshotInv(n: Node, log: seq<Store>, r: Reader)
    requires log != []
  {
    r.many && r.version == n.version ==>
      && Calm(n.lock)
      && (!Dirty(n.lock) ==> r.since == |log| - 1 && forall k <- r.hits :: !Stale(Last(log), k, Plain(r.hits[k])))
  }

  predicate FetchInv(n: Node, log: seq<Store>, r: Reader)
    requires log != []
  {
    r.stage.Fetched? ==>
      && r.at < |log| && ReadsAs(r.found, r.misses, log[r.at])
      && (r.version == n.version && !Dirty(n.lock) ==> r.at == |log| - 1)
  }

  predicate ReaderLin(n: Node, log: seq<Store>, r: Reader)
    requires log != []
  {
    !r.stage.Entering? ==>
      && r.since < |log|
      && ScanInv(r)
      && (forall k <- r.hits :: Recent(log, r.since, k, Plain(r.hits[k])))
      && SnapshotInv(n, log, r)
      && FetchInv(n, log, r)
  }

  /** The keys a settling reader is done with and has no value for are not in L2. */
  predicate SettleInv(n: Node, log: seq<Store>)
    requires log != []
  {
    n.lock.Settling? && n.lock.rid in n.readers ==>
      forall k <- n.readers[n.lock.rid].misses - n.lock.left ::
        k !in n.readers[n.lock.rid].hits && k in Last(log) ==> Last(log)[k].mortal
  }

  predicate CopiesInv(n: Node, log: seq<Store>) {
    forall rid <- n.readers :: !n.readers[rid].stage.Entering? ==> CopiesRecent(n, log, n.readers[rid].since)
  }

  predicate Lin(n: Node, log: seq<Store>)
    requires log != []
  {
    && !n.lock.Lost?
    && (forall rid <- n.readers :: ReaderLin(n, log, n.readers[rid]))
    && SettleInv(n, log)
    && CopiesInv(n, log)
  }

  lemma HitsGrow(r: Reader, log: seq<Store>, log': seq<Store>)
    requires log <= log' && forall k <- r.hits :: Recent(log, r.since, k, Plain(r.hits[k]))
    ensures forall k <- r.hits :: Recent(log', r.since, k, Plain(r.hits[k]))
  {
    forall k <- r.hits ensures Recent(log', r.since, k, Plain(r.hits[k]))
    { RecentGrows(log, log', r.since, k, Plain(r.hits[k])); }
  }

  // ------------------------------------------------------------------------- mutations

  lemma MutKeepsReader(n: Node, log: seq<Store>, a: MutAction, n': Node, log': seq<Store>, out: Out, r: Reader)
    requires log != [] && MutStep(false, 0, n, log, a, n', log', out) && !a.MutLose? && !n.lock.Lost?
    requires ReaderInv(n, r) && ReaderLin(n, log, r)
    ensures log' != [] && ReaderLin(n', log', r)
  {
    if !r.stage.Entering? {
      HitsGrow(r, log, log');
      if r.stage.Fetched? { assert log'[r.at] == log[r.at]; }
    }
  }

  lemma MutKeepsLin(n: Node, log: seq<Store>, a: MutAction, n': Node, log': seq<Store>, out: Out)
    requires log != [] && MutStep(false, 0, n, log, a, n', log', out) && !a.MutLose?
    requires ReadersInv(n) && Lin(n, log)
    ensures log' != [] && Lin(n', log')
  {
    MutFrame(false, 0, n, log, a, n', log', out);
    forall rid <- n'.readers
      ensures log' != [] && ReaderLin(n', log', n'.readers[rid])
      ensures !n'.readers[rid].stage.Entering? ==> CopiesRecent(n', log', n'.readers[rid].since)
    {
      MutKeepsReader(n, log, a, n', log', out, n.readers[rid]);
      if !n'.readers[rid].stage.Entering? { MutKeepsRecent(false, 0, n, log, a, n', log', out, n.readers[rid].since); }
    }
  }

  // ----------------------------------------------------------------------------- reads

  /** Alone and without a bus nothing is ever owed, so L1 agrees with L2 except while the
      instance's own mutation is between its commit and its L1 write. */
  predicate Fresh(n: Node, log: seq<Store>)
    requires log != []
  {
    && (forall k <- n.l1 :: !Stale(Last(log), k, n.l1[k]) || Unfixed(n.lock, k))
    && ReadersCovered(n, Last(log), iset{})
  }

  lemma IdleKeepsReader(n: Node, log: seq<Store>, n': Node, r: Reader)
    requires log != [] && ReaderLin(n, log, r) && n'.version == n.version
    requires LockMoves(n, n')
    ensures ReaderLin(n', log, r)
  {
  }

  lemma EnteringCopies(n: Node, log: seq<Store>)
    requires log != [] && Fresh(n, log) && Idle(n.lock)
    ensures CopiesRecent(n, log, |log| - 1)
  {
    forall k <- n.l1 ensures Recent(log, |log| - 1, k, n.l1[k]) { LastIsRecent(log, |log| - 1, k, n.l1[k]); }
    forall rid <- n.readers ensures ReaderRecent(n, n.readers[rid], log, |log| - 1) {
      var r := n.readers[rid];
      assert ReaderCovered(n, r, Last(log), iset{});
      if r.stage.Fetched? && r.version == n.version {
        forall k <- r.found ensures Recent(log, |log| - 1, k, r.found[k]) {
          LastIsRecent(log, |log| - 1, k, r.found[k]);
        }
      }
    }
  }

  lemma ProbeKeepsReader(n: Node, log: seq<Store>, r: Reader)
    requires log != [] && ReaderLin(n, log, r) && r.stage.Scanning? && r.next < |r.keys|
    requires Fresh(n, log) && CopiesRecent(n, log, r.since)
    ensures ReaderLin(n, log, Probed(n, r))
  {
    var r' := Probed(n, r);
    var k := r.keys[r.next];
    forall x <- r'.hits ensures Recent(log, r'.since, x, Plain(r'.hits[x])) {
      if x == k && k in n.l1 { assert Recent(log, r.since, k, n.l1[k]); }
      else { assert x in r.hits && r'.hits[x] == r.hits[x]; }
    }
    if r.many && r.version == n.version && !Dirty(n.lock) && k in n.l1 {
      assert !Unfixed(n.lock, k);
    }
  }

  lemma FetchKeepsReader(n: Node, log: seq<Store>, r: Reader, found: Store)
    requires log != [] && ReaderLin(n, log, r) && r.stage.Fetching? && ReadsAs(found, r.misses, Last(log))
    ensures ReaderLin(n, log, r.(stage := Fetched, found := found, at := |log| - 1))
  {
  }

  lemma EnterKeepsReader(n: Node, log: seq<Store>, n': Node, rid: nat)
    requires log != [] && GatePassStep(n, log, n') && n.lock.who == EntryCheck(rid)
    ensures ReaderLin(n', log, n'.readers[rid]) && n'.readers[rid].since == |log| - 1
  {
  }

  /** A reader that only changes stage, or takes a newer version without having looked at L2. */
  lemma StageKeepsReader(n: Node, log: seq<Store>, r: Reader, r': Reader)
    requires log != [] && ReaderLin(n, log, r) && !r.stage.Entering?
    requires r' == r.(stage := r'.stage, version := r'.version) && (r.many ==> r'.version == r.version)
    requires r'.stage.Entering? || (r.next == |r.keys| && (r'.stage.Fetching? || r'.stage.FetchFailed?))
    ensures ReaderLin(n, log, r')
  {
  }

  lemma ReadKeepsReader(n: Node, log: seq<Store>, a: ReadAction, n': Node)
    requires log != [] && ReadStep(n, log, a, n') && Fresh(n, log) && a.rid in n'.readers
    requires a.rid in n.readers ==> ReaderLin(n, log, n.readers[a.rid])
    requires a.rid in n.readers && !n.readers[a.rid].stage.Entering? ==> CopiesRecent(n, log, n.readers[a.rid].since)
    ensures ReaderLin(n', log, n'.readers[a.rid])
  {
    ReadFrame(n, log, a, n');
    match a
    case ReadProbe(rid) => ProbeKeepsReader(n, log, n.readers[rid]);
    case ReadFetch(rid, found) => FetchKeepsReader(n, log, n.readers[rid], found);
    case ReadFetchStart(rid) => StageKeepsReader(n, log, n.readers[rid], n'.readers[rid]);
    case ReadFetchFail(rid) => StageKeepsReader(n, log, n.readers[rid], n'.readers[rid]);
    case ReadEnter(rid) => IdleKeepsReader(n, log, n', n.readers[rid]);
    case ReadFinal(rid) => IdleKeepsReader(n, log, n', n.readers[rid]);
    case _ =>
  }

  lemma SameSince(n: Node, log: seq<Store>, a: ReadAction, n': Node)
    requires log != [] && ReadStep(n, log, a, n') && a.rid in n'.readers && !n'.readers[a.rid].stage.Entering?
    ensures a.rid in n.readers && !n.readers[a.rid].stage.Entering? && n.readers[a.rid].since == n'.readers[a.rid].since
  {
  }

  lemma ReadKeepsLin(n: Node, log: seq<Store>, a: ReadAction, n': Node)
    requires log != [] && ReadStep(n, log, a, n') && Lin(n, log) && Fresh(n, log) && ReadersInv(n)
    ensures Lin(n', log)
  {
    ReadFrame(n, log, a, n');
    ReadKeepsSettle(n, log, a, n');
    forall x <- n'.readers
      ensures ReaderLin(n', log, n'.readers[x])
      ensures !n'.readers[x].stage.Entering? ==> CopiesRecent(n', log, n'.readers[x].since)
    {
      if x in n.readers { assert ReaderLin(n, log, n.readers[x]); }
      if x == a.rid { ReadKeepsReader(n, log, a, n'); } else { IdleKeepsReader(n, log, n', n.readers[x]); }
      if !n'.readers[x].stage.Entering? {
        if x == a.rid { SameSince(n, log, a, n'); }
        ReadKeepsRecent(n, log, a, n', n.readers[x].since);
      }
    }
  }

  lemma ReadKeepsSettle(n: Node, log: seq<Store>, a: ReadAction, n': Node)
    requires log != [] && ReadStep(n, log, a, n') && ReadersInv(n) && SettleInv(n, log)
    ensures SettleInv(n', log)
  {
  }

  /** Settling: L1 entries and fetched items agree with L2 under the lock. */
  lemma SettleAgrees(n: Node, log: seq<Store>, k: Key)
    requires log != [] && n.lock.Settling? && n.lock.rid in n.readers && ReadersInv(n) && Fresh(n, log)
    ensures k in n.l1 ==> !Stale(Last(log), k, n.l1[k])
    ensures var r := n.readers[n.lock.rid]; k in r.found ==> !Stale(Last(log), k, r.found[k])
  {
    assert ReaderCovered(n, n.readers[n.lock.rid], Last(log), iset{});
  }

  lemma HitKeepsReader(n: Node, log: seq<Store>, r: Reader, k: Key, v: Value)
    requires log != [] && ReaderLin(n, log, r) && !r.stage.Entering? && !Stale(Last(log), k, Plain(v))
    ensures ReaderLin(n, log, r.(hits := r.hits[k := v]))
  {
    LastIsRecent(log, r.since, k, Plain(v));
  }

  lemma SettleKeepsReader(n: Node, log: seq<Store>, k: Key, stored: bool, late: bool, n': Node)
    requires log != [] && SettleStep(n, k, stored, late, n') && Fresh(n, log) && ReadersInv(n)
    requires ReaderLin(n, log, n.readers[n.lock.rid])
    ensures ReaderLin(n', log, n'.readers[n.lock.rid])
  {
    var r := n.readers[n.lock.rid];
    SettleFrame(n, k, stored, late, n');
    SettleAgrees(n, log, k);
    if k in n.l1 {
      HitKeepsReader(n, log, r, k, n.l1[k].value);
    } else if k in r.found && !late {
      HitKeepsReader(n, log, r, k, r.found[k].value);
    }
    IdleKeepsReader(n, log, n', n'.readers[n.lock.rid]);
  }

  lemma SettleKeepsSettle(n: Node, log: seq<Store>, k: Key, stored: bool, late: bool, n': Node)
    requires log != [] && SettleStep(n, k, stored, late, n') && ReadersInv(n) && SettleInv(n, log)
    requires ReaderLin(n, log, n.readers[n.lock.rid])
    ensures SettleInv(n', log)
  {
    var r := n.readers[n.lock.rid];
    assert r.at == |log| - 1;
    assert ReadsAs(r.found, r.misses, Last(log));
  }

  lemma SettleKeepsLin(n: Node, log: seq<Store>, k: Key, stored: bool, late: bool, n': Node)
    requires log != [] && SettleStep(n, k, stored, late, n') && Lin(n, log) && Fresh(n, log) && ReadersInv(n)
    ensures Lin(n', log)
  {
    var rid := n.lock.rid;
    SettleFrame(n, k, stored, late, n');
    assert ReaderLin(n, log, n.readers[rid]);
    SettleKeepsReader(n, log, k, stored, late, n');
    SettleKeepsSettle(n, log, k, stored, late, n');
    forall x <- n'.readers
      ensures ReaderLin(n', log, n'.readers[x])
      ensures !n'.readers[x].stage.Entering? ==> CopiesRecent(n', log, n'.readers[x].since)
    {
      assert ReaderLin(n, log, n.readers[x]);
      if x != rid { IdleKeepsReader(n, log, n', n.readers[x]); }
      if !n.readers[x].stage.Entering? { SettleKeepsRecent(n, k, stored, late, n', log, n.readers[x].since); }
    }
  }

  lemma EntryKeepsLin(n: Node, log: seq<Store>, n': Node, rid: nat)
    requires log != [] && GatePassStep(n, log, n') && n.lock.who == EntryCheck(rid)
    requires Lin(n, log) && Fresh(n, log) && ReadersInv(n)
    ensures Lin(n', log)
  {
    GateFrame(n, log, n');
    EnterKeepsReader(n, log, n', rid);
    EnteringCopies(n, log);
    HeldKeepsRecent(n, log, GatePass, n', |log| - 1);
    forall x <- n'.readers
      ensures ReaderLin(n', log, n'.readers[x])
      ensures !n'.readers[x].stage.Entering? ==> CopiesRecent(n', log, n'.readers[x].since)
    {
      if x != rid {
        assert ReaderLin(n, log, n.readers[x]);
        IdleKeepsReader(n, log, n', n.readers[x]);
        if !n'.readers[x].stage.Entering? { HeldKeepsRecent(n, log, GatePass, n', n.readers[x].since); }
      }
    }
  }

  /** A holder that leaves, or moves on without touching its reader. */
  lemma HeldSubject(n: Node, log: seq<Store>, a: HeldAction, n': Node)
    requires log != [] && HeldStep(n, log, a, n') && !a.Settle? && !(a.GatePass? && n.lock.who.EntryCheck?)
    ensures n'.readers == n.readers || n'.readers == n.readers - {Holder(n.lock)}
    ensures n'.lock.Settling? && n'.lock.rid in n.readers ==> n'.lock.left == n.readers[n'.lock.rid].misses
  {
  }

  lemma HeldKeepsLin(n: Node, log: seq<Store>, a: HeldAction, n': Node)
    requires log != [] && HeldStep(n, log, a, n') && Lin(n, log) && Fresh(n, log) && ReadersInv(n)
    ensures Lin(n', log)
  {
    if a.Settle? {
      SettleKeepsLin(n, log, a.key, a.stored, a.late, n');
    } else if a.GatePass? && n.lock.who.EntryCheck? {
      EntryKeepsLin(n, log, n', n.lock.who.rid);
    } else {
      HeldFrame(n, log, a, n');
      HeldSubject(n, log, a, n');
      forall x <- n'.readers
        ensures ReaderLin(n', log, n'.readers[x])
        ensures !n'.readers[x].stage.Entering? ==> CopiesRecent(n', log, n'.readers[x].since)
      {
        assert ReaderLin(n, log, n.readers[x]);
        IdleKeepsReader(n, log, n', n.readers[x]);
        if !n'.readers[x].stage.Entering? { HeldKeepsRecent(n, log, a, n', n.readers[x].since); }
      }
    }
  }

  // -------------------------------------------------------------------------- whole runs

  /** L2 changed although the call failed. */
  predicate Loses(a: Action) {
    a.Mut? && a.mut.MutLose?
  }

  /** Every L2 call that failed has changed nothing. */
  predicate Reliable(moves: seq<Move>) {
    forall m <- moves :: !Loses(m.action)
  }

  predicate Lone(s: System) {
    !s.bus && |s.nodes| == 1
  }

  lemma LoneIsFresh(s: System)
    requires Inv(s) && Lone(s)
    ensures Fresh(s.nodes[0], s.log)
  {
    assert Covered(s, 0);
    assert OwedKeys(s, 0) == iset{};
  }

  lemma SameReadersKeepLin(n: Node, log: seq<Store>, n': Node)
    requires log != [] && Lin(n, log) && n'.readers == n.readers && n'.version == n.version && n'.lock == n.lock
    requires ReadersInv(n) && forall k <- n'.l1 :: k in n.l1 && n'.l1[k] == n.l1[k]
    ensures Lin(n', log)
  {
    forall rid <- n'.readers
      ensures ReaderLin(n', log, n'.readers[rid])
      ensures !n'.readers[rid].stage.Entering? ==> CopiesRecent(n', log, n'.readers[rid].since)
    {
      assert ReaderLin(n, log, n.readers[rid]);
      if !n'.readers[rid].stage.Entering? { LosingKeepsRecent(n, n', log, n.readers[rid].since); }
    }
  }

  lemma StepKeepsLin(n: Node, log: seq<Store>, a: Action, n': Node, log': seq<Store>, out: Out)
    requires log != [] && NodeStep(false, 0, n, log, a, n', log', out) && NodeInv(false, n, log)
    requires Lin(n, log) && Fresh(n, log) && !Loses(a)
    ensures log' != [] && Lin(n', log')
  {
    match a
    case Env(e) => EnvFrame(n, e, n'); SameReadersKeepLin(n, log, n');
    case Sub(_) => assert false;
    case Mut(e) => MutKeepsLin(n, log, e, n', log', out);
    case Read(e) => ReadKeepsLin(n, log, e, n');
    case Held(e) => HeldKeepsLin(n, log, e, n');
    case Rec(e) => RecFrame(0, n, e, n', out); SameReadersKeepLin(n, log, n');
  }

  lemma {:induction false} RunKeepsLin(states: seq<System>, moves: seq<Move>, x: nat)
    requires Run(states, moves) && Reliable(moves) && Lone(states[0]) && x < |states|
    ensures Lone(states[x]) && Inv(states[x]) && Lin(states[x].nodes[0], states[x].log)
  {
    RunKeepsInv(states, moves, x);
    if x == 0 {
      assert InitNode(false, states[0].nodes[0]);
    } else {
      var s, m, t := states[x - 1], moves[x - 1], states[x];
      assert Next(s, m, t);
      RunKeepsLin(states, moves, x - 1);
      LogGrows(s, m, t);
      LoneIsFresh(s);
      LoneIsQuiet(0, s.nodes[0], s.log, m.action, m.node, m.log, m.out);
      StepKeepsLin(s.nodes[0], s.log, m.action, m.node, m.log, m.out);
    }
  }

  /** The step that returns the answer `readers[rid].hits` to the caller. */
  predicate Returns(n: Node, a: Action, rid: nat) {
    && rid in n.readers
    && ((a == Held(SettleDone) && n.lock.Settling? && n.lock.rid == rid && n.lock.left == {})
        || (a == Held(GatePass) && n.lock == Gate(FinalCheck(rid)) && n.readers[rid].stage.Scanning?))
  }

  /** Get is linearizable: the answer agrees with L2 at some moment after the call's entry check
      and before its return. */
  lemma GetIsLinearizable(states: seq<System>, moves: seq<Move>, x: nat, rid: nat)
    requires Run(states, moves) && Reliable(moves) && Lone(states[0]) && x < |moves| && |states[x].nodes| == 1
    requires Returns(states[x].nodes[0], moves[x].action, rid)
    requires !states[x].nodes[0].readers[rid].many
    ensures var r := states[x].nodes[0].readers[rid];
            |r.keys| == 1 && exists p :: r.since <= p < |states[x].log| && AnswerAt(r.hits, r.keys[0], states[x].log[p])
  {
    RunKeepsLin(states, moves, x);
    var s := states[x];
    var n, log := s.nodes[0], s.log;
    var r := n.readers[rid];
    var k := r.keys[0];
    assert ReaderLin(n, log, r) && ReaderInv(n, r);
    if k in r.hits {
      assert Recent(log, r.since, k, Plain(r.hits[k]));
      var p :| r.since <= p < |log| && !Stale(log[p], k, Plain(r.hits[k]));
      assert AnswerAt(r.hits, k, log[p]);
    } else {
      assert k in r.misses - n.lock.left;
      assert AnswerAt(r.hits, k, log[|log| - 1]);
    }
  }

  predicate SnapshotAt(r: Reader, l2: Store) {
    forall k <- r.keys :: AnswerAt(r.hits, k, l2)
  }

  /** GetMany is an atomic snapshot: there is one moment between entry check and return at which L2
      agrees with the whole answer, whether its parts came from L1 or from L2. */
  lemma GetManyIsSnapshot(states: seq<System>, moves: seq<Move>, x: nat, rid: nat)
    requires Run(states, moves) && Reliable(moves) && Lone(states[0]) && x < |moves| && |states[x].nodes| == 1
    requires Returns(states[x].nodes[0], moves[x].action, rid)
    requires states[x].nodes[0].readers[rid].many
    ensures var r := states[x].nodes[0].readers[rid];
            exists p :: r.since <= p < |states[x].log| && SnapshotAt(r, states[x].log[p])
  {
    RunKeepsLin(states, moves, x);
    var s := states[x];
    var n, log := s.nodes[0], s.log;
    var r := n.readers[rid];
    assert ReaderLin(n, log, r) && ReaderInv(n, r);
    assert ReadersInv(n);
    assert r.version == n.version && !Dirty(n.lock);
    forall k <- r.keys ensures AnswerAt(r.hits, k, log[|log| - 1]) {
      var y :| 0 <= y < |r.keys| && r.keys[y] == k;
      if k !in r.hits && n.lock.Settling? { assert k in r.misses - n.lock.left; }
    }
    assert SnapshotAt(r, log[|log| - 1]);
  }

  /** No read overtaken by a committed mutation is warmed: whatever a reader holds under its final
      lock is what L2 holds at that moment. */
  lemma WarmedReadIsCurrent(states: seq<System>, moves: seq<Move>, x: nat, k: Key)
    requires Run(states, moves) && Reliable(moves) && Lone(states[0])
             && x < |states| && |states[x].nodes| == 1 && states[x].log != []
    requires var n := states[x].nodes[0];
             n.lock.Settling? && n.lock.rid in n.readers && k in n.readers[n.lock.rid].found
    ensures var n, log := states[x].nodes[0], states[x].log;
            k in Last(log) && n.readers[n.lock.rid].found[k] == Last(log)[k]
  {
    RunKeepsLin(states, moves, x);
    var n, log := states[x].nodes[0], states[x].log;
    assert ReaderLin(n, log, n.readers[n.lock.rid]) && ReadersInv(n);
  }
}
