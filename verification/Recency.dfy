/**
 How old a copy of L2 may be.  A copy is recent from a log position if it agreed with L2 at
 or after that position; the protocol keeps all copies of an instance recent once they are.
 */
module Recency {
  import opened Wrappers
  import opened Protocol
  import opened Coherence

  predicate Recent(log: seq<Store>, from: nat, k: Key, copy: Item) {
    exists p :: from <= p < |log| && !Stale(log[p], k, copy)
  }

  predicate ReaderRecent(n: Node, r: Reader, log: seq<Store>, from: nat) {
    r.stage.Fetched? && r.version == n.version ==>
      forall k <- r.found :: Recent(log, from, k, r.found[k])
  }

  predicate WriteRecent(lock: Lock, log: seq<Store>, from: nat) {
    ((lock.Calling? && lock.dirty) || lock.Fixing?) && lock.op.Put? ==>
      forall k <- lock.op.values :: Recent(log, from, k, lock.op.values[k])
  }

  /** L1 entries, reads that may still be warmed and values about to be written. */
  predicate CopiesRecent(n: Node, log: seq<Store>, from: nat) {
    && (forall k <- n.l1 :: Recent(log, from, k, n.l1[k]))
    && (forall rid <- n.readers :: ReaderRecent(n, n.readers[rid], log, from))
    && WriteRecent(n.lock, log, from)
  }

  lemma RecentGrows(log: seq<Store>, log': seq<Store>, from: nat, k: Key, copy: Item)
    requires log <= log' && Recent(log, from, k, copy)
    ensures Recent(log', from, k, copy)
  {
    var p :| from <= p < |log| && !Stale(log[p], k, copy);
    assert log'[p] == log[p];
  }

  lemma CopiesGrow(n: Node, log: seq<Store>, log': seq<Store>, from: nat)
    requires log <= log' && CopiesRecent(n, log, from)
    ensures CopiesRecent(n, log', from)
  {
    forall k, copy | Recent(log, from, k, copy) ensures Recent(log', from, k, copy)
    { RecentGrows(log, log', from, k, copy); }
    forall rid <- n.readers ensures ReaderRecent(n, n.readers[rid], log', from) {
      assert ReaderRecent(n, n.readers[rid], log, from);
    }
  }

  lemma LastIsRecent(log: seq<Store>, from: nat, k: Key, copy: Item)
    requires from < |log| && !Stale(Last(log), k, copy)
    ensures Recent(log, from, k, copy)
  {
    assert !Stale(log[|log| - 1], k, copy);
  }

  /** Fewer entries, unchanged readers or a bumped version: nothing new to account for. */
  lemma LosingKeepsRecent(n: Node, n': Node, log: seq<Store>, from: nat)
    requires CopiesRecent(n, log, from) && n'.readers == n.readers && n.version <= n'.version
    requires forall rid <- n.readers :: n.readers[rid].version <= n.version
    requires forall k <- n'.l1 :: k in n.l1 && n'.l1[k] == n.l1[k]
    requires WriteRecent(n'.lock, log, from)
    ensures CopiesRecent(n', log, from)
  {
    forall rid <- n'.readers ensures ReaderRecent(n', n'.readers[rid], log, from) {
      assert ReaderRecent(n, n.readers[rid], log, from);
    }
  }

  lemma SubKeepsRecent(i: nat, n: Node, log: seq<Store>, a: SubAction, n': Node, from: nat)
    requires log != [] && SubStep(i, n, log, a, n') && ReadersInv(n) && CopiesRecent(n, log, from)
    ensures CopiesRecent(n', log, from)
  {
    SubFrame(i, n, log, a, n');
    LosingKeepsRecent(n, n', log, from);
  }

  lemma MutKeepsRecent(bus: bool, i: nat, n: Node, log: seq<Store>, a: MutAction, n': Node, log': seq<Store>,
                       out: Out, from: nat)
    requires from < |log| && MutStep(bus, i, n, log, a, n', log', out) && ReadersInv(n) && CopiesRecent(n, log, from)
    ensures CopiesRecent(n', log', from)
  {
    match a
    case MutEffect(after) =>
      CopiesGrow(n, log, log', from);
      if n.lock.op.Put? {
        forall k <- n.lock.op.values ensures Recent(log', from, k, n.lock.op.values[k]) {
          LastIsRecent(log', from, k, n.lock.op.values[k]);
        }
      }
      LosingKeepsRecent(n, n', log', from);
    case MutLose(after) =>
      CopiesGrow(n, log, log', from);
      LosingKeepsRecent(n, n', log', from);
    case MutFix(k, keep) =>
      forall x <- n'.l1 ensures Recent(log', from, x, n'.l1[x]) { }
      forall rid <- n'.readers ensures ReaderRecent(n', n'.readers[rid], log', from) {
        assert ReaderRecent(n, n.readers[rid], log, from);
      }
    case _ => LosingKeepsRecent(n, n', log, from);
  }

  lemma SettleKeepsRecent(n: Node, k: Key, stored: bool, late: bool, n': Node, log: seq<Store>, from: nat)
    requires SettleStep(n, k, stored, late, n') && ReadersInv(n) && CopiesRecent(n, log, from)
    ensures CopiesRecent(n', log, from)
  {
    SettleFrame(n, k, stored, late, n');
    assert ReaderRecent(n, n.readers[n.lock.rid], log, from);
    OneReaderKeepsRecent(n, n', n.lock.rid, log, from);
  }

  lemma FetchedIsRecent(found: Store, wanted: set<Key>, log: seq<Store>, from: nat)
    requires from < |log| && ReadsAs(found, wanted, Last(log))
    ensures forall k <- found :: Recent(log, from, k, found[k])
  {
    forall k <- found ensures Recent(log, from, k, found[k]) { LastIsRecent(log, from, k, found[k]); }
  }

  lemma ReadKeepsRecent(n: Node, log: seq<Store>, a: ReadAction, n': Node, from: nat)
    requires from < |log| && ReadStep(n, log, a, n') && CopiesRecent(n, log, from)
    ensures CopiesRecent(n', log, from)
  {
    ReadFrame(n, log, a, n');
    if a.rid in n'.readers && n'.readers[a.rid].stage.Fetched? {
      ReadFetches(n, log, a, n');
      if a.rid in n.readers { assert ReaderRecent(n, n.readers[a.rid], log, from); }
      if a.ReadFetch? { FetchedIsRecent(a.found, n.readers[a.rid].misses, log, from); }
    }
    OneReaderKeepsRecent(n, n', a.rid, log, from);
  }

  lemma HeldKeepsRecent(n: Node, log: seq<Store>, a: HeldAction, n': Node, from: nat)
    requires from < |log| && HeldStep(n, log, a, n') && ReadersInv(n) && CopiesRecent(n, log, from)
    ensures CopiesRecent(n', log, from)
  {
    if a.Settle? {
      SettleKeepsRecent(n, a.key, a.stored, a.late, n', log, from);
    } else {
      var rid := Holder(n.lock);
      HeldFrame(n, log, a, n');
      if rid in n'.readers && n'.readers[rid].stage.Fetched? {
        HeldFetches(n, log, a, n');
        assert ReaderRecent(n, n.readers[rid], log, from);
      }
      OneReaderKeepsRecent(n, n', rid, log, from);
    }
  }

  lemma OneReaderKeepsRecent(n: Node, n': Node, rid: nat, log: seq<Store>, from: nat)
    requires CopiesRecent(n, log, from) && n'.version == n.version
    requires LockMoves(n, n') && OneReader(n, n', rid)
    requires forall k <- n'.l1 :: Recent(log, from, k, n'.l1[k])
    requires rid in n'.readers ==> ReaderRecent(n', n'.readers[rid], log, from)
    ensures CopiesRecent(n', log, from)
  {
    forall x <- n'.readers ensures ReaderRecent(n', n'.readers[x], log, from) {
      if x != rid { assert ReaderRecent(n, n.readers[x], log, from); }
    }
  }

  lemma StepKeepsRecent(bus: bool, i: nat, n: Node, log: seq<Store>, a: Action, n': Node, log': seq<Store>,
                        out: Out, from: nat)
    requires from < |log| && NodeStep(bus, i, n, log, a, n', log', out) && ReadersInv(n) && CopiesRecent(n, log, from)
    ensures CopiesRecent(n', log', from)
  {
    match a
    case Env(e) => EnvFrame(n, e, n'); LosingKeepsRecent(n, n', log, from);
    case Sub(e) => SubKeepsRecent(i, n, log, e, n', from);
    case Mut(e) => MutKeepsRecent(bus, i, n, log, e, n', log', out, from);
    case Read(e) => ReadKeepsRecent(n, log, e, n', from);
    case Held(e) => HeldKeepsRecent(n, log, e, n', from);
    case Rec(e) => RecFrame(i, n, e, n', out); LosingKeepsRecent(n, n', log, from);
  }

  lemma ResetIsRecent(i: nat, n: Node, log: seq<Store>, n': Node)
    requires log != [] && SubStep(i, n, log, SubFlush, n') && ReadersInv(n)
    ensures CopiesRecent(n', log, n'.resetAt)
  {
    forall rid <- n'.readers ensures n'.readers[rid].version < n'.version {
      assert ReaderInv(n, n.readers[rid]);
    }
  }

  lemma DeliveryKeepsRecent(n: Node, n': Node, log: seq<Store>, from: nat)
    requires CopiesRecent(n, log, from) && n' == n.(link := n'.link)
    ensures CopiesRecent(n', log, from)
  {
    forall rid <- n'.readers ensures ReaderRecent(n', n'.readers[rid], log, from) {
      assert ReaderRecent(n, n.readers[rid], log, from);
    }
  }

  /** Only the reconnect flush moves `resetAt`, and it leaves no copy behind. */
  lemma StepKeepsReset(bus: bool, i: nat, n: Node, log: seq<Store>, a: Action, n': Node, log': seq<Store>, out: Out)
    requires log != [] && NodeStep(bus, i, n, log, a, n', log', out) && NodeInv(bus, n, log)
    requires CopiesRecent(n, log, n.resetAt)
    ensures CopiesRecent(n', log', n'.resetAt)
  {
    if a == Sub(SubFlush) {
      ResetIsRecent(i, n, log, n');
    } else {
      StepFrame(bus, i, n, log, a, n', log', out);
      StepKeepsRecent(bus, i, n, log, a, n', log', out, n.resetAt);
    }
  }

  lemma NextKeepsReset(s: System, m: Move, t: System, i: nat)
    requires Inv(s) && Next(s, m, t) && i < |s.nodes| && CopiesRecent(s.nodes[i], s.log, s.nodes[i].resetAt)
    ensures i < |t.nodes| && CopiesRecent(t.nodes[i], t.log, t.nodes[i].resetAt)
  {
    var mid := s.nodes[m.who := m.node];
    LogGrows(s, m, t);
    DeliverAt(mid, m.out, i);
    if i == m.who {
      StepKeepsReset(s.bus, i, s.nodes[i], s.log, m.action, m.node, m.log, m.out);
    } else {
      CopiesGrow(s.nodes[i], s.log, t.log, s.nodes[i].resetAt);
    }
    DeliveryKeepsRecent(mid[i], t.nodes[i], t.log, mid[i].resetAt);
  }

  lemma {:induction false} RunKeepsReset(states: seq<System>, moves: seq<Move>, x: nat, i: nat)
    requires Run(states, moves) && x < |states| && i < |states[x].nodes|
    ensures CopiesRecent(states[x].nodes[i], states[x].log, states[x].nodes[i].resetAt)
  {
    if x == 0 {
      assert InitNode(states[0].bus, states[0].nodes[i]);
    } else {
      assert Next(states[x - 1], moves[x - 1], states[x]);
      LogGrows(states[x - 1], moves[x - 1], states[x]);
      RunKeepsInv(states, moves, x - 1);
      RunKeepsReset(states, moves, x - 1, i);
      NextKeepsReset(states[x - 1], moves[x - 1], states[x], i);
    }
  }

  /** Nothing from a subscription gap survives: in every reachable state each L1 entry
      agreed with L2 at or after the instance's last reconnect flush, and every fetched item that may
      still be warmed was read then. */
  lemma NothingFromTheGap(states: seq<System>, moves: seq<Move>, x: nat, i: nat)
    requires Run(states, moves) && x < |states| && i < |states[x].nodes|
    ensures var n, log := states[x].nodes[i], states[x].log;
            && (forall k <- n.l1 :: exists p :: n.resetAt <= p < |log| && !Stale(log[p], k, n.l1[k]))
            && (forall rid <- n.readers :: n.readers[rid].stage.Fetched? && n.readers[rid].version == n.version
                  ==> n.resetAt <= n.readers[rid].at)
  {
    RunKeepsReset(states, moves, x, i);
    RunKeepsInv(states, moves, x);
    var n, log := states[x].nodes[i], states[x].log;
    forall k <- n.l1 ensures exists p :: n.resetAt <= p < |log| && !Stale(log[p], k, n.l1[k]) {
      assert Recent(log, n.resetAt, k, n.l1[k]);
    }
  }
}
