/**
 What an instance reads of its own writes, with any number of instances on a bus: once it has put its
 L1 right after a mutation, or applied an invalidation, no read that it lets in afterwards answers
 with anything older.
 */
module OwnWrites {
  import opened Protocol
  import opened Coherence
  import opened Recency
  import opened Linearizable
  import Hypotheses

  // -------------------------------------------------------------- copies since a position

  /** The L1 entry of k, if any, agreed with L2 at or after the position `from` of its log.  An
      instance whose own mutation is to be put right (`own`) may have any copy until then, except
      that Touch only puts the lifetime right. */
  predicate CopySince(n: Node, log: seq<Store>, from: nat, k: Key, own: bool) {
    k in n.l1 ==>
      || Recent(log, from, k, n.l1[k])
      || (own && Unfixed(n.lock, k) && (n.lock.op.Renew? ==> Recent(log, from, k, Plain(n.l1[k].value))))
  }

  /** What was read from L2 and may still be warmed was read there. */
  predicate ReadSince(n: Node, r: Reader, from: nat) {
    r.stage.Fetched? && r.version == n.version ==> from <= r.at
  }

  /** The value that a mutation is about to write to L1 was written to L2 there. */
  predicate WriteSince(lock: Lock, log: seq<Store>, from: nat, k: Key) {
    ((lock.Calling? && lock.dirty) || lock.Fixing?) && lock.op.Put? && k in lock.op.values ==>
      Recent(log, from, k, lock.op.values[k])
  }

  predicate Since(n: Node, log: seq<Store>, from: nat, k: Key, own: bool) {
    && CopySince(n, log, from, k, own)
    && ((own && Unbumped(n.lock, k)) || forall rid <- n.readers :: ReadSince(n, n.readers[rid], from))
    && WriteSince(n.lock, log, from, k)
  }

  /** What a reader has fetched is what L2 held when it did. */
  predicate Fetches(r: Reader, log: seq<Store>) {
    r.stage.Fetched? ==> r.at < |log| && ReadsAs(r.found, r.misses, log[r.at])
  }

  predicate AllFetch(n: Node, log: seq<Store>) {
    forall rid <- n.readers :: Fetches(n.readers[rid], log)
  }

  lemma FetchedIsSince(r: Reader, log: seq<Store>, from: nat, k: Key)
    requires r.stage.Fetched? && Fetches(r, log) && from <= r.at && k in r.found
    ensures Recent(log, from, k, r.found[k])
  {
    assert !Stale(log[r.at], k, r.found[k]);
  }

  lemma SinceGrows(n: Node, log: seq<Store>, log': seq<Store>, from: nat, k: Key, own: bool)
    requires log <= log' && Since(n, log, from, k, own)
    ensures Since(n, log', from, k, own)
  {
    forall copy | Recent(log, from, k, copy) ensures Recent(log', from, k, copy) {
      RecentGrows(log, log', from, k, copy);
    }
  }

  lemma FetchesGrow(n: Node, log: seq<Store>, log': seq<Store>)
    requires log <= log' && AllFetch(n, log)
    ensures AllFetch(n, log')
  {
    forall rid <- n.readers ensures Fetches(n.readers[rid], log') {
      assert Fetches(n.readers[rid], log);
      if n.readers[rid].stage.Fetched? { assert log'[n.readers[rid].at] == log[n.readers[rid].at]; }
    }
  }

  /** A copy of the value that is given a lifetime. */
  lemma PlainIsRecent(log: seq<Store>, from: nat, k: Key, copy: Item)
    requires Recent(log, from, k, copy)
    ensures Recent(log, from, k, Plain(copy.value))
  {
    var p :| from <= p < |log| && !Stale(log[p], k, copy);
    assert !Stale(log[p], k, Plain(copy.value));
  }

  // ----------------------------------------------------------------- steps keep them so

  lemma BumpedReadersSince(n: Node, n': Node, from: nat)
    requires ReadersInv(n) && n'.readers == n.readers && n.version < n'.version
    ensures forall rid <- n'.readers :: ReadSince(n', n'.readers[rid], from)
  {
    forall rid <- n'.readers ensures ReadSince(n', n'.readers[rid], from) { assert ReaderInv(n, n.readers[rid]); }
  }

  /** L1 may lose entries, the version may rise. */
  lemma LosingKeepsSince(n: Node, n': Node, log: seq<Store>, from: nat, k: Key, own: bool)
    requires Since(n, log, from, k, own) && ReadersInv(n) && n'.readers == n.readers && n.version <= n'.version
    requires n'.lock == n.lock && (k in n'.l1 ==> k in n.l1 && n'.l1[k] == n.l1[k])
    ensures Since(n', log, from, k, own)
  {
    forall rid <- n'.readers | !(own && Unbumped(n.lock, k)) ensures ReadSince(n', n'.readers[rid], from) {
      assert ReaderInv(n, n.readers[rid]) && ReadSince(n, n.readers[rid], from);
    }
  }

  lemma EffectKeepsSince(n: Node, log: seq<Store>, after: Store, n': Node, from: nat, k: Key, own: bool)
    requires from < |log| && n.lock.Calling? && Effect(n.lock.op, Last(log), after)
    requires n' == n.(lock := Calling(n.lock.op, true)) && Since(n, log, from, k, own)
    ensures Since(n', log + [after], from, k, own)
  {
    var log' := log + [after];
    SinceGrows(n, log, log', from, k, own);
    if n.lock.op.Put? && k in n.lock.op.values { LastIsRecent(log', from, k, n.lock.op.values[k]); }
    if k in n.l1 && Recent(log', from, k, n.l1[k]) { PlainIsRecent(log', from, k, n.l1[k]); }
  }

  lemma FixKeepsSince(n: Node, k': Key, keep: bool, n': Node, log: seq<Store>, from: nat, k: Key, own: bool)
    requires n.lock.Fixing? && !n.lock.op.Clear? && k' in n.lock.todo && FixesL1(n.lock.op, k', keep, n.l1, n'.l1)
    requires n' == n.(l1 := n'.l1, lock := Fixing(n.lock.op, n.lock.todo - {k'}))
    requires Since(n, log, from, k, own)
    ensures Since(n', log, from, k, own)
  {
    if k in n.l1 && Recent(log, from, k, n.l1[k]) { PlainIsRecent(log, from, k, n.l1[k]); }
    forall rid <- n'.readers ensures ReadSince(n', n'.readers[rid], from) {
      assert ReadSince(n, n.readers[rid], from);
    }
  }

  lemma BumpKeepsSince(n: Node, n': Node, log: seq<Store>, from: nat, k: Key, own: bool)
    requires n.lock.Calling? && ReadersInv(n) && Since(n, log, from, k, own)
    requires n' == n.(version := n.version + 1, lock := Fixing(Following(n.lock.op, n.lock.dirty), Keys(n.lock.op)))
    requires n.lock.op.Put? ==> n.lock.dirty
    ensures Since(n', log, from, k, own)
  {
    BumpedReadersSince(n, n', from);
  }

  lemma MutKeepsSince(bus: bool, i: nat, n: Node, log: seq<Store>, a: MutAction, n': Node, log': seq<Store>, out: Out,
                      from: nat, k: Key, own: bool)
    requires from < |log| && MutStep(bus, i, n, log, a, n', log', out) && ReadersInv(n) && Since(n, log, from, k, own)
    ensures Since(n', log', from, k, own)
  {
    match a
    case MutEffect(after) => EffectKeepsSince(n, log, after, n', from, k, own);
    case MutLose(after) => SinceGrows(n, log, log', from, k, own);
    case MutBump => BumpKeepsSince(n, n', log, from, k, own);
    case MutFix(k', keep) => FixKeepsSince(n, k', keep, n', log, from, k, own);
    case _ =>
  }

  lemma OneReaderKeepsSince(n: Node, n': Node, rid: nat, log: seq<Store>, from: nat, k: Key, own: bool)
    requires Since(n, log, from, k, own) && n'.version == n.version && LockMoves(n, n') && OneReader(n, n', rid)
    requires k in n'.l1 ==> (k in n.l1 && n'.l1[k] == n.l1[k]) || Recent(log, from, k, n'.l1[k])
    requires rid in n'.readers ==> ReadSince(n', n'.readers[rid], from) || (own && Unbumped(n.lock, k))
    ensures Since(n', log, from, k, own)
  {
    forall x <- n'.readers | !(own && Unbumped(n.lock, k)) ensures ReadSince(n', n'.readers[x], from) {
      if x != rid { assert ReadSince(n, n.readers[x], from); }
    }
  }

  lemma ReadKeepsSince(n: Node, log: seq<Store>, a: ReadAction, n': Node, from: nat, k: Key, own: bool)
    requires from < |log| && ReadStep(n, log, a, n') && Since(n, log, from, k, own)
    ensures Since(n', log, from, k, own)
  {
    ReadFrame(n, log, a, n');
    if a.rid in n.readers { assert (own && Unbumped(n.lock, k)) || ReadSince(n, n.readers[a.rid], from); }
    OneReaderKeepsSince(n, n', a.rid, log, from, k, own);
  }

  lemma SettleKeepsSince(n: Node, k': Key, stored: bool, late: bool, n': Node, log: seq<Store>, from: nat, k: Key,
                         own: bool)
    requires SettleStep(n, k', stored, late, n') && ReadersInv(n) && AllFetch(n, log) && Since(n, log, from, k, own)
    ensures Since(n', log, from, k, own)
  {
    var r := n.readers[n.lock.rid];
    SettleFrame(n, k', stored, late, n');
    assert ReadSince(n, r, from) && Fetches(r, log);
    if k in r.found { FetchedIsSince(r, log, from, k); }
    OneReaderKeepsSince(n, n', n.lock.rid, log, from, k, own);
  }

  lemma HeldKeepsSince(n: Node, log: seq<Store>, a: HeldAction, n': Node, from: nat, k: Key, own: bool)
    requires from < |log| && HeldStep(n, log, a, n') && ReadersInv(n) && AllFetch(n, log)
    requires Since(n, log, from, k, own)
    ensures Since(n', log, from, k, own)
  {
    if a.Settle? {
      SettleKeepsSince(n, a.key, a.stored, a.late, n', log, from, k, own);
    } else {
      var rid := Holder(n.lock);
      HeldFrame(n, log, a, n');
      if rid in n'.readers && n'.readers[rid].stage.Fetched? {
        HeldFetches(n, log, a, n');
        assert ReadSince(n, n.readers[rid], from);
      }
      OneReaderKeepsSince(n, n', rid, log, from, k, own);
    }
  }

  lemma StepKeepsSince(bus: bool, i: nat, n: Node, log: seq<Store>, a: Action, n': Node, log': seq<Store>, out: Out,
                       from: nat, k: Key, own: bool)
    requires from < |log| && NodeStep(bus, i, n, log, a, n', log', out) && ReadersInv(n) && AllFetch(n, log)
    requires Since(n, log, from, k, own)
    ensures Since(n', log', from, k, own)
  {
    match a
    case Env(e) => EnvFrame(n, e, n'); LosingKeepsSince(n, n', log, from, k, own);
    case Sub(e) => SubFrame(i, n, log, e, n'); LosingKeepsSince(n, n', log, from, k, own);
    case Mut(e) => MutKeepsSince(bus, i, n, log, e, n', log', out, from, k, own);
    case Read(e) => ReadKeepsSince(n, log, e, n', from, k, own);
    case Held(e) => HeldKeepsSince(n, log, e, n', from, k, own);
    case Rec(e) => RecFrame(i, n, e, n', out); LosingKeepsSince(n, n', log, from, k, own);
  }

  // ------------------------------------------------------------------------ fetched items

  lemma OneReaderKeepsFetches(n: Node, n': Node, rid: nat, log: seq<Store>)
    requires AllFetch(n, log) && OneReader(n, n', rid)
    requires rid in n'.readers ==> Fetches(n'.readers[rid], log)
    ensures AllFetch(n', log)
  {
    forall x <- n'.readers ensures Fetches(n'.readers[x], log) {
      if x != rid { assert Fetches(n.readers[x], log); }
    }
  }

  lemma ReadKeepsFetches(n: Node, log: seq<Store>, a: ReadAction, n': Node)
    requires log != [] && ReadStep(n, log, a, n') && AllFetch(n, log)
    ensures AllFetch(n', log)
  {
    ReadFrame(n, log, a, n');
    if a.rid in n.readers { assert Fetches(n.readers[a.rid], log); }
    OneReaderKeepsFetches(n, n', a.rid, log);
  }

  lemma HeldKeepsFetches(n: Node, log: seq<Store>, a: HeldAction, n': Node)
    requires log != [] && HeldStep(n, log, a, n') && AllFetch(n, log)
    ensures AllFetch(n', log)
  {
    var rid := if a.Settle? then n.lock.rid else Holder(n.lock);
    if a.Settle? { SettleFrame(n, a.key, a.stored, a.late, n'); } else { HeldFrame(n, log, a, n'); }
    if rid in n.readers { assert Fetches(n.readers[rid], log); }
    if !a.Settle? && rid in n'.readers && n'.readers[rid].stage.Fetched? { HeldFetches(n, log, a, n'); }
    OneReaderKeepsFetches(n, n', rid, log);
  }

  lemma StepKeepsFetches(bus: bool, i: nat, n: Node, log: seq<Store>, a: Action, n': Node, log': seq<Store>, out: Out)
    requires log != [] && NodeStep(bus, i, n, log, a, n', log', out) && AllFetch(n, log)
    ensures AllFetch(n', log')
  {
    match a
    case Env(e) => EnvFrame(n, e, n');
    case Sub(e) => SubFrame(i, n, log, e, n');
    case Mut(e) => MutFrame(bus, i, n, log, e, n', log', out); FetchesGrow(n, log, log');
    case Read(e) => ReadKeepsFetches(n, log, e, n');
    case Held(e) => HeldKeepsFetches(n, log, e, n');
    case Rec(e) => RecFrame(i, n, e, n', out);
  }

  // ------------------------------------------------------------------------------ answers

  /** What a read that has passed its entry check would answer for k. */
  predicate AnswerSince(n: Node, log: seq<Store>, from: nat, k: Key, rid: nat) {
    rid in n.readers && !n.readers[rid].stage.Entering? ==>
      && ScanInv(n.readers[rid])
      && (k in n.readers[rid].hits ==> Recent(log, from, k, Plain(n.readers[rid].hits[k])))
  }

  /** If the last section is done with k and has no value for it, L2 had none when it was read. */
  predicate MissSince(n: Node, log: seq<Store>, k: Key) {
    n.lock.Settling? && n.lock.rid in n.readers && k in n.readers[n.lock.rid].misses - n.lock.left ==>
      var r := n.readers[n.lock.rid];
      k in r.hits || (r.at < |log| && (k in log[r.at] ==> log[r.at][k].mortal))
  }

  lemma ProbeAnswers(n: Node, log: seq<Store>, r: Reader, from: nat, k: Key)
    requires Since(n, log, from, k, false) && r.stage.Scanning? && r.next < |r.keys| && ScanInv(r)
    requires k in r.hits ==> Recent(log, from, k, Plain(r.hits[k]))
    ensures var r' := Probed(n, r); ScanInv(r') && (k in r'.hits ==> Recent(log, from, k, Plain(r'.hits[k])))
  {
    if k in n.l1 { PlainIsRecent(log, from, k, n.l1[k]); }
  }

  lemma ReadAnswers(n: Node, log: seq<Store>, a: ReadAction, n': Node, from: nat, k: Key, rid: nat)
    requires log != [] && ReadStep(n, log, a, n') && Since(n, log, from, k, false)
    requires AnswerSince(n, log, from, k, rid)
    ensures AnswerSince(n', log, from, k, rid)
  {
    ReadFrame(n, log, a, n');
    if a.ReadProbe? && a.rid == rid && !n.readers[rid].stage.Entering? {
      ProbeAnswers(n, log, n.readers[rid], from, k);
    }
  }

  /** What a settling reader may hand out for k. */
  lemma SettlesSince(n: Node, log: seq<Store>, from: nat, k: Key)
    requires n.lock.Settling? && ReadersInv(n) && AllFetch(n, log) && Since(n, log, from, k, false)
    ensures k in n.l1 ==> Recent(log, from, k, Plain(n.l1[k].value))
    ensures var found := n.readers[n.lock.rid].found; k in found ==> Recent(log, from, k, Plain(found[k].value))
  {
    var r := n.readers[n.lock.rid];
    assert ReadSince(n, r, from) && Fetches(r, log);
    if k in n.l1 { PlainIsRecent(log, from, k, n.l1[k]); }
    if k in r.found {
      FetchedIsSince(r, log, from, k);
      PlainIsRecent(log, from, k, r.found[k]);
    }
  }

  /** Settling a key changes nothing but the hits of the holder, by what L1 or L2 had for it. */
  lemma SettleHits(n: Node, k': Key, stored: bool, late: bool, n': Node)
    requires SettleStep(n, k', stored, late, n')
    ensures n.lock.rid in n'.readers
    ensures var r, r' := n.readers[n.lock.rid], n'.readers[n.lock.rid];
            && n'.readers == n.readers[n.lock.rid := r'] && r' == r.(hits := r'.hits)
            && (|| r'.hits == r.hits
                || (k' in n.l1 && r'.hits == r.hits[k' := n.l1[k'].value])
                || (k' in r.found && r'.hits == r.hits[k' := r.found[k'].value]))
  {
  }

  lemma SettledAnswer(r: Reader, r': Reader, l1: Store, k': Key, log: seq<Store>, from: nat, k: Key)
    requires r' == r.(hits := r'.hits) && ScanInv(r)
    requires || r'.hits == r.hits
             || (k' in l1 && r'.hits == r.hits[k' := l1[k'].value])
             || (k' in r.found && r'.hits == r.hits[k' := r.found[k'].value])
    requires k in r.hits ==> Recent(log, from, k, Plain(r.hits[k]))
    requires k in l1 ==> Recent(log, from, k, Plain(l1[k].value))
    requires k in r.found ==> Recent(log, from, k, Plain(r.found[k].value))
    ensures ScanInv(r') && (k in r'.hits ==> Recent(log, from, k, Plain(r'.hits[k])))
  {
  }

  lemma SettleAnswers(n: Node, k': Key, stored: bool, late: bool, n': Node, log: seq<Store>, from: nat, k: Key,
                      rid: nat)
    requires SettleStep(n, k', stored, late, n') && ReadersInv(n) && AllFetch(n, log) && Since(n, log, from, k, false)
    requires AnswerSince(n, log, from, k, rid)
    ensures AnswerSince(n', log, from, k, rid)
  {
    SettleHits(n, k', stored, late, n');
    SettlesSince(n, log, from, k);
    if rid == n.lock.rid { SettledAnswer(n.readers[rid], n'.readers[rid], n.l1, k', log, from, k); }
  }

  lemma HeldAnswers(n: Node, log: seq<Store>, a: HeldAction, n': Node, from: nat, k: Key, rid: nat)
    requires log != [] && HeldStep(n, log, a, n') && ReadersInv(n) && AllFetch(n, log) && Since(n, log, from, k, false)
    requires AnswerSince(n, log, from, k, rid)
    ensures AnswerSince(n', log, from, k, rid)
  {
    if a.Settle? {
      SettleAnswers(n, a.key, a.stored, a.late, n', log, from, k, rid);
    } else if a.GatePass? && n.lock.who.EntryCheck? {
      EnterKeepsReader(n, log, n', n.lock.who.rid);
    } else {
      HeldSubject(n, log, a, n');
    }
  }

  lemma AnswerGrows(n: Node, log: seq<Store>, n': Node, log': seq<Store>, from: nat, k: Key, rid: nat)
    requires log <= log' && AnswerSince(n, log, from, k, rid) && n'.readers == n.readers
    ensures AnswerSince(n', log', from, k, rid)
  {
    forall copy | Recent(log, from, k, copy) ensures Recent(log', from, k, copy) {
      RecentGrows(log, log', from, k, copy);
    }
  }

  lemma StepAnswers(bus: bool, i: nat, n: Node, log: seq<Store>, a: Action, n': Node, log': seq<Store>, out: Out,
                    from: nat, k: Key, rid: nat)
    requires log != [] && NodeStep(bus, i, n, log, a, n', log', out) && ReadersInv(n) && AllFetch(n, log)
    requires Since(n, log, from, k, false) && AnswerSince(n, log, from, k, rid)
    ensures AnswerSince(n', log', from, k, rid)
  {
    match a
    case Env(e) => EnvFrame(n, e, n');
    case Sub(e) => SubFrame(i, n, log, e, n');
    case Mut(e) => MutFrame(bus, i, n, log, e, n', log', out); AnswerGrows(n, log, n', log', from, k, rid);
    case Read(e) => ReadAnswers(n, log, e, n', from, k, rid);
    case Held(e) => HeldAnswers(n, log, e, n', from, k, rid);
    case Rec(e) => RecFrame(i, n, e, n', out);
  }

  lemma MissGrows(n: Node, log: seq<Store>, n': Node, log': seq<Store>, k: Key)
    requires log <= log' && MissSince(n, log, k) && n'.readers == n.readers
    requires n'.lock == n.lock || !n'.lock.Settling?
    ensures MissSince(n', log', k)
  {
  }

  lemma SettleKeepsMiss(n: Node, k': Key, stored: bool, late: bool, n': Node, log: seq<Store>, k: Key)
    requires SettleStep(n, k', stored, late, n') && HolderInv(n) && AllFetch(n, log) && MissSince(n, log, k)
    ensures MissSince(n', log, k)
  {
    SettleFrame(n, k', stored, late, n');
    assert Fetches(n.readers[n.lock.rid], log);
  }

  lemma StepKeepsMiss(bus: bool, i: nat, n: Node, log: seq<Store>, a: Action, n': Node, log': seq<Store>, out: Out,
                      k: Key)
    requires log != [] && NodeStep(bus, i, n, log, a, n', log', out) && HolderInv(n) && AllFetch(n, log)
    requires MissSince(n, log, k)
    ensures MissSince(n', log', k)
  {
    match a
    case Env(e) => EnvFrame(n, e, n');
    case Sub(e) => SubFrame(i, n, log, e, n');
    case Mut(e) => MutFrame(bus, i, n, log, e, n', log', out); MissGrows(n, log, n', log', k);
    case Read(e) => ReadKeepsMiss(n, log, e, n', k);
    case Held(e) =>
      if e.Settle? {
        SettleKeepsMiss(n, e.key, e.stored, e.late, n', log, k);
      } else if !(e.GatePass? && n.lock.who.EntryCheck?) {
        HeldSubject(n, log, e, n');
      }
    case Rec(e) => RecFrame(i, n, e, n', out);
  }

  lemma ReadKeepsMiss(n: Node, log: seq<Store>, a: ReadAction, n': Node, k: Key)
    requires log != [] && ReadStep(n, log, a, n') && HolderInv(n) && MissSince(n, log, k)
    ensures MissSince(n', log, k)
  {
  }

  // -------------------------------------------------------------------------- whole runs

  /** What instance i keeps in a state of a run. */
  predicate KeptAt(s: System, i: nat, from: nat, k: Key, own: bool)
    requires i < |s.nodes|
  {
    from < |s.log| && Since(s.nodes[i], s.log, from, k, own)
  }

  lemma {:induction false} RunKeepsFetches(states: seq<System>, moves: seq<Move>, x: nat, i: nat)
    requires Run(states, moves) && x < |states| && i < |states[x].nodes|
    ensures AllFetch(states[x].nodes[i], states[x].log)
  {
    if x == 0 {
      assert InitNode(states[0].bus, states[0].nodes[i]);
    } else {
      var s, m, t := states[x - 1], moves[x - 1], states[x];
      assert Next(s, m, t);
      LogGrows(s, m, t);
      RunKeepsFetches(states, moves, x - 1, i);
      DeliverAt(s.nodes[m.who := m.node], m.out, i);
      if i == m.who {
        StepKeepsFetches(s.bus, i, s.nodes[i], s.log, m.action, m.node, m.log, m.out);
      } else {
        FetchesGrow(s.nodes[i], s.log, t.log);
      }
    }
  }

  lemma NextKeepsSince(states: seq<System>, moves: seq<Move>, x: nat, i: nat, from: nat, k: Key, own: bool)
    requires Run(states, moves) && x < |moves| && i < |states[x].nodes| && KeptAt(states[x], i, from, k, own)
    ensures i < |states[x + 1].nodes| && KeptAt(states[x + 1], i, from, k, own)
  {
    var s, m, t := states[x], moves[x], states[x + 1];
    assert Next(s, m, t);
    LogGrows(s, m, t);
    RunKeepsInv(states, moves, x);
    RunKeepsFetches(states, moves, x, i);
    DeliverAt(s.nodes[m.who := m.node], m.out, i);
    if i == m.who {
      StepKeepsSince(s.bus, i, s.nodes[i], s.log, m.action, m.node, m.log, m.out, from, k, own);
      DeliveryKeepsSince(m.node, t.nodes[i], t.log, from, k, own);
    } else {
      SinceGrows(s.nodes[i], s.log, t.log, from, k, own);
      DeliveryKeepsSince(s.nodes[i], t.nodes[i], t.log, from, k, own);
    }
  }

  lemma DeliveryKeepsSince(n: Node, n': Node, log: seq<Store>, from: nat, k: Key, own: bool)
    requires Since(n, log, from, k, own) && n' == n.(link := n'.link)
    ensures Since(n', log, from, k, own)
  {
    forall rid <- n'.readers | !(own && Unbumped(n.lock, k)) ensures ReadSince(n', n'.readers[rid], from) {
      assert ReadSince(n, n.readers[rid], from);
    }
  }

  lemma {:induction false} RunKeepsSince(states: seq<System>, moves: seq<Move>, y: nat, x: nat, i: nat, from: nat,
                                         k: Key, own: bool)
    requires Run(states, moves) && y <= x < |states| && i < |states[y].nodes| && KeptAt(states[y], i, from, k, own)
    ensures i < |states[x].nodes| && KeptAt(states[x], i, from, k, own)
  {
    if y < x {
      RunKeepsSince(states, moves, y, x - 1, i, from, k, own);
      NextKeepsSince(states, moves, x - 1, i, from, k, own);
    }
  }

  /** In such a state, so is what a read would answer. */
  predicate AnswersAt(s: System, i: nat, from: nat, k: Key, rid: nat)
    requires i < |s.nodes|
  {
    KeptAt(s, i, from, k, false) && AnswerSince(s.nodes[i], s.log, from, k, rid)
  }

  lemma NextAnswers(states: seq<System>, moves: seq<Move>, x: nat, i: nat, from: nat, k: Key, rid: nat)
    requires Run(states, moves) && x < |moves| && i < |states[x].nodes| && AnswersAt(states[x], i, from, k, rid)
    ensures i < |states[x + 1].nodes| && AnswersAt(states[x + 1], i, from, k, rid)
  {
    var s, m, t := states[x], moves[x], states[x + 1];
    assert Next(s, m, t);
    LogGrows(s, m, t);
    RunKeepsInv(states, moves, x);
    RunKeepsFetches(states, moves, x, i);
    NextKeepsSince(states, moves, x, i, from, k, false);
    DeliverAt(s.nodes[m.who := m.node], m.out, i);
    if i == m.who {
      StepAnswers(s.bus, i, s.nodes[i], s.log, m.action, m.node, m.log, m.out, from, k, rid);
      AnswerGrows(m.node, t.log, t.nodes[i], t.log, from, k, rid);
    } else {
      AnswerGrows(s.nodes[i], s.log, t.nodes[i], t.log, from, k, rid);
    }
  }

  lemma {:induction false} RunKeepsMiss(states: seq<System>, moves: seq<Move>, x: nat, i: nat, k: Key)
    requires Run(states, moves) && x < |states| && i < |states[x].nodes|
    ensures MissSince(states[x].nodes[i], states[x].log, k)
  {
    if x == 0 {
      assert InitNode(states[0].bus, states[0].nodes[i]);
    } else {
      var s, m, t := states[x - 1], moves[x - 1], states[x];
      assert Next(s, m, t);
      LogGrows(s, m, t);
      RunKeepsMiss(states, moves, x - 1, i, k);
      RunKeepsInv(states, moves, x - 1);
      RunKeepsFetches(states, moves, x - 1, i);
      DeliverAt(s.nodes[m.who := m.node], m.out, i);
      if i == m.who {
        StepKeepsMiss(s.bus, i, s.nodes[i], s.log, m.action, m.node, m.log, m.out, k);
      } else {
        MissGrows(s.nodes[i], s.log, t.nodes[i], t.log, k);
      }
    }
  }

  /** A read has not passed its entry check yet. */
  predicate Outside(n: Node, rid: nat) {
    rid in n.readers ==> n.readers[rid].stage.Entering?
  }

  lemma {:induction false} RunAnswers(states: seq<System>, moves: seq<Move>, y: nat, x: nat, i: nat, from: nat, k: Key,
                                      rid: nat)
    requires Run(states, moves) && y <= x < |states| && i < |states[y].nodes| && KeptAt(states[y], i, from, k, false)
    requires Outside(states[y].nodes[i], rid)
    ensures i < |states[x].nodes| && AnswersAt(states[x], i, from, k, rid)
  {
    if y == x {
      assert AnswerSince(states[y].nodes[i], states[y].log, from, k, rid);
    } else {
      RunAnswers(states, moves, y, x - 1, i, from, k, rid);
      NextAnswers(states, moves, x - 1, i, from, k, rid);
    }
  }

  /** The answer agrees with L2 at or after the position `from`. */
  predicate AnsweredSince(answer: map<Key, Value>, k: Key, log: seq<Store>, from: nat) {
    exists p :: from <= p < |log| && AnswerAt(answer, k, log[p])
  }

  /** From a state on in which all copies of k are that recent, so is every answer of a read that had
      not passed its entry check. */
  lemma ReadsSince(states: seq<System>, moves: seq<Move>, y: nat, x: nat, i: nat, from: nat, k: Key, rid: nat)
    requires Run(states, moves) && y <= x < |moves| && i < |states[y].nodes| && KeptAt(states[y], i, from, k, false)
    requires Outside(states[y].nodes[i], rid)
    requires i < |states[x].nodes| && Returns(states[x].nodes[i], moves[x].action, rid)
    requires moves[x].who == i && k in states[x].nodes[i].readers[rid].keys
    ensures AnsweredSince(states[x].nodes[i].readers[rid].hits, k, states[x].log, from)
  {
    var n, log := states[x].nodes[i], states[x].log;
    var r := n.readers[rid];
    RunAnswers(states, moves, y, x, i, from, k, rid);
    RunKeepsMiss(states, moves, x, i, k);
    RunKeepsInv(states, moves, x);
    assert Next(states[x], moves[x], states[x + 1]);
    AnswerOfReturn(n, log, moves[x].action, from, k, rid);
  }

  lemma AnswerOfReturn(n: Node, log: seq<Store>, a: Action, from: nat, k: Key, rid: nat)
    requires Returns(n, a, rid) && ReadersInv(n) && k in n.readers[rid].keys && from < |log|
    requires Since(n, log, from, k, false) && AnswerSince(n, log, from, k, rid) && MissSince(n, log, k)
    ensures AnsweredSince(n.readers[rid].hits, k, log, from)
  {
    var r := n.readers[rid];
    assert ReadSince(n, r, from);
    if k in r.hits {
      var p :| from <= p < |log| && !Stale(log[p], k, Plain(r.hits[k]));
      assert AnswerAt(r.hits, k, log[p]);
    } else {
      assert AnswerAt(r.hits, k, log[r.at]);
    }
  }

  // ---------------------------------------------------------------------- main results

  /** In the step w, a mutation of instance i changes in L2 what k holds, or finds nothing to change.
      If it is Touch, L1 has no other value for k at that moment. */
  predicate Commits(states: seq<System>, moves: seq<Move>, w: nat, i: nat, k: Key) {
    && w < |moves| && w + 1 < |states| && i < |states[w].nodes| && i < |states[w + 1].nodes|
    && moves[w].who == i && moves[w].action.Mut? && states[w + 1].log != []
    && var n := states[w].nodes[i];
       && n.lock.Calling? && Rewrites(n.lock.op, k)
       && if moves[w].action.mut.MutEffect? then
            n.lock.op.Renew? && k in n.l1 ==> !Wrong(Last(states[w + 1].log), k, n.l1[k])
          else
            moves[w].action.mut.MutBump? && !n.lock.dirty
  }

  lemma CommitIsSince(states: seq<System>, moves: seq<Move>, w: nat, i: nat, k: Key)
    requires Run(states, moves) && Commits(states, moves, w, i, k)
    ensures KeptAt(states[w + 1], i, |states[w + 1].log| - 1, k, true)
  {
    var s, m, t := states[w], moves[w], states[w + 1];
    assert Next(s, m, t);
    DeliverAt(s.nodes[i := m.node], m.out, i);
    var n, log := t.nodes[i], t.log;
    if m.action.mut.MutBump? {
      RunKeepsInv(states, moves, w);
      BumpedReadersSince(s.nodes[i], n, |log| - 1);
    } else {
      if n.lock.op.Put? && k in n.lock.op.values { LastIsRecent(log, |log| - 1, k, n.lock.op.values[k]); }
      if n.lock.op.Renew? && k in n.l1 { LastIsRecent(log, |log| - 1, k, Plain(n.l1[k].value)); }
    }
  }

  /** Once such a mutation has put L1 right (y), every copy of k in L1, and every read that may still
      be warmed, agrees with L2 at or after the moment of its commit, for ever. */
  lemma OwnCopiesAreRecent(states: seq<System>, moves: seq<Move>, w: nat, y: nat, x: nat, i: nat, k: Key)
    requires Run(states, moves) && Commits(states, moves, w, i, k) && w < y <= x < |states|
    requires i < |states[y].nodes| && !Unfixed(states[y].nodes[i].lock, k)
    ensures i < |states[x].nodes| && KeptAt(states[x], i, |states[w + 1].log| - 1, k, false)
  {
    var from := |states[w + 1].log| - 1;
    CommitIsSince(states, moves, w, i, k);
    RunKeepsSince(states, moves, w + 1, y, i, from, k, true);
    assert KeptAt(states[y], i, from, k, false);
    RunKeepsSince(states, moves, y, x, i, from, k, false);
  }

  /** Reading one's own writes: a read that this instance lets in after that (c) answers for k with
      what L2 held at the commit or later.  Other instances, broken connections, recovery and other
      readers do not matter. */
  lemma ReadsOwnWrites(states: seq<System>, moves: seq<Move>, w: nat, y: nat, c: nat, x: nat, i: nat, k: Key, rid: nat)
    requires Run(states, moves) && Commits(states, moves, w, i, k) && w < y <= c <= x < |moves|
    requires i < |states[y].nodes| && !Unfixed(states[y].nodes[i].lock, k)
    requires i < |states[c].nodes| && Outside(states[c].nodes[i], rid)
    requires i < |states[x].nodes| && moves[x].who == i && Returns(states[x].nodes[i], moves[x].action, rid)
    requires k in states[x].nodes[i].readers[rid].keys
    ensures AnsweredSince(states[x].nodes[i].readers[rid].hits, k, states[x].log, |states[w + 1].log| - 1)
  {
    OwnCopiesAreRecent(states, moves, w, y, c, i, k);
    ReadsSince(states, moves, c, x, i, |states[w + 1].log| - 1, k, rid);
  }

  /** In the step w, instance i applies an invalidation of k. */
  predicate Applied(states: seq<System>, moves: seq<Move>, w: nat, i: nat, k: Key) {
    && w < |moves| && w + 1 < |states| && i < |states[w].nodes| && i < |states[w + 1].nodes|
    && moves[w].who == i && moves[w].action == Sub(SubApply) && states[w].nodes[i].subscriber.Holding?
    && Covers(states[w].nodes[i].subscriber.event, i, k)
  }

  lemma AppliedIsSince(states: seq<System>, moves: seq<Move>, w: nat, i: nat, k: Key)
    requires Run(states, moves) && Applied(states, moves, w, i, k)
    ensures KeptAt(states[w + 1], i, |states[w].log| - 1, k, false)
  {
    var s, m, t := states[w], moves[w], states[w + 1];
    assert Next(s, m, t);
    RunKeepsInv(states, moves, w);
    DeliverAt(s.nodes[i := m.node], m.out, i);
    BumpedReadersSince(s.nodes[i], t.nodes[i], |s.log| - 1);
  }

  /** After an invalidation of k has been applied, a read that is let in (c) answers for k with what
      L2 held then or later. */
  lemma ReadsInvalidated(states: seq<System>, moves: seq<Move>, w: nat, c: nat, x: nat, i: nat, k: Key, rid: nat)
    requires Run(states, moves) && Applied(states, moves, w, i, k) && w < c <= x < |moves|
    requires i < |states[c].nodes| && Outside(states[c].nodes[i], rid)
    requires i < |states[x].nodes| && moves[x].who == i && Returns(states[x].nodes[i], moves[x].action, rid)
    requires k in states[x].nodes[i].readers[rid].keys
    ensures AnsweredSince(states[x].nodes[i].readers[rid].hits, k, states[x].log, |states[w].log| - 1)
  {
    AppliedIsSince(states, moves, w, i, k);
    RunKeepsSince(states, moves, w + 1, c, i, |states[w].log| - 1, k, false);
    ReadsSince(states, moves, c, x, i, |states[w].log| - 1, k, rid);
  }

  // ------------------------------------------------------------------------ what Touch keeps

  /** Instance i is about to renew k in L2, which holds another value than its L1. */
  predicate AboutToTouch(s: System, i: nat, k: Key) {
    && s.log != [] && i < |s.nodes| && s.nodes[i].lock == Calling(Renew(k), false)
    && k in Last(s.log) && k in s.nodes[i].l1 && Wrong(Last(s.log), k, s.nodes[i].l1[k])
  }

  lemma Goes(states: seq<System>, moves: seq<Move>, m: Move) returns (states': seq<System>, moves': seq<Move>)
    requires Run(states, moves) && m.out == Quiet
    requires var s := states[|moves|];
             && s.log != [] && m.who < |s.nodes|
             && NodeStep(s.bus, m.who, s.nodes[m.who], s.log, m.action, m.node, m.log, Quiet)
    ensures Run(states', moves') && moves' == moves + [m]
    ensures var s := states[|moves|];
            states' == states + [System(s.bus, m.log, s.nodes[m.who := m.node])]
  {
    var s := states[|moves|];
    var t := System(s.bus, m.log, s.nodes[m.who := m.node]);
    assert Next(s, m, t);
    states', moves' := states + [t], moves + [m];
    forall z | 0 <= z < |moves'| ensures Next(states'[z], moves'[z], states'[z + 1]) {
      if z < |moves| { assert Next(states[z], moves[z], states[z + 1]); }
    }
  }

  /** The last step of Touch on L1, if it keeps the entry. */
  function Touched(n: Node, k: Key): Node
    requires k in n.l1
  {
    n.(version := n.version + 1, lock := Fixing(Renew(k), {}), l1 := n.l1[k := n.l1[k].(mortal := true)])
  }

  lemma TouchSteps(bus: bool, i: nat, n: Node, log: seq<Store>, k: Key)
    requires log != [] && n.lock == Calling(Renew(k), false) && k in n.l1 && k in Last(log)
    ensures var b := Last(log)[k := Last(log)[k].(mortal := true)];
            var called := n.(lock := Calling(Renew(k), true));
            var bumped := n.(version := n.version + 1, lock := Fixing(Renew(k), {k}));
            && MutStep(bus, i, n, log, MutEffect(b), called, log + [b], Quiet)
            && MutStep(bus, i, called, log + [b], MutBump, bumped, log + [b], Quiet)
            && MutStep(bus, i, bumped, log + [b], MutFix(k, true), Touched(n, k), log + [b], Quiet)
  {
    assert {k} - {k} == {};
  }

  /** The condition on Touch is needed: from every state in which it does not hold the run can go on
      so that Touch is through with L1 and has kept a value that L2 has not held since. */
  lemma TouchKeepsOlder(states: seq<System>, moves: seq<Move>, i: nat, k: Key)
      returns (states': seq<System>, moves': seq<Move>)
    requires Run(states, moves) && AboutToTouch(states[|moves|], i, k)
    ensures Run(states', moves') && moves <= moves' && |moves'| == |moves| + 3
    ensures moves'[|moves|].who == i && moves'[|moves|].action.Mut? && moves'[|moves|].action.mut.MutEffect?
    ensures |states'[|moves| + 1].log| == |states[|moves|].log| + 1
    ensures OlderAt(states'[|moves'|], i, |states[|moves|].log|, k)
  {
    var s := states[|moves|];
    var n, b := s.nodes[i], Last(s.log)[k := Last(s.log)[k].(mortal := true)];
    var log := s.log + [b];
    var called := n.(lock := Calling(Renew(k), true));
    var bumped := n.(version := n.version + 1, lock := Fixing(Renew(k), {k}));
    TouchSteps(s.bus, i, n, s.log, k);
    states', moves' := Goes(states, moves, Move(i, Mut(MutEffect(b)), called, log, Quiet));
    states', moves' := Goes(states', moves', Move(i, Mut(MutBump), bumped, log, Quiet));
    states', moves' := Goes(states', moves', Move(i, Mut(MutFix(k, true)), Touched(n, k), log, Quiet));
    assert states'[|moves'|].nodes[i] == Touched(n, k) && states'[|moves'|].log == log;
  }

  /** The instance is through with L1, and its copy of k has a value that L2 has not held since. */
  predicate OlderAt(s: System, i: nat, from: nat, k: Key) {
    && i < |s.nodes| && !Unfixed(s.nodes[i].lock, k) && k in s.nodes[i].l1
    && !Recent(s.log, from, k, s.nodes[i].l1[k]) && !KeptAt(s, i, from, k, false)
  }

  /** And such a state is reachable: a peer has written another value and not announced it yet. */
  lemma TouchMeetsOlder(k: Key, former: Item, latter: Item) returns (states: seq<System>, moves: seq<Move>)
    requires former.value != latter.value
    ensures Run(states, moves) && states[|moves|].bus && |states[|moves|].nodes| == 2
    ensures AboutToTouch(states[|moves|], 1, k)
  {
    var l2, none := map[k := former], map[];
    var peers := Hypotheses.Peers(l2, k);
    var n, peer, put := peers.nodes[0], peers.nodes[1], Put(map[k := latter], false);
    var log := [l2, map[k := latter]];
    Hypotheses.PeerWarms(Clear, none, l2, k);
    assert Hypotheses.At(peers, 0, n, [l2]) == peers;
    Hypotheses.Calls(Clear, none, peers, 0, n, [l2], put);
    var calling := n.(lock := Calling(put, false));
    assert l2 + map[k := latter] == Last(log) && [l2] + [Last(log)] == log;
    var called := n.(lock := Calling(put, true));
    Hypotheses.DoesTo(Clear, none, peers, 0, calling, [l2], Mut(MutEffect(Last(log))), called, log);
    var half := System(true, log, [called, peer]);
    assert Hypotheses.At(peers, 0, called, log) == half == Hypotheses.At(half, 1, peer, log);
    Hypotheses.Calls(Clear, none, half, 1, peer, log, Renew(k));
    var s := Hypotheses.At(half, 1, peer.(lock := Calling(Renew(k), false)), log);
    states :| Hypotheses.Path(Clear, none, states) && states[|states| - 1] == s;
    moves := Hypotheses.PathIsRun(Clear, none, states, |states| - 1);
  }
}
