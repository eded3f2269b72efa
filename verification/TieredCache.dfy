/**
 The lifetimes that TieredCache gives to L1 entries and the lookups it counts.  L1 is the flat TTL
 map that MemoryCache represents, L2 a map with deadlines on the same clock; between two lock
 points everybody else may do anything.
 */
module Tiered {
  import opened Wrappers
  import opened MemoryCaches
  import opened LookupBooks

  datatype TieredError = BadLifetime | ClosedCache | Unavailable

  /** PostCommit carries the result of a mutation that L2 committed and a later step failed. */
  datatype Reply = Done(stored: bool) | Failed(error: TieredError) | PostCommit(stored: bool)

  type Hit = (Value, Option<Time>)

  /** The outcome of one attempt of a read: Overtaken means that the loop goes round again. */
  datatype Read<T> = Answer(value: T) | Refused(error: TieredError) | Overtaken

  // ------------------------------------------------------------------------------ history

  /** What L2 held at a moment, and the mutation version of this instance then. */
  datatype Moment = Moment(time: Time, version: nat, items: map<Key, Item>)

  /** `b` is `a` with some items dropped. */
  ghost predicate Fewer(a: map<Key, Item>, b: map<Key, Item>) {
    forall k <- b :: k in a && b[k] == a[k]
  }

  ghost predicate FewerBut(a: map<Key, Item>, b: map<Key, Item>, keys: set<Key>) {
    forall k <- b :: k !in keys ==> k in a && b[k] == a[k]
  }

  /** A deadline in L1 is at most the one in L2 plus the delay between computing and writing it. */
  predicate DeadlineBound(l1: Option<Time>, l2: Option<Time>, delay: Time) {
    (l1.Some? <==> l2.Some?) && (l1.Some? ==> l1.value <= l2.value + delay)
  }

  /** An answer of L2 for an item it held at some moment: its value and a positive lifetime no
      longer than what was left. */
  ghost predicate Reports(reply: Hit, item: Item, at: Time) {
    && reply.0 == item.value
    && (reply.1.Some? <==> item.expiresAt.Some?)
    && (reply.1.Some? ==> 0 < reply.1.value <= item.expiresAt.value - at)
  }

  /** The keys that an answer gets wrong: live items are to be reported and nothing else. */
  ghost function Misreported(m: Moment, keys: set<Key>, answers: map<Key, Hit>): set<Key> {
    set k <- keys + answers.Keys | !Right(m, keys, answers, k)
  }

  ghost predicate Right(m: Moment, keys: set<Key>, answers: map<Key, Hit>, k: Key) {
    if k in answers then k in keys && k in m.items && Reports(answers[k], m.items[k], m.time)
    else Lookup(m.items, k, m.time).None?
  }

  /** A finished L2 call: when it was made, when and where in the history L2 served it, what L2
      held just before and after, when it came back, which keys were read and what the answer was. */
  datatype Call = Call(asked: Time, prior: nat, served: nat, before: Moment, at: Moment, replied: Time,
                       keys: set<Key>, answers: map<Key, Hit>)

  /** L2 has served the call between question and reply, and answered by what it held. */
  ghost predicate Honest(c: Call) {
    c.asked <= c.at.time <= c.replied && |Misreported(c.at, c.keys, c.answers)| == 0
  }

  lemma HonestAnswer(c: Call, key: Key)
    requires Honest(c) && key in c.answers
    ensures key in c.keys && key in c.at.items && Reports(c.answers[key], c.at.items[key], c.at.time)
  {
    assert key !in Misreported(c.at, c.keys, c.answers);
  }

  /** An entry check: how many looks into L1 had been made by then, the version, and whether the read
      was let in. */
  datatype Check = Check(looks: nat, version: nat, passed: bool)

  /** What is left of an answer after a while, if anything. */
  function Aged(reply: Option<Hit>, elapsed: Time): Option<Hit> {
    if reply.None? || reply.value.1.None? then reply
    else if reply.value.1.value <= elapsed then None
    else Some((reply.value.0, Some(reply.value.1.value - elapsed)))
  }

  /** What is left of the answers of a call at a later reading of the clock. */
  ghost function Left(c: Call, reading: Time): map<Key, Hit> {
    map k | k in c.answers && Aged(Some(c.answers[k]), reading - c.asked).Some?
      :: Aged(Some(c.answers[k]), reading - c.asked).value
  }

  /** If the key is in L1, its deadline is within the bound for the L2 item of the call: it was
      computed from a clock reading after the call had come back, and written later. */
  ghost predicate Timely(l1: map<Key, Item>, written: map<Key, Time>, c: Call, reading: Time, now: Time, key: Key) {
    key in l1 ==>
      && key in c.at.items && key in written && written[key] <= now
      && (l1[key].expiresAt.Some? ==> c.replied <= reading <= written[key])
      && DeadlineBound(l1[key].expiresAt, c.at.items[key].expiresAt, written[key] - reading)
  }

  /** The same for a key that L2 answered for, with the value of the answer. */
  ghost predicate Warmed(l1: map<Key, Item>, written: map<Key, Time>, c: Call, reading: Time, now: Time,
                         results: map<Key, Hit>, key: Key) {
    && Timely(l1, written, c, reading, now, key)
    && (key in l1 ==> key in results && l1[key].value == results[key].0)
  }

  ghost predicate RemoteTimely(l1: map<Key, Item>, written: map<Key, Time>, c: Call, reading: Time, now: Time,
                               fates: map<Key, Fate>, results: map<Key, Hit>) {
    forall k {:trigger Warmed(l1, written, c, reading, now, results, k)} ::
      k in fates && fates[k] == Remote ==> Warmed(l1, written, c, reading, now, results, k)
  }

  /** The same outcome for another question. */
  function Unanswered<S, T>(r: Read<S>): Read<T>
    requires !r.Answer?
  {
    if r.Refused? then Refused(r.error) else Overtaken
  }

  class TieredCache {
    var l1: map<Key, Item>
    var l2: map<Key, Item>
    var clock: Time
    var version: nat
    var closed: bool
    var available: bool
    /** The lookup counters: L1 hits, L2 hits and misses. */
    var lookups: Tally
    var l1Misses: nat
    /** Every state of L2 that the instance could observe; it only grows. */
    ghost var l2Log: seq<Moment>
    /** The latest L2 call. */
    ghost var call: Call
    /** Every look into L1; it only grows. */
    ghost var probes: seq<Look<Key, Hit>>
    /** The latest entry check of a read. */
    ghost var check: Check
    /** The latest reading of the clock by an operation. */
    ghost var reading: Time
    /** When each L1 entry got its deadline. */
    ghost var written: map<Key, Time>

    /** The history is up to date. */
    ghost predicate Valid()
      reads this`l2Log, this`l2, this`clock
    {
      l2Log != [] && l2Log[|l2Log| - 1].items == l2 && l2Log[|l2Log| - 1].time <= clock
    }

    constructor (l2: map<Key, Item>, clock: Time)
      ensures Valid() && lookups == Tally(0, 0, 0) && l1 == map[] && this.l2 == l2 && available && !closed
    {
      this.l2, this.clock := l2, clock;
      l1, version, closed, available := map[], 0, false, true;
      lookups, l1Misses := Tally(0, 0, 0), 0;
      l2Log, probes := [Moment(clock, 0, l2)], [];
      call := Call(clock, 0, 0, Moment(clock, 0, l2), Moment(clock, 0, l2), clock, {}, map[]);
      check, reading, written := Check(0, 0, false), clock, map[];
    }

    /** The key is in L1, if at all, in time for the latest call. */
    ghost predicate InTime(key: Key)
      reads this`l1, this`call, this`written, this`clock, this`reading
    {
      Timely(l1, written, call, reading, clock, key)
    }

    /** The latest call was served by L2 at a moment after the first n of the history. */
    ghost predicate ServedSince(n: nat, since: Time)
      reads this`call, this`l2Log, this`clock
    {
      && n <= call.served < |l2Log| && call.served == call.prior + 1
      && l2Log[call.served] == call.at && l2Log[call.prior] == call.before
      && since <= call.at.time <= call.replied <= clock
    }

    /** Why a read cannot go on under the lock, given the version it took, if any. */
    function Refusal<T>(taken: Option<nat>): (r: Option<Read<T>>)
      reads this`closed, this`available, this`version
      ensures r.None? ==> !closed && available && (taken.Some? ==> taken.value == version)
      ensures r.Some? ==> !r.value.Answer? && (r.value.Refused? ==> Refuses(r.value.error))
      ensures r.Some? && r.value.Overtaken? ==> !closed && taken.Some? && taken.value != version
    {
      if closed then Some(Refused(ClosedCache))
      else if taken.Some? && taken.value != version then Some(Overtaken)
      else if !available then Some(Refused(Unavailable))
      else None
    }

    /** Why a mutation is refused under the lock. */
    function Unready(): Option<TieredError>
      reads this
    {
      if closed then Some(ClosedCache) else if !available then Some(Unavailable) else None
    }

    /** The error of a refused read fits the state in which it gives up. */
    predicate Refuses(error: TieredError)
      reads this`closed, this`available
    {
      if closed then error == ClosedCache else error == Unavailable && !available
    }

    // ---------------------------------------------------------------------- environment

    /** Reads the clock. */
    method Now() returns (t: Time)
      requires Valid()
      modifies this`clock, this`reading
      ensures Valid() && old(clock) <= clock == t == reading
    {
      var elapsed :| 0 <= elapsed;
      clock := clock + elapsed;
      t, reading := clock, clock;
    }

    /** What may happen while the mutation lock is not held. */
    method Interleave()
      requires Valid()
      modifies this`l1, this`l2, this`clock, this`version, this`closed, this`available, this`l2Log, this`written
      ensures Valid() && old(l2Log) <= l2Log && |old(l2Log)| < |l2Log|
      ensures old(clock) <= clock && old(version) <= version
    {
      var elapsed, bumps :| 0 <= elapsed && 0 <= bumps;
      l1, l2, closed, available, written := *, *, *, *, *;
      clock, version := clock + elapsed, version + bumps;
      l2Log := l2Log + [Moment(clock, version, l2)];
    }

    /** What may happen while it is held: other instances write L2, L1 entries disappear, the
        availability changes. */
    method Wait()
      requires Valid()
      modifies this`l1, this`l2, this`clock, this`available, this`l2Log
      ensures Valid() && old(l2Log) <= l2Log && |old(l2Log)| < |l2Log|
      ensures old(clock) <= clock && Fewer(old(l1), l1)
      ensures l2Log[|l2Log| - 1] == Moment(clock, version, l2)
    {
      var elapsed :| 0 <= elapsed;
      var kept: set<Key> := *;
      l2, available := *, *;
      l1 := map k | k in l1 && k in kept :: l1[k];
      clock := clock + elapsed;
      l2Log := l2Log + [Moment(clock, version, l2)];
    }

    /** L2 serves a call: it makes the change that the instance asked for, and the reply travels. */
    method Serve(items: map<Key, Item>, asked: Time)
      requires Valid() && asked <= clock && l2Log[|l2Log| - 1] == Moment(clock, version, l2)
      modifies this`l1, this`l2, this`clock, this`available, this`l2Log, this`call
      ensures Valid() && Fewer(old(l1), l1) && old(l2Log) <= l2Log && old(clock) <= clock
      ensures ServedSince(|old(l2Log)|, old(clock)) && call.asked == asked && call.replied == clock
      ensures call.before.items == old(l2) && call.at == Moment(old(clock), version, items)
    {
      ghost var served, moment, before := |l2Log|, Moment(clock, version, items), l2Log[|l2Log| - 1];
      l2 := items;
      l2Log := l2Log + [moment];
      Wait();
      call := Call(asked, served - 1, served, before, moment, clock, {}, map[]);
    }

    method L1Get(key: Key) returns (hit: Option<Hit>)
      requires Valid()
      modifies this`l1, this`clock, this`probes
      ensures Valid() && old(clock) <= clock && hit == Lookup(old(l1), key, clock)
      ensures l1 == if hit.Some? then old(l1) else old(l1) - {key}
      ensures probes == old(probes) + [Look(key, hit)]
    {
      var elapsed :| 0 <= elapsed;
      clock := clock + elapsed;
      hit := Lookup(l1, key, clock);
      if hit.None? { l1 := l1 - {key}; }
      probes := probes + [Look(key, hit)];
    }

    /** Set, or Forever without a lifetime.  Others may be evicted, and it may fail. */
    method L1Set(key: Key, value: Value, ttl: Option<Time>) returns (stored: bool)
      requires Valid()
      modifies this`l1, this`clock, this`written
      ensures Valid() && old(clock) <= clock && FewerBut(old(l1), l1, {key})
      ensures stored ==> key in l1 && l1[key] == Item(value, Deadline(clock, ttl))
      ensures !stored ==> Fewer(old(l1), l1)
      ensures written == if stored then old(written)[key := clock] else old(written)
    {
      var elapsed :| 0 <= elapsed;
      clock := clock + elapsed;
      var kept: set<Key> := *;
      l1 := map k | k in l1 && k in kept :: l1[k];
      stored := *;
      if stored {
        l1 := l1[key := Item(value, Deadline(clock, ttl))];
        written := written[key := clock];
      }
    }

    // ------------------------------------------------------------------------- mutations

    /** The L2 command of Set, Forever or Add: an error changes nothing, Add may find the key
        taken, and otherwise L2 makes exactly this change. */
    method L2Store(key: Key, value: Value, ttl: Option<Time>, onlyAbsent: bool) returns (stored: Option<bool>)
      requires Valid()
      modifies this`l1, this`l2, this`clock, this`available, this`l2Log, this`call
      ensures Valid() && old(clock) <= clock && Fewer(old(l1), l1) && old(l2Log) <= l2Log
      ensures stored.Some? ==> ServedSince(|old(l2Log)|, old(clock)) && call.replied == clock
      ensures stored == Some(false) ==> onlyAbsent && Lookup(call.at.items, key, call.at.time).Some?
      ensures stored == Some(true) ==>
                && call.at.items == call.before.items[key := Item(value, Deadline(call.at.time, ttl))]
                && (onlyAbsent ==> Lookup(call.before.items, key, call.at.time).None?)
    {
      var asked := clock;
      Wait();
      var fails := *;
      if fails { return None; }
      stored := Some(!onlyAbsent || Lookup(l2, key, clock).None?);
      Serve(if stored.value then l2[key := Item(value, Deadline(clock, ttl))] else l2, asked);
    }

    /** Publishing can fail; then the instance degrades and empties L1. */
    method Publish() returns (ok: bool)
      requires Valid()
      modifies this`l1, this`l2, this`clock, this`available, this`l2Log
      ensures Valid() && old(clock) <= clock && old(l2Log) <= l2Log
      ensures Fewer(old(l1), l1) && (!ok ==> l1 == map[] && !available)
    {
      Wait();
      ok := *;
      if !ok { l1, available := map[], false; }
    }

    /** The local step after a commit: what is left of the lifetime goes to L1, nothing is kept if
        none is left, and a failing store empties L1. */
    method WarmAfterCommit(key: Key, value: Value, deadline: Option<Time>) returns (ok: bool)
      requires Valid()
      modifies this`l1, this`clock, this`reading, this`written
      ensures Valid() && old(clock) <= clock && FewerBut(old(l1), l1, {key})
      ensures key in l1 ==>
                && key in written && written[key] <= clock && l1[key].value == value
                && (deadline.Some? ==> old(clock) <= reading <= written[key])
                && l1[key].expiresAt == if deadline.None? then None else Some(deadline.value + (written[key] - reading))
      ensures !ok ==> l1 == map[]
    {
      var now := clock;
      if deadline.Some? {
        now := Now();
        if deadline.value <= now {
          l1 := l1 - {key};
          return true;
        }
      }
      ok := L1Set(key, value, if deadline.None? then None else Some(deadline.value - now));
      if !ok { l1 := map[]; }
    }

    /** Set, Forever and Add.  A reply that tells of a commit is given exactly when L2 has made the
        change, and then whatever is in L1 under the key came from it, in time. */
    method Store(key: Key, value: Value, ttl: Option<Time>, onlyAbsent: bool) returns (r: Reply)
      requires Valid()
      modifies this`l1, this`l2, this`clock, this`available, this`version
      modifies this`l2Log, this`call, this`reading, this`written
      ensures Valid() && old(l2Log) <= l2Log && old(clock) <= clock
      ensures ttl.Some? && ttl.value <= 0 ==> r == Failed(BadLifetime) && l1 == old(l1)
      ensures !(ttl.Some? && ttl.value <= 0) && closed ==> r == Failed(ClosedCache)
      ensures !(ttl.Some? && ttl.value <= 0) && !closed && !old(available) ==> r == Failed(Unavailable)
      ensures r.Failed? ==> version == old(version) && Fewer(old(l1), l1)
      ensures r == Done(false) ==>
                && version == old(version) && Fewer(old(l1), l1)
                && onlyAbsent && ServedSince(|old(l2Log)|, old(clock)) && Lookup(call.at.items, key, call.at.time).Some?
      ensures r == Done(true) || r == PostCommit(true) ==>
                && version == old(version) + 1 && ServedSince(|old(l2Log)|, old(clock))
                && call.at.items == call.before.items[key := Item(value, Deadline(call.at.time, ttl))]
                && (onlyAbsent ==> Lookup(call.before.items, key, call.at.time).None?)
                && InTime(key) && (key in l1 ==> l1[key].value == value)
                && FewerBut(old(l1), l1, {key})
      ensures r.PostCommit? ==> r.stored && l1 == map[]
    {
      if ttl.Some? && ttl.value <= 0 { return Failed(BadLifetime); }
      if Unready().Some? { return Failed(Unready().value); }
      var started := Now();
      var stored := L2Store(key, value, ttl, onlyAbsent);
      if stored.None? {
        available := false;
        return Failed(Unavailable);
      }
      if !stored.value { return Done(false); }
      var ok := FinishStore(key, value, Deadline(started, ttl));
      r := if ok then Done(true) else PostCommit(true);
    }

    /** What follows the commit of Store: the version, L1 and the publication. */
    method FinishStore(key: Key, value: Value, deadline: Option<Time>) returns (ok: bool)
      requires Valid() && call.replied <= clock && key in call.at.items
      requires DeadlineBound(deadline, call.at.items[key].expiresAt, 0)
      modifies this`l1, this`l2, this`clock, this`available, this`version, this`l2Log, this`reading, this`written
      ensures Valid() && old(l2Log) <= l2Log && old(clock) <= clock && version == old(version) + 1
      ensures InTime(key) && (key in l1 ==> l1[key].value == value) && FewerBut(old(l1), l1, {key})
      ensures !ok ==> l1 == map[]
    {
      version := version + 1;
      var warmed := WarmAfterCommit(key, value, deadline);
      var published := Publish();
      ok := warmed && published;
    }

    /** The local step of Touch: a new lifetime for an entry that is there, or none. */
    method L1Touch(key: Key, ttl: Time) returns (touched: bool)
      requires Valid()
      modifies this`l1, this`clock, this`written
      ensures Valid() && old(clock) <= clock && touched == Lookup(old(l1), key, clock).Some?
      ensures l1 == Touched(old(l1), key, ttl, clock)
      ensures written == if touched then old(written)[key := clock] else old(written)
    {
      var elapsed :| 0 <= elapsed;
      clock := clock + elapsed;
      touched := Lookup(l1, key, clock).Some?;
      l1 := Touched(l1, key, ttl, clock);
      if touched { written := written[key := clock]; }
    }

    /** Renews the lifetime in L2, if the key is there. */
    method L2Touch(key: Key, ttl: Time) returns (touched: Option<bool>)
      requires Valid()
      modifies this`l1, this`l2, this`clock, this`available, this`l2Log, this`call
      ensures Valid() && old(clock) <= clock && Fewer(old(l1), l1) && old(l2Log) <= l2Log
      ensures touched.Some? ==>
                && ServedSince(|old(l2Log)|, old(clock)) && call.replied == clock
                && call.at.items == Touched(call.before.items, key, ttl, call.at.time)
                && touched.value == Lookup(call.before.items, key, call.at.time).Some?
    {
      var asked := clock;
      Wait();
      var fails := *;
      if fails { return None; }
      touched := Some(Lookup(l2, key, clock).Some?);
      Serve(Touched(l2, key, ttl, clock), asked);
    }

    /** Touch.  An entry that is in L1 afterwards has its lifetime from the renewed L2 item; when L2
        does not know the key L1 does not keep it either. */
    method Touch(key: Key, ttl: Time) returns (r: Reply)
      requires Valid()
      modifies this`l1, this`l2, this`clock, this`available, this`version
      modifies this`l2Log, this`call, this`reading, this`written, this`probes
      ensures Valid() && old(l2Log) <= l2Log && old(clock) <= clock
      ensures ttl <= 0 ==> r == Failed(BadLifetime) && l1 == old(l1)
      ensures ttl > 0 && closed ==> r == Failed(ClosedCache)
      ensures ttl > 0 && !closed && !old(available) ==> r == Failed(Unavailable)
      ensures r.Failed? ==> version == old(version) && Fewer(old(l1), l1)
      ensures !r.Failed? ==>
                && version == old(version) + 1 && ServedSince(|old(l2Log)|, old(clock))
                && call.at.items == Touched(call.before.items, key, ttl, call.at.time)
                && FewerBut(old(l1), l1, {key})
                && (if Lookup(call.before.items, key, call.at.time).Some? then r.stored && InTime(key) else key !in l1)
                && (key in l1 ==> key in old(l1) && l1[key].value == old(l1)[key].value)
      ensures r.PostCommit? ==> l1 == map[]
    {
      if ttl <= 0 { return Failed(BadLifetime); }
      if Unready().Some? { return Failed(Unready().value); }
      var started := Now();
      var l2Touched := L2Touch(key, ttl);
      if l2Touched.None? {
        l1, available := map[], false;
        return Failed(Unavailable);
      }
      var ok, any := FinishTouch(key, started + ttl, l2Touched.value);
      r := if ok then Done(any) else PostCommit(any);
    }

    /** What follows the L2 command of Touch. */
    method FinishTouch(key: Key, deadline: Time, l2Touched: bool) returns (ok: bool, any: bool)
      requires Valid() && call.replied <= clock
      requires l2Touched ==> key in call.at.items && DeadlineBound(Some(deadline), call.at.items[key].expiresAt, 0)
      modifies this`l1, this`l2, this`clock, this`available, this`version
      modifies this`l2Log, this`reading, this`written, this`probes
      ensures Valid() && old(l2Log) <= l2Log && old(clock) <= clock && version == old(version) + 1
      ensures FewerBut(old(l1), l1, {key}) && (key in l1 ==> key in old(l1) && l1[key].value == old(l1)[key].value)
      ensures if l2Touched then any && InTime(key) else key !in l1
      ensures !ok ==> l1 == map[]
    {
      version := version + 1;
      any := true;
      if l2Touched {
        var now := Now();
        if deadline - now > 0 {
          var _ := L1Touch(key, deadline - now);
        } else {
          l1 := l1 - {key};
        }
      } else {
        var hit := L1Get(key);
        any, l1 := hit.Some?, l1 - {key};
      }
      ok := Publish();
    }

    /** A whole batch with one lifetime. */
    function Batch(values: map<Key, Value>, deadline: Time): map<Key, Item> {
      map k | k in values :: Item(values[k], Some(deadline))
    }

    /** One transaction in L2: the whole batch, or an error and nothing. */
    method L2SetMany(values: map<Key, Value>, ttl: Time) returns (stored: bool)
      requires Valid()
      modifies this`l1, this`l2, this`clock, this`available, this`l2Log, this`call
      ensures Valid() && old(clock) <= clock && Fewer(old(l1), l1) && old(l2Log) <= l2Log
      ensures stored ==>
                && ServedSince(|old(l2Log)|, old(clock)) && call.replied == clock
                && call.at.items == call.before.items + Batch(values, call.at.time + ttl)
    {
      var asked := clock;
      Wait();
      stored := *;
      if stored { Serve(l2 + Batch(values, clock + ttl), asked); }
    }

    /** Of these keys L1 holds only values of the batch, each written later than the deadline was
        computed and by as much too late. */
    ghost predicate WarmAt(values: map<Key, Value>, keys: set<Key>, deadline: Time)
      requires keys <= values.Keys
      reads this`l1, this`written, this`clock, this`reading
    {
      forall k <- keys :: k in l1 ==>
        && l1[k].value == values[k] && k in written && reading <= written[k] <= clock
        && l1[k].expiresAt == Some(deadline + (written[k] - reading))
    }

    /** Writes a committed batch to L1, or drops its keys if no lifetime is left. */
    method WarmMany(values: map<Key, Value>, deadline: Time) returns (ok: bool)
      requires Valid()
      modifies this`l1, this`clock, this`reading, this`written
      ensures Valid() && old(clock) <= reading <= clock && FewerBut(old(l1), l1, values.Keys)
      ensures WarmAt(values, values.Keys, deadline)
      ensures !ok ==> l1 == map[]
    {
      var now := Now();
      ok := true;
      if deadline <= now {
        l1 := l1 - values.Keys;
        return;
      }
      ghost var before := l1;
      var todo := values.Keys;
      while todo != {}
        invariant Valid() && todo <= values.Keys && now == reading <= clock && FewerBut(before, l1, values.Keys)
        invariant ok ==> WarmAt(values, values.Keys - todo, deadline)
        decreases todo
      {
        var key :| key in todo;
        var stored := L1Set(key, values[key], Some(deadline - now));
        ok := ok && stored;
        todo := todo - {key};
      }
      if !ok { l1 := map[]; }
    }

    /** SetMany: one commit for the whole batch, and whatever of it is in L1 afterwards came from
        that commit, in time. */
    method SetMany(values: map<Key, Value>, ttl: Time) returns (r: Reply)
      requires Valid()
      modifies this`l1, this`l2, this`clock, this`available, this`version
      modifies this`l2Log, this`call, this`reading, this`written
      ensures Valid() && old(l2Log) <= l2Log && old(clock) <= clock
      ensures ttl <= 0 ==> r == Failed(BadLifetime) && l1 == old(l1)
      ensures ttl > 0 && values == map[] ==> r == Done(false) && l1 == old(l1)
      ensures ttl > 0 && values != map[] && closed ==> r == Failed(ClosedCache)
      ensures ttl > 0 && values != map[] && !closed && !old(available) ==> r == Failed(Unavailable)
      ensures r == Done(true) || r == PostCommit(true) ==>
                && version == old(version) + 1 && ServedSince(|old(l2Log)|, old(clock))
                && call.at.items == call.before.items + Batch(values, call.at.time + ttl)
                && AllInTime(values) && FewerBut(old(l1), l1, values.Keys)
      ensures r.Failed? || r == Done(false) ==> version == old(version) && Fewer(old(l1), l1)
      ensures r.PostCommit? ==> r.stored && l1 == map[]
    {
      if ttl <= 0 { return Failed(BadLifetime); }
      if values == map[] { return Done(false); }
      if Unready().Some? { return Failed(Unready().value); }
      r := CommitMany(values, ttl);
    }

    /** SetMany once it has been let in. */
    method CommitMany(values: map<Key, Value>, ttl: Time) returns (r: Reply)
      requires Valid()
      modifies this`l1, this`l2, this`clock, this`available, this`version
      modifies this`l2Log, this`call, this`reading, this`written
      ensures Valid() && old(l2Log) <= l2Log && old(clock) <= clock
      ensures !r.Failed? ==>
                && r.stored && version == old(version) + 1 && ServedSince(|old(l2Log)|, old(clock))
                && call.at.items == call.before.items + Batch(values, call.at.time + ttl)
                && AllInTime(values) && FewerBut(old(l1), l1, values.Keys)
      ensures r.Failed? ==> r == Failed(Unavailable) && version == old(version) && Fewer(old(l1), l1)
      ensures r.PostCommit? ==> l1 == map[]
    {
      var started := Now();
      var stored := L2SetMany(values, ttl);
      if !stored {
        available := false;
        return Failed(Unavailable);
      }
      var ok := FinishSetMany(values, started + ttl);
      r := if ok then Done(true) else PostCommit(true);
    }

    /** Every key of the batch that is in L1 has its value and is in time. */
    ghost predicate AllInTime(values: map<Key, Value>)
      reads this`l1, this`call, this`written, this`clock, this`reading
    {
      forall k <- values :: Timely(l1, written, call, reading, clock, k) && (k in l1 ==> l1[k].value == values[k])
    }

    /** What follows the commit of SetMany. */
    method FinishSetMany(values: map<Key, Value>, deadline: Time) returns (ok: bool)
      requires Valid() && call.replied <= clock && values.Keys <= call.at.items.Keys
      requires forall k <- values :: DeadlineBound(Some(deadline), call.at.items[k].expiresAt, 0)
      modifies this`l1, this`l2, this`clock, this`available, this`version, this`l2Log, this`reading, this`written
      ensures Valid() && old(l2Log) <= l2Log && old(clock) <= clock && version == old(version) + 1
      ensures AllInTime(values) && FewerBut(old(l1), l1, values.Keys)
      ensures !ok ==> l1 == map[]
    {
      version := version + 1;
      var warmed := WarmMany(values, deadline);
      var published := PublishAll(values.Keys);
      ok := warmed && published;
    }

    method PublishAll(keys: set<Key>) returns (ok: bool)
      requires Valid()
      modifies this`l1, this`l2, this`clock, this`available, this`l2Log
      ensures Valid() && old(clock) <= clock && old(l2Log) <= l2Log
      ensures Fewer(old(l1), l1) && (!ok ==> l1 == map[] && !available)
    {
      var todo := keys;
      ok := true;
      ghost var before, log, now := l1, l2Log, clock;
      while todo != {} && ok
        invariant Valid() && now <= clock && log <= l2Log && Fewer(before, l1) && (!ok ==> l1 == map[] && !available)
        decreases todo
      {
        var key :| key in todo;
        ok := Publish();
        todo := todo - {key};
      }
    }

    // ----------------------------------------------------------------------------- reads

    /** The latest L2 call was a read within this operation, and no mutation has bumped the version
        since L2 served it. */
    ghost predicate Consulted(n: nat, since: Time)
      reads this`call, this`l2Log, this`clock, this`version
    {
      ServedSince(n, since) && since <= call.asked && Honest(call) && call.at.version == version
    }

    /** L2 answers for all the keys as it holds them at one moment; lifetimes may be rounded down. */
    method L2Read(keys: set<Key>) returns (reply: Option<map<Key, Hit>>)
      requires Valid()
      modifies this`l1, this`l2, this`clock, this`version, this`closed, this`available
      modifies this`l2Log, this`call, this`written
      ensures Valid() && old(clock) <= clock && old(version) <= version && old(l2Log) <= l2Log
      ensures reply.Some? ==>
                && reply.value == call.answers && call.asked == old(clock) && call.replied == clock
                && ServedSince(|old(l2Log)|, old(clock)) && Honest(call) && call.keys == keys
                && old(version) <= call.at.version <= version
    {
      var asked := clock;
      Interleave();
      var fails := *;
      if fails { return None; }
      var found := Collect(keys);
      ghost var served, moment, before := |l2Log|, Moment(clock, version, l2), l2Log[|l2Log| - 1];
      l2Log := l2Log + [moment];
      Interleave();
      call := Call(asked, served - 1, served, before, moment, clock, keys, found);
      reply := Some(found);
    }

    method Collect(keys: set<Key>) returns (found: map<Key, Hit>)
      ensures Misreported(Moment(clock, version, l2), keys, found) == {}
    {
      found := map[];
      var todo := keys;
      while todo != {}
        invariant todo <= keys && found.Keys <= keys - todo
        invariant forall k <- found :: k in l2 && Reports(found[k], l2[k], clock)
        invariant forall k <- keys - todo :: k !in found ==> Lookup(l2, k, clock).None?
        decreases todo
      {
        var key :| key in todo;
        var hit := Lookup(l2, key, clock);
        if hit.Some? {
          var ttl := hit.value.1;
          if ttl.Some? {
            var rounded :| 0 < rounded <= ttl.value;
            ttl := Some(rounded);
          }
          found := found[key := (hit.value.0, ttl)];
        }
        todo := todo - {key};
      }
    }

    /** One missed key under the lock: L1 wins if it has an entry by now, otherwise what is left of
        the answer goes to L1, in time. */
    method Resolve(key: Key, aged: Option<Hit>) returns (hit: Option<Hit>, fate: Fate)
      requires Valid()
      modifies this`l1, this`clock, this`probes, this`written
      ensures Valid() && old(clock) <= clock && FewerBut(old(l1), l1, {key})
      ensures forall k :: k != key ==> (k in written <==> k in old(written))
                                        && (k in written ==> written[k] == old(written)[k])
      ensures |probes| == |old(probes)| + 1 && old(probes) <= probes && probes[|old(probes)|].key == key
      ensures fate == FateOf(probes[|old(probes)|].hit, aged)
      ensures hit == if fate == Local then probes[|old(probes)|].hit else aged
      ensures fate == Remote && key in l1 ==>
                && l1[key].value == aged.value.0 && key in written && old(clock) <= written[key] <= clock
                && l1[key].expiresAt == Deadline(written[key], aged.value.1)
    {
      hit := L1Get(key);
      fate := FateOf(hit, aged);
      if fate != Local { hit := aged; }
      if fate == Remote { var _ := L1Set(key, aged.value.0, aged.value.1); }
    }

    /** The last part of Get, under the lock. */
    method FinishGet(key: Key, reply: Option<Hit>, started: Time) returns (hit: Option<Hit>)
      requires Valid() && started == call.asked && reply == LookupBooks.Find(call.answers, key)
      requires Honest(call) && call.replied <= clock
      modifies this`l1, this`clock, this`reading, this`written, this`probes
      modifies this`lookups, this`l1Misses
      ensures Valid() && old(clock) <= clock && |probes| == |old(probes)| + 1 && old(probes) <= probes
      ensures var p := probes[|old(probes)|];
              var aged := Aged(LookupBooks.Find(call.answers, key), reading - call.asked);
              && p.key == key && hit == (if p.hit.Some? then p.hit else aged)
              && lookups == old(lookups).Plus(FateOf(p.hit, aged), 1)
              && (FateOf(p.hit, aged) == Remote ==> InTime(key) && (key in l1 ==> l1[key].value == hit.value.0))
      ensures l1Misses == old(l1Misses) + 1
    {
      var aged := reply;
      if reply.Some? { HonestAnswer(call, key); }
      if reply.Some? && reply.value.1.Some? {
        var now := Now();
        aged := Aged(reply, now - started);
      }
      var fate;
      hit, fate := Resolve(key, aged);
      l1Misses := l1Misses + 1;
      lookups := lookups.Plus(fate, 1);
    }

    /** An answer is given only if the read was let in before its first look into L1, the n-th, and
        again at the end. */
    ghost predicate LetIn(n: nat)
      reads this`check, this`closed, this`available
    {
      check.looks == n && check.passed && !closed && available
    }

    /** The books of an answer of Get: one look into L1 that hit, or a second look after L2 has been
        consulted, and then the answer is what L1 has by now or what is left of the answer of L2,
        which is in L1 in time. */
    ghost predicate GetExplained(key: Key, hit: Option<Hit>, n: nat, log: nat, since: Time,
                                 before: Tally, l1Before: nat)
      reads this
    {
      && LetIn(n) && n < |probes| && probes[n].key == key
      && if probes[n].hit.Some? then
           |probes| == n + 1 && hit == probes[n].hit && lookups == before.Plus(Local, 1) && l1Misses == l1Before
         else
           && |probes| == n + 2 && probes[n + 1].key == key && Consulted(log, since) && call.keys == {key}
           && Settles(key, hit, probes[n + 1].hit, before) && l1Misses == l1Before + 1
    }

    /** A missed key ends as L1 and what is left of the answer of L2 decide. */
    ghost predicate Settles(key: Key, hit: Option<Hit>, local: Option<Hit>, before: Tally)
      reads this
    {
      var aged := Aged(LookupBooks.Find(call.answers, key), reading - call.asked);
      && hit == (if local.Some? then local else aged)
      && lookups == before.Plus(FateOf(local, aged), 1)
      && (FateOf(local, aged) == Remote ==> InTime(key) && (key in l1 ==> l1[key].value == hit.value.0))
    }

    /** One attempt of Get.  An answer is explained by what L1 and L2 said and adds one to exactly
        one of the three lookup counters; any other outcome adds nothing and has its reason. */
    method TryGet(key: Key) returns (r: Read<Option<Hit>>)
      requires Valid()
      modifies this
      ensures Valid() && old(clock) <= clock && old(l2Log) <= l2Log && old(probes) <= probes
      ensures r.Answer? ==>
                GetExplained(key, r.value, |old(probes)|, |old(l2Log)|, old(clock), old(lookups), old(l1Misses))
      ensures !r.Answer? ==> lookups == old(lookups) && l1Misses == old(l1Misses)
      ensures r.Refused? ==> Refuses(r.error)
      ensures r.Overtaken? ==> !closed && check.passed && check.version < version
    {
      ghost var n, log, since, before, l1Before := |probes|, |l2Log|, clock, lookups, l1Misses;
      Interleave();
      var refusal := Refusal<Option<Hit>>(None);
      check := Check(|probes|, version, refusal.None?);
      if refusal.Some? { return refusal.value; }
      Interleave();
      var hit := L1Get(key);
      Interleave();
      if hit.None? {
        r := AskForOne(key, n, log, since, before, l1Before);
        return;
      }
      refusal := Refusal<Option<Hit>>(None);
      if refusal.Some? { return refusal.value; }
      lookups := lookups.Plus(Local, 1);
      r := Answer(hit);
    }

    /** The part of Get that asks L2 and takes the lock again. */
    method AskForOne(key: Key, ghost n: nat, ghost log: nat, ghost since: Time, ghost before: Tally,
                     ghost l1Before: nat)
      returns (r: Read<Option<Hit>>)
      requires Valid() && |probes| == n + 1 && log <= |l2Log| && since <= clock
      requires lookups == before && l1Misses == l1Before
      modifies this`l1, this`l2, this`clock, this`version, this`closed, this`available
      modifies this`l2Log, this`call, this`written, this`reading, this`probes, this`lookups, this`l1Misses
      ensures Valid() && old(clock) <= clock && old(l2Log) <= l2Log && old(probes) <= probes
      ensures r.Answer? ==>
                && |probes| == n + 2 && probes[n + 1].key == key
                && Consulted(log, since) && call.keys == {key}
                && Settles(key, r.value, probes[n + 1].hit, before) && l1Misses == l1Before + 1
                && !closed && available
      ensures !r.Answer? ==> lookups == before && l1Misses == l1Before
      ensures r.Refused? ==> Refuses(r.error)
      ensures r.Overtaken? ==> !closed && old(version) < version
    {
      var taken := version;
      var started := Now();
      var reply := L2Read({key});
      Interleave();
      var refusal := Refusal<Option<Hit>>(Some(taken));
      if refusal.Some? { return refusal.value; }
      if reply.None? {
        l1, available := map[], false;
        return Refused(Unavailable);
      }
      var hit := FinishGet(key, LookupBooks.Find(reply.value, key), started);
      r := Answer(hit);
    }

    /** Get, as far as `patience` attempts: it counts one lookup if it answers and none if it fails
        or is still being overtaken, however often it went round. */
    method Get(key: Key, patience: nat) returns (r: Read<Option<Hit>>)
      requires Valid()
      modifies this
      ensures Valid() && lookups.Total() == old(lookups).Total() + if r.Answer? then 1 else 0
      ensures !r.Answer? ==> lookups == old(lookups) && l1Misses == old(l1Misses)
      ensures r.Refused? ==> Refuses(r.error)
      ensures r.Answer? ==>
                exists n, log, since ::
                  && |old(probes)| <= n && |old(l2Log)| <= log && old(clock) <= since
                  && GetExplained(key, r.value, n, log, since, old(lookups), old(l1Misses))
    {
      r := Overtaken;
      var attempts := 0;
      ghost var before, l1Before, looks, log, now := lookups, l1Misses, |probes|, |l2Log|, clock;
      while attempts < patience && r.Overtaken?
        invariant Valid() && looks <= |probes| && log <= |l2Log| && now <= clock
        invariant !r.Answer? ==> lookups == before && l1Misses == l1Before
        invariant r.Refused? ==> Refuses(r.error)
        invariant r.Answer? ==>
                    exists n, l, since ::
                      && looks <= n && log <= l && now <= since
                      && GetExplained(key, r.value, n, l, since, before, l1Before)
      {
        ghost var n, l, since := |probes|, |l2Log|, clock;
        r := TryGet(key);
        assert r.Answer? ==> GetExplained(key, r.value, n, l, since, before, l1Before);
        attempts := attempts + 1;
      }
    }

    /** The first pass of GetMany, without the lock: a look into L1 for every occurrence of a key. */
    method FirstPass(keys: seq<Key>)
      returns (results: map<Key, Hit>, missed: seq<Key>, missCounts: map<Key, nat>, hits: nat,
               ghost p: seq<Look<Key, Hit>>)
      requires Valid()
      modifies this`l1, this`l2, this`clock, this`version, this`closed, this`available
      modifies this`l2Log, this`written, this`probes
      ensures Valid() && old(clock) <= clock && old(version) <= version && old(l2Log) <= l2Log
      ensures probes == old(probes) + p && |p| == |keys|
      ensures Opened(keys, p, results) == Some(Books(hits, missed, missCounts))
    {
      results, missed, missCounts, hits, p := map[], [], map[], 0, [];
      ghost var looks, log, now, v := probes, l2Log, clock, version;
      OpeningStart<Key, Hit>(keys);
      var i := 0;
      while i < |keys|
        invariant i == |p| <= |keys| && Valid() && now <= clock && v <= version && log <= l2Log
        invariant probes == looks + p
        invariant Opened(keys, p, results) == Some(Books(hits, missed, missCounts))
      {
        var key := keys[i];
        Interleave();
        var hit := L1Get(key);
        OneLater(looks, p, Look(key, hit));
        OpeningOneMore(keys, p, results, Books(hits, missed, missCounts), Look(key, hit));
        p, i := p + [Look(key, hit)], i + 1;
        if hit.Some? {
          hits := hits + 1;
          results := results[key := hit.value];
          continue;
        }
        if key in missCounts {
          missCounts := missCounts[key := missCounts[key] + 1];
        } else {
          missCounts := missCounts[key := 1];
          missed := missed + [key];
        }
      }
    }

    /** Every key that L2 answered for is in L1, if at all, with that value and in time. */
    ghost predicate RemoteInTime(fates: map<Key, Fate>, results: map<Key, Hit>)
      reads this`l1, this`call, this`written, this`clock, this`reading
    {
      RemoteTimely(l1, written, call, reading, clock, fates, results)
    }

    /** The last pass of GetMany, under the lock: a second look into L1 for every missed key. */
    method LastPass(missed: seq<Key>, missCounts: map<Key, nat>, reply: map<Key, Hit>,
                    elapsed: Time, first: map<Key, Hit>)
      returns (results: map<Key, Hit>, tally: Tally, ghost fates: map<Key, Fate>, ghost q: seq<Look<Key, Hit>>)
      requires Valid() && MissList(missed, missCounts) && Honest(call) && reply == call.answers
      requires elapsed == reading - call.asked && call.replied <= reading <= clock
      modifies this`l1, this`clock, this`written, this`probes
      ensures Valid() && old(clock) <= clock && probes == old(probes) + q && |q| == |missed|
      ensures Tallied(missed, missCounts, q, Left(call, reading), fates, first, results) == Some(tally)
      ensures RemoteInTime(fates, results)
    {
      results, tally, fates, q := first, Tally(0, 0, 0), map[], [];
      ghost var looks, now, remote := probes, clock, Left(call, reading);
      HalfwayStart(missed, missCounts, remote, first);
      var i := 0;
      while i < |missed|
        invariant i == |q| <= |missed| && Valid() && now <= clock && probes == looks + q
        invariant Tallied(missed, missCounts, q, remote, fates, first, results) == Some(tally)
        invariant RemoteInTime(fates, results)
      {
        ghost var look := Look(missed[i], None);
        results, tally, fates, look := PassOn(missed, missCounts, i, reply, elapsed, first, results, tally, fates, q);
        OneLater(looks, q, look);
        q, i := q + [look], i + 1;
      }
    }

    /** One turn of the last pass. */
    method PassOn(missed: seq<Key>, missCounts: map<Key, nat>, i: nat, reply: map<Key, Hit>,
                  elapsed: Time, ghost first: map<Key, Hit>,
                  former: map<Key, Hit>, before: Tally, ghost settled: map<Key, Fate>, ghost q: seq<Look<Key, Hit>>)
      returns (results: map<Key, Hit>, tally: Tally, ghost fates: map<Key, Fate>, ghost look: Look<Key, Hit>)
      requires Valid() && MissList(missed, missCounts) && Honest(call) && reply == call.answers && i == |q| < |missed|
      requires elapsed == reading - call.asked && call.replied <= reading <= clock
      requires Tallied(missed, missCounts, q, Left(call, reading), settled, first, former) == Some(before)
      requires RemoteInTime(settled, former)
      modifies this`l1, this`clock, this`written, this`probes
      ensures Valid() && old(clock) <= clock && probes == old(probes) + [look]
      ensures Tallied(missed, missCounts, q + [look], Left(call, reading), fates, first, results) == Some(tally)
      ensures RemoteInTime(fates, results)
    {
      var fate;
      results, fate, look := ResolveNext(missed[i], reply, elapsed, settled, former);
      HalfwayOneMore(missed, missCounts, q, Left(call, reading), settled, first, former, before, look);
      tally, fates := before.Plus(fate, missCounts[missed[i]]), settled[missed[i] := fate];
    }

    /** The second look at one key. */
    method ResolveNext(key: Key, reply: map<Key, Hit>, elapsed: Time,
                       ghost fates: map<Key, Fate>, former: map<Key, Hit>)
      returns (results: map<Key, Hit>, fate: Fate, ghost look: Look<Key, Hit>)
      requires Valid() && Honest(call) && reply == call.answers && key !in fates
      requires elapsed == reading - call.asked && call.replied <= reading <= clock
      requires RemoteInTime(fates, former)
      modifies this`l1, this`clock, this`written, this`probes
      ensures Valid() && old(clock) <= clock && probes == old(probes) + [look] && look.key == key
      ensures fate == LookupBooks.FateOf(look.hit, LookupBooks.Find(Left(call, reading), key))
      ensures results == With(former, key,
                                 if look.hit.Some? then look.hit else LookupBooks.Find(Left(call, reading), key))
      ensures RemoteInTime(fates[key := fate], results)
    {
      ghost var l1Before, writtenBefore, before := l1, written, clock;
      if key in reply { HonestAnswer(call, key); }
      var hit;
      hit, fate := Resolve(key, Aged(LookupBooks.Find(reply, key), elapsed));
      look := probes[|probes| - 1];
      results := With(former, key, hit);
      forall k | k in fates && fates[k] == Remote ensures Warmed(l1, written, call, reading, clock, results, k) {
        assert Warmed(l1Before, writtenBefore, call, reading, before, former, k);
      }
    }

    /** Looks, answers of L2 and results explain each other, the lookup counters have grown by what
        every given occurrence deserves, and what came from L2 is in L1 in time. */
    ghost predicate Balanced(keys: seq<Key>, results: map<Key, Hit>, n: nat,
                             before: Tally, l1Before: nat, fates: map<Key, Fate>)
      reads this
    {
      && n <= |probes| && RemoteInTime(fates, results)
      && var dues := Dues(keys, probes[n..], Left(call, reading), fates, results);
         dues.Some? && Grew(before, lookups, dues.value.0) && l1Misses == l1Before + dues.value.1
    }

    /** The books of an answer of GetMany, given at the version of its entry check.  If no look into L1
        missed, that is all; otherwise L2 has been consulted for exactly the missed keys. */
    ghost predicate ManyExplained(keys: seq<Key>, results: map<Key, Hit>, n: nat, log: nat, since: Time,
                                  before: Tally, l1Before: nat, fates: map<Key, Fate>)
      reads this
    {
      && LetIn(n) && check.version == version && Balanced(keys, results, n, before, l1Before, fates)
      && (fates == map[] || (Consulted(log, since) && call.keys == fates.Keys && call.replied <= reading))
    }

    /** The last pass with its books. */
    method CloseBooks(keys: seq<Key>, first: map<Key, Hit>, missed: seq<Key>, missCounts: map<Key, nat>, hits: nat,
                      reply: map<Key, Hit>, elapsed: Time, ghost p: seq<Look<Key, Hit>>,
                      ghost looks: seq<Look<Key, Hit>>)
      returns (results: map<Key, Hit>, tally: Tally, missing: nat, ghost fates: map<Key, Fate>)
      requires Valid() && Honest(call) && reply == call.answers
      requires elapsed == reading - call.asked && call.replied <= reading <= clock
      requires |p| == |keys| && Opened(keys, p, first) == Some(Books(hits, missed, missCounts)) && probes == looks + p
      modifies this`l1, this`clock, this`written, this`probes
      ensures Valid() && old(clock) <= clock && looks <= probes
      ensures fates.Keys == missCounts.Keys && RemoteInTime(fates, results)
      ensures Owes(keys, probes[|looks|..], Left(call, reading), fates, results, tally.Plus(Local, hits), missing)
    {
      ghost var b, remote, q := Books(hits, missed, missCounts), Left(call, reading), [];
      OpenedList(keys, p, first, b);
      results, tally, fates, q := LastPass(missed, missCounts, reply, elapsed, first);
      ConcludesLater(keys, looks, p, q, b, remote, fates, first, results, tally,
                     tally.Plus(Local, hits), |keys| - hits);
      missing := |keys| - hits;
    }

    /** The end of GetMany, under the lock: the last pass, and only now the lookups are counted. */
    method FinishGetMany(keys: seq<Key>, first: map<Key, Hit>, missed: seq<Key>, missCounts: map<Key, nat>, hits: nat,
                         reply: map<Key, Hit>, elapsed: Time, ghost p: seq<Look<Key, Hit>>,
                         ghost looks: seq<Look<Key, Hit>>, ghost log: nat, ghost since: Time,
                         ghost before: Tally, ghost l1Before: nat)
      returns (results: map<Key, Hit>, ghost fates: map<Key, Fate>)
      requires Valid() && Consulted(log, since) && call.keys == missCounts.Keys && reply == call.answers
      requires lookups == before && l1Misses == l1Before
      requires elapsed == reading - call.asked && call.replied <= reading <= clock
      requires |p| == |keys| && Opened(keys, p, first) == Some(Books(hits, missed, missCounts)) && probes == looks + p
      modifies this`l1, this`clock, this`written, this`probes, this`lookups, this`l1Misses
      ensures Valid() && old(clock) <= clock && looks <= probes && Consulted(log, since) && call.keys == fates.Keys
      ensures Balanced(keys, results, |looks|, before, l1Before, fates)
    {
      var tally, initialMisses;
      results, tally, initialMisses, fates := CloseBooks(keys, first, missed, missCounts,
        hits, reply, elapsed, p, looks);
      lookups := lookups.Add(tally.Plus(Local, hits));
      l1Misses := l1Misses + initialMisses;
    }

    /** Asks L2 and takes the lock again; `elapsed` is read when the answer is there. */
    method Ask(keys: set<Key>, taken: nat, ghost log: nat, ghost since: Time)
      returns (r: Read<map<Key, Hit>>, elapsed: Time)
      requires Valid() && taken <= version && log <= |l2Log| && since <= clock
      modifies this`l1, this`l2, this`clock, this`version, this`closed, this`available
      modifies this`l2Log, this`call, this`written, this`reading
      ensures Valid() && old(clock) <= clock && old(l2Log) <= l2Log
      ensures r.Answer? ==>
                && Consulted(log, since) && call.keys == keys && r.value == call.answers
                && elapsed == reading - call.asked && call.replied <= reading <= clock
                && version == taken && !closed && available
      ensures r.Refused? ==> Refuses(r.error)
      ensures r.Overtaken? ==> !closed && taken < version
    {
      var started := Now();
      var reply := L2Read(keys);
      var answered := Now();
      elapsed := answered - started;
      Interleave();
      var refusal := Refusal<map<Key, Hit>>(Some(taken));
      if refusal.Some? { return refusal.value, elapsed; }
      if reply.None? {
        l1, available := map[], false;
        return Refused(Unavailable), elapsed;
      }
      r := Answer(reply.value);
    }

    /** The part of GetMany that asks L2 and takes the lock again. */
    method AskForMany(keys: seq<Key>, first: map<Key, Hit>, missed: seq<Key>, missCounts: map<Key, nat>, hits: nat,
                      taken: nat, ghost p: seq<Look<Key, Hit>>, ghost looks: seq<Look<Key, Hit>>,
                      ghost log: nat, ghost since: Time, ghost before: Tally, ghost l1Before: nat)
      returns (r: Read<map<Key, Hit>>, ghost fates: map<Key, Fate>)
      requires Valid() && taken <= version && probes == looks + p && log <= |l2Log| && since <= clock
      requires lookups == before && l1Misses == l1Before
      requires |p| == |keys| && Opened(keys, p, first) == Some(Books(hits, missed, missCounts)) && missed != []
      modifies this`l1, this`l2, this`clock, this`version, this`closed, this`available
      modifies this`l2Log, this`call, this`written, this`reading, this`probes, this`lookups, this`l1Misses
      ensures Valid() && old(clock) <= clock && old(l2Log) <= l2Log && looks <= probes
      ensures r.Answer? ==>
                && Balanced(keys, r.value, |looks|, before, l1Before, fates)
                && Consulted(log, since) && call.keys == fates.Keys && call.replied <= reading
                && version == taken && !closed && available
      ensures !r.Answer? ==> lookups == before && l1Misses == l1Before
      ensures r.Refused? ==> Refuses(r.error)
      ensures r.Overtaken? ==> !closed && taken < version
    {
      fates := map[];
      var reply, elapsed := Ask(missCounts.Keys, taken, log, since);
      if !reply.Answer? { return Unanswered(reply), fates; }
      var results;
      results, fates :=
        FinishGetMany(keys, first, missed, missCounts, hits, reply.value, elapsed, p, looks, log, since,
                      before, l1Before);
      r := Answer(results);
    }

    /** The end of GetMany if no look missed. */
    method AnswerFromL1(keys: seq<Key>, results: map<Key, Hit>, missCounts: map<Key, nat>, hits: nat,
                        taken: nat, ghost p: seq<Look<Key, Hit>>, ghost looks: seq<Look<Key, Hit>>,
                        ghost before: Tally)
      returns (r: Read<map<Key, Hit>>)
      requires Valid() && taken <= version && probes == looks + p && lookups == before
      requires |p| == |keys| && Opened(keys, p, results) == Some(Books(hits, [], missCounts))
      modifies this`lookups
      ensures r.Answer? ==>
                && r.value == results && Balanced(keys, r.value, |looks|, before, l1Misses, map[])
                && version == taken && !closed && available
      ensures !r.Answer? ==> lookups == before
      ensures r.Refused? ==> Refuses(r.error)
      ensures r.Overtaken? ==> !closed && taken < version
    {
      var refusal := Refusal<map<Key, Hit>>(Some(taken));
      if refusal.Some? { return refusal.value; }
      ConcludesAtOnce(keys, looks, p, Books(hits, [], missCounts), Left(call, reading), results);
      lookups := lookups.Plus(Local, hits);
      r := Answer(results);
    }

    /** GetMany once it has been let in. */
    method LookMany(keys: seq<Key>, taken: nat, ghost n: nat, ghost log: nat, ghost since: Time,
                    ghost before: Tally, ghost l1Before: nat)
      returns (r: Read<map<Key, Hit>>, ghost fates: map<Key, Fate>)
      requires Valid() && taken == version && n == |probes| && log <= |l2Log| && since <= clock
      requires lookups == before && l1Misses == l1Before
      modifies this`l1, this`l2, this`clock, this`version, this`closed, this`available
      modifies this`l2Log, this`call, this`written, this`reading, this`probes, this`lookups, this`l1Misses
      ensures Valid() && old(clock) <= clock && old(l2Log) <= l2Log && old(probes) <= probes
      ensures r.Answer? ==>
                && Balanced(keys, r.value, n, before, l1Before, fates)
                && (fates == map[] || (Consulted(log, since) && call.keys == fates.Keys && call.replied <= reading))
                && version == taken && !closed && available
      ensures !r.Answer? ==> lookups == before && l1Misses == l1Before
      ensures r.Refused? ==> Refuses(r.error)
      ensures r.Overtaken? ==> !closed && taken < version
    {
      ghost var looks, p := probes, [];
      var results, missed, missCounts, hits;
      results, missed, missCounts, hits, p := FirstPass(keys);
      Interleave();
      if missed != [] {
        r, fates := AskForMany(keys, results, missed, missCounts, hits, taken, p, looks, log, since,
                               before, l1Before);
      } else {
        fates := map[];
        r := AnswerFromL1(keys, results, missCounts, hits, taken, p, looks, before);
      }
    }

    /** One attempt of GetMany.  An answer is explained by what L1 and L2 said and adds to the lookup
        counters what every given occurrence deserves; any other outcome adds nothing and has its
        reason. */
    method TryGetMany(keys: seq<Key>) returns (r: Read<map<Key, Hit>>, ghost fates: map<Key, Fate>)
      requires Valid()
      modifies this
      ensures Valid() && old(clock) <= clock && old(l2Log) <= l2Log && old(probes) <= probes
      ensures r.Answer? ==>
                ManyExplained(keys, r.value, |old(probes)|, |old(l2Log)|, old(clock),
                              old(lookups), old(l1Misses), fates)
      ensures !r.Answer? ==> lookups == old(lookups) && l1Misses == old(l1Misses)
      ensures r.Refused? ==> Refuses(r.error)
      ensures r.Overtaken? ==> !closed && check.passed && check.version < version
    {
      ghost var n, log, since, before, l1Before := |probes|, |l2Log|, clock, lookups, l1Misses;
      fates := map[];
      Interleave();
      var refusal := Refusal<map<Key, Hit>>(None);
      check := Check(|probes|, version, refusal.None?);
      if refusal.Some? { return refusal.value, fates; }
      r, fates := LookMany(keys, version, n, log, since, before, l1Before);
    }

    /** GetMany, as far as `patience` attempts.  However often it went round, it adds exactly one
        lookup per given key if it answers, and nothing otherwise. */
    method GetMany(keys: seq<Key>, patience: nat) returns (r: Read<map<Key, Hit>>, ghost fates: map<Key, Fate>)
      requires Valid()
      modifies this
      ensures Valid() && lookups.Total() == old(lookups).Total() + if r.Answer? then |keys| else 0
      ensures !r.Answer? ==> lookups == old(lookups) && l1Misses == old(l1Misses)
      ensures r.Answer? && keys != [] ==>
                exists n, log, since ::
                  && |old(probes)| <= n && |old(l2Log)| <= log && old(clock) <= since
                  && ManyExplained(keys, r.value, n, log, since, old(lookups), old(l1Misses), fates)
      ensures keys == [] ==> r == Answer(map[])
      ensures r.Refused? ==> Refuses(r.error)
    {
      fates := map[];
      if keys == [] { return Answer(map[]), fates; }
      r := Overtaken;
      var attempts := 0;
      ghost var before, l1Before, looks, log, now := lookups, l1Misses, |probes|, |l2Log|, clock;
      while attempts < patience && r.Overtaken?
        invariant Valid() && looks <= |probes| && log <= |l2Log| && now <= clock
        invariant !r.Answer? ==> lookups == before && l1Misses == l1Before
        invariant r.Refused? ==> Refuses(r.error)
        invariant r.Answer? ==> lookups.Total() == before.Total() + |keys|
        invariant r.Answer? ==>
                    exists n, l, since ::
                      && looks <= n && log <= l && now <= since
                      && ManyExplained(keys, r.value, n, l, since, before, l1Before, fates)
      {
        ghost var n, l, since := |probes|, |l2Log|, clock;
        r, fates := TryGetMany(keys);
        assert r.Answer? ==> ManyExplained(keys, r.value, n, l, since, before, l1Before, fates);
        attempts := attempts + 1;
      }
    }
  }
}
