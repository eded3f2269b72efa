/**
 MemoryCache: hash shards of entries with deadlines, a byte budget and sampled-LRU eviction,
 as one caller at a time sees it.  Random choices, map iteration order and the clock are
 nondeterministic.
 */
module MemoryCaches {
  import opened Wrappers
  import opened MemoryConfig
  import opened Counters

  type Key = string

  type Time = int

  /** A byte slice with its backing capacity. */
  datatype Value = Value(text: string, capacity: nat)

  const DEFAULT_SHARDS: nat := 64
  const DEFAULT_LRU_SAMPLES: nat := 5
  const MAX_EVICTION_RETRIES := 3
  const CLEANUP_SAMPLE := 64
  const CLEANUP_SHARDS_PER_TICK := 16

  predicate Expired(expiresAt: Option<Time>, now: Time) {
    expiresAt.Some? && expiresAt.value <= now
  }

  function ItemCost(key: Key, value: Value): nat {
    |key| + value.capacity
  }

  /** A cached entry.  `id` stands for the pointer: an entry keeps it while it is touched, and a
      replacement gets a new one. */
  datatype Entry = Entry(id: nat, value: Value, cost: nat, expiresAt: Option<Time>, lastAccess: nat)

  /** An item of the flat TTL map that the shards represent. */
  datatype Item = Item(value: Value, expiresAt: Option<Time>)

  type Shard = map<Key, Entry>

  ghost function Sum(m: Shard): nat {
    if m == map[] then 0
    else
      var k :| k in m;
      m[k].cost + Sum(m - {k})
  }

  lemma {:induction false} SumSplits(m: Shard, k: Key)
    requires k in m
    ensures Sum(m) == m[k].cost + Sum(m - {k})
    decreases |m|
  {
    var x :| x in m && Sum(m) == m[x].cost + Sum(m - {x});
    if x != k {
      SumSplits(m - {x}, k);
      SumSplits(m - {k}, x);
      assert m - {x} - {k} == m - {k} - {x};
    }
  }

  lemma SumOfNone(m: Shard)
    ensures m == map[] ==> Sum(m) == 0
  {
  }

  lemma SumAdds(m: Shard, k: Key, e: Entry)
    ensures Sum(m[k := e]) == Sum(m) - (if k in m then m[k].cost else 0) + e.cost
  {
    SumSplits(m[k := e], k);
    assert m[k := e] - {k} == m - {k};
    if k in m { SumSplits(m, k); } else { assert m - {k} == m; }
  }

  /** Every entry is charged exactly and none is above the item limit. */
  ghost predicate Sound(m: Shard, maxItemSize: int) {
    forall k <- m :: m[k].cost == ItemCost(k, m[k].value) <= maxItemSize
  }

  /** The shard holds exactly the keys of the whole that hash to it. */
  ghost predicate HoldsPart(shard: Shard, i: nat, index: imap<Key, nat>, all: Shard) {
    && (forall k <- shard :: k in index && index[k] == i && k in all && all[k] == shard[k])
    && (forall k <- all :: k in index && index[k] == i ==> k in shard)
  }

  ghost predicate InRange(index: imap<Key, nat>, count: nat) {
    forall k: Key :: k in index && index[k] < count
  }

  /** The shards together hold exactly the whole. */
  ghost predicate Partition(parts: seq<Shard>, index: imap<Key, nat>, all: Shard) {
    && InRange(index, |parts|)
    && forall i :: 0 <= i < |parts| ==> HoldsPart(parts[i], i, index, all)
  }

  lemma PartitionRemove(parts: seq<Shard>, index: imap<Key, nat>, all: Shard, key: Key)
    requires Partition(parts, index, all)
    ensures index[key] < |parts| && (key in all <==> key in parts[index[key]])
    ensures key in all ==> parts[index[key]][key] == all[key]
    ensures Partition(parts[index[key] := parts[index[key]] - {key}], index, all - {key})
  {
    var i := index[key];
    assert HoldsPart(parts[i], i, index, all);
    var parts' := parts[i := parts[i] - {key}];
    forall j | 0 <= j < |parts'| ensures HoldsPart(parts'[j], j, index, all - {key}) {
      assert HoldsPart(parts[j], j, index, all);
    }
  }

  lemma PartitionInsert(parts: seq<Shard>, index: imap<Key, nat>, all: Shard, key: Key, e: Entry)
    requires Partition(parts, index, all)
    ensures index[key] < |parts| && (key in all <==> key in parts[index[key]])
    ensures key in all ==> parts[index[key]][key] == all[key]
    ensures Partition(parts[index[key] := parts[index[key]][key := e]], index, all[key := e])
  {
    var i := index[key];
    var parts' := parts[i := parts[i][key := e]];
    forall j | 0 <= j < |parts'| ensures HoldsPart(parts'[j], j, index, all[key := e]) {
      assert HoldsPart(parts[j], j, index, all);
    }
  }

  lemma RemoveFacts(m: Shard, k: Key, maxItemSize: int)
    requires Sound(m, maxItemSize) && k in m
    ensures Sound(m - {k}, maxItemSize) && |m - {k}| == |m| - 1
    ensures Sum(m - {k}) == Sum(m) - m[k].cost
  {
    SumSplits(m, k);
    assert m.Keys == (m - {k}).Keys + {k};
  }

  lemma InsertFacts(m: Shard, k: Key, e: Entry, maxItemSize: int)
    requires Sound(m, maxItemSize) && e.cost == ItemCost(k, e.value) <= maxItemSize
    ensures Sound(m[k := e], maxItemSize) && |m[k := e]| == |m| + (if k in m then 0 else 1)
    ensures Sum(m[k := e]) == Sum(m) - (if k in m then m[k].cost else 0) + e.cost
  {
    SumAdds(m, k, e);
    assert m[k := e].Keys == m.Keys + {k};
    if k in m { assert m.Keys + {k} == m.Keys; }
  }

  ghost function Flat(m: Shard): map<Key, Item> {
    map k | k in m :: Item(m[k].value, m[k].expiresAt)
  }

  lemma FlatMinus(m: Shard, key: Key)
    ensures Flat(m - {key}) == Flat(m) - {key}
  {
  }

  lemma FlatUpdates(m: Shard, key: Key, e: Entry)
    ensures Flat(m[key := e]) == Flat(m)[key := Item(e.value, e.expiresAt)]
    ensures key in m && m[key].value == e.value && m[key].expiresAt == e.expiresAt ==> Flat(m[key := e]) == Flat(m)
  {
  }

  lemma RestStays(a: Shard, b: Shard, key: Key)
    requires SameBut(a, b, key)
    ensures Sum(a) - CostIn(a, key) == Sum(b) - CostIn(b, key)
  {
    assert a - {key} == b - {key};
    if key in a { SumSplits(a, key); } else { assert a - {key} == a; }
    if key in b { SumSplits(b, key); } else { assert b - {key} == b; }
  }

  /** The entries that have not run out. */
  ghost function Unexpired(m: Shard, now: Time): Shard {
    map k | k in m && !Expired(m[k].expiresAt, now) :: m[k]
  }

  /** `b` is `a` with some entries dropped. */
  ghost predicate Drops(a: Shard, b: Shard) {
    forall k <- b :: k in a && b[k] == a[k]
  }

  /** The two differ at most in one key. */
  ghost predicate SameBut(a: Shard, b: Shard, key: Key) {
    forall k | k != key :: (k in a <==> k in b) && (k in b ==> a[k] == b[k])
  }

  lemma SameButTransitive(a: Shard, b: Shard, c: Shard, key: Key)
    requires SameBut(a, b, key) && SameBut(b, c, key)
    ensures SameBut(a, c, key)
  {
  }

  /** `b` is `a` with exactly one key written. */
  ghost predicate Writes(a: Shard, b: Shard, key: Key, value: Value, expiresAt: Option<Time>) {
    key in b && b[key].value == value && b[key].expiresAt == expiresAt && SameBut(a, b, key)
  }

  /** Apart from one key, `b` is `a` with some entries dropped. */
  ghost predicate DropsBut(a: Shard, b: Shard, key: Key) {
    forall k <- b :: k != key ==> k in a && b[k] == a[k]
  }

  lemma {:induction false} DropsCostsLess(a: Shard, b: Shard)
    requires Drops(a, b)
    ensures Sum(b) <= Sum(a) && |b| <= |a|
    decreases |a|
  {
    if k :| k in a && k !in b {
      RemoveFactsOnly(a, k);
      DropsCostsLess(a - {k}, b);
    } else {
      assert a == b;
    }
  }

  lemma RemoveFactsOnly(m: Shard, k: Key)
    requires k in m
    ensures |m - {k}| == |m| - 1 && Sum(m - {k}) == Sum(m) - m[k].cost
  {
    SumSplits(m, k);
    assert m.Keys == (m - {k}).Keys + {k};
  }

  /** Nothing but entries that had run out by `now` is gone. */
  ghost predicate OnlyExpiredGone(a: Shard, b: Shard, now: Time) {
    Drops(a, b) && forall k <- a :: k !in b ==> Expired(a[k].expiresAt, now)
  }

  /** Cleanup is invisible: at any later time the same items are live. */
  lemma CleanupIsInvisible(a: Shard, b: Shard, now: Time, later: Time)
    requires OnlyExpiredGone(a, b, now) && now <= later
    ensures Unexpired(b, later) == Unexpired(a, later)
  {
  }

  /** No entry of shard i is left that had run out by `now`. */
  ghost predicate Swept(m: Shard, index: imap<Key, nat>, i: nat, now: Time) {
    forall k <- m :: k in index && index[k] == i ==> !Expired(m[k].expiresAt, now)
  }

  lemma ShardShrinks(parts: seq<Shard>, all: Shard, parts': seq<Shard>, all': Shard, index: imap<Key, nat>, i: nat)
    requires Partition(parts, index, all) && Partition(parts', index, all') && Drops(all, all')
    requires i < |parts| == |parts'|
    ensures |parts'[i]| <= |parts[i]|
  {
    assert HoldsPart(parts[i], i, index, all) && HoldsPart(parts'[i], i, index, all');
    DropsCostsLess(parts[i], parts'[i]);
  }

  /** The cursor after `steps` round-robin steps over `count` shards, at most once around. */
  function Advance(start: int, steps: int, count: int): int {
    if start + steps >= count then start + steps - count else start + steps
  }

  /** How many steps the cursor needs to reach shard `j`. */
  function Ahead(start: int, j: int, count: int): int {
    if j >= start then j - start else j - start + count
  }

  /** The first `steps` shards from `start`, round-robin, hold nothing that had run out by `now`,
      save those that had more than `limit` entries. */
  ghost predicate SweptAhead(m: Shard, parts: seq<Shard>, index: imap<Key, nat>, start: int, steps: int,
                             limit: int, now: Time) {
    forall j: nat | j < |parts| && Ahead(start, j, |parts|) < steps && |parts[j]| <= limit :: Swept(m, index, j, now)
  }

  lemma SweptOneMore(a: Shard, b: Shard, parts: seq<Shard>, index: imap<Key, nat>, start: nat, steps: nat,
                     limit: int, now: Time)
    requires start < |parts| && steps < |parts|
    requires SweptAhead(a, parts, index, start, steps, limit, now) && Drops(a, b)
    requires var i := Advance(start, steps, |parts|); |parts[i]| <= limit ==> Swept(b, index, i, now)
    ensures SweptAhead(b, parts, index, start, steps + 1, limit, now)
  {
    forall j: nat | j < |parts| && Ahead(start, j, |parts|) < steps + 1 && |parts[j]| <= limit
      ensures Swept(b, index, j, now)
    {
      if Ahead(start, j, |parts|) == steps {
        assert j == Advance(start, steps, |parts|);
      } else {
        assert Swept(a, index, j, now);
      }
    }
  }

  /** What can happen to the cache while its maintenance loop runs. */
  datatype Command =
    | Tick
    | DoGet(key: Key)
    | DoSet(key: Key, value: Value, ttl: Option<Time>)
    | DoAdd(key: Key, value: Value, lifetime: Time)
    | DoTouch(key: Key, lifetime: Time)
    | DoCount(key: Key, change: Change)
    | DoForget(key: Key)
    | DoFlush

  /** Commands that may bring in a key. */
  predicate Grows(c: Command) {
    c.DoSet? || c.DoAdd? || c.DoCount?
  }

  function Ticks(script: seq<Command>): (n: nat)
    ensures n <= |script|
  {
    if script == [] then 0 else Ticks(script[..|script| - 1]) + if script[|script| - 1].Tick? then 1 else 0
  }

  function Growth(script: seq<Command>): (n: nat)
    ensures n <= |script|
  {
    if script == [] then 0 else Growth(script[..|script| - 1]) + if Grows(script[|script| - 1]) then 1 else 0
  }

  lemma OneMoreCommand(past: seq<Command>, c: Command)
    ensures Ticks(past + [c]) == Ticks(past) + if c.Tick? then 1 else 0
    ensures Growth(past + [c]) == Growth(past) + if Grows(c) then 1 else 0
  {
    assert (past + [c])[..|past|] == past;
  }

  lemma {:induction false} GrowthSoFar(script: seq<Command>, x: nat)
    requires x <= |script|
    ensures Growth(script[..x]) <= Growth(script)
    ensures x < |script| ==> script[..x + 1] == script[..x] + [script[x]]
    decreases |script| - x
  {
    if x == |script| {
      assert script[..x] == script;
    } else {
      assert script[..x + 1] == script[..x] + [script[x]];
      OneMoreCommand(script[..x], script[x]);
      GrowthSoFar(script, x + 1);
    }
  }

  predicate OnlyTicks(script: seq<Command>) {
    forall c <- script :: c.Tick?
  }

  lemma {:induction false} TicksOfOnlyTicks(script: seq<Command>)
    requires OnlyTicks(script)
    ensures Ticks(script) == |script| && Growth(script) == 0
  {
    if script != [] { TicksOfOnlyTicks(script[..|script| - 1]); }
  }

  /** How many of the shards so many ticks have swept. */
  ghost function Scanned(ticks: nat, count: nat): (n: nat)
    ensures n <= count
  {
    if ticks == 0 then 0 else Least(Scanned(ticks - 1, count) + Least(CLEANUP_SHARDS_PER_TICK, count), count)
  }

  lemma ScannedOneMore(past: seq<Command>, c: Command, count: nat)
    ensures var scanned := Scanned(Ticks(past), count);
            Scanned(Ticks(past + [c]), count) ==
            if c.Tick? then Least(scanned + Least(CLEANUP_SHARDS_PER_TICK, count), count) else scanned
  {
    OneMoreCommand(past, c);
  }

  lemma {:induction false} ScannedSoFar(ticks: nat, count: nat)
    ensures Scanned(ticks, count) == Least(ticks * Least(CLEANUP_SHARDS_PER_TICK, count), count)
  {
    if ticks > 0 {
      ScannedSoFar(ticks - 1, count);
      var step := Least(CLEANUP_SHARDS_PER_TICK, count);
      assert ticks * step == (ticks - 1) * step + step;
    }
  }

  /** No shard has gained more than so many entries. */
  ghost predicate GrownBy(parts0: seq<Shard>, parts: seq<Shard>, growth: nat) {
    |parts0| == |parts| && forall j :: 0 <= j < |parts| ==> |parts[j]| <= |parts0[j]| + growth
  }

  /** The next tick goes on where the last one stopped. */
  lemma RoundGoesOn(parts0: seq<Shard>, parts: seq<Shard>, a: Shard, b: Shard, index: imap<Key, nat>, from: nat,
                    scanned: nat, start: nat, growth: nat, limit: int, first: Time, now: Time)
    requires GrownBy(parts0, parts, growth) && limit + growth <= CLEANUP_SAMPLE && Drops(a, b)
    requires from < |parts| && scanned <= |parts| && first <= now
    requires scanned < |parts| ==> start == Advance(from, scanned, |parts|)
    requires SweptAhead(a, parts0, index, from, scanned, limit, first)
    requires SweptAhead(b, parts, index, start, Least(CLEANUP_SHARDS_PER_TICK, |parts|), CLEANUP_SAMPLE, now)
    ensures var reached := Least(scanned + Least(CLEANUP_SHARDS_PER_TICK, |parts|), |parts|);
            SweptAhead(b, parts0, index, from, reached, limit, first)
  {
    var reached := Least(scanned + Least(CLEANUP_SHARDS_PER_TICK, |parts|), |parts|);
    forall j: nat | j < |parts0| && Ahead(from, j, |parts0|) < reached && |parts0[j]| <= limit
      ensures Swept(b, index, j, first)
    {
      if Ahead(from, j, |parts0|) < scanned {
        assert Swept(a, index, j, first);
      } else {
        assert Swept(b, index, j, now);
      }
    }
  }

  /** Whatever had run out by `now` was there before, with the same deadline. */
  ghost predicate NothingStale(a: Shard, b: Shard, now: Time) {
    forall k <- b :: Expired(b[k].expiresAt, now) ==> k in a && b[k].expiresAt == a[k].expiresAt
  }

  /** The same about flat maps, for a command that brings in no key. */
  ghost predicate NothingStaleSeen(a: map<Key, Item>, b: map<Key, Item>, now: Time) {
    && b.Keys <= a.Keys
    && forall k <- b :: Expired(b[k].expiresAt, now) ==> b[k].expiresAt == a[k].expiresAt
  }

  lemma NothingStaleFlat(a: Shard, b: Shard, now: Time)
    requires NothingStaleSeen(Flat(a), Flat(b), now)
    ensures NothingStale(a, b, now) && b.Keys <= a.Keys
  {
    forall k <- b ensures k in a && (Expired(b[k].expiresAt, now) ==> b[k].expiresAt == a[k].expiresAt) {
      assert k in Flat(b);
    }
  }

  lemma StaysSwept(a: Shard, b: Shard, parts: seq<Shard>, index: imap<Key, nat>, start: int, steps: int,
                   limit: int, first: Time, now: Time)
    requires SweptAhead(a, parts, index, start, steps, limit, first) && first <= now && NothingStale(a, b, now)
    ensures SweptAhead(b, parts, index, start, steps, limit, first)
  {
    forall j: nat | j < |parts| && Ahead(start, j, |parts|) < steps && |parts[j]| <= limit
      ensures Swept(b, index, j, first)
    {
      assert Swept(a, index, j, first);
    }
  }

  /** What the commands of a run have done since the contents were in the shards `parts0`: so many
      shards have been swept, starting at `from`, and the cursor is behind them. */
  ghost predicate Underway(parts0: seq<Shard>, parts: seq<Shard>, all: Shard, index: imap<Key, nat>, from: nat,
                           cursor: nat, past: seq<Command>, limit: int, first: Time) {
    var scanned := Scanned(Ticks(past), |parts|);
    && GrownBy(parts0, parts, Growth(past))
    && (scanned < |parts| ==> cursor == Advance(from, scanned, |parts|))
    && SweptAhead(all, parts0, index, from, scanned, limit, first)
  }

  lemma TickGoesOn(parts0: seq<Shard>, parts: seq<Shard>, a: Shard, parts': seq<Shard>, b: Shard,
                   index: imap<Key, nat>, from: nat, start: nat, cursor: nat, past: seq<Command>, limit: int,
                   first: Time, now: Time)
    requires Underway(parts0, parts, a, index, from, start, past, limit, first)
    requires Growth(past) + limit <= CLEANUP_SAMPLE && from < |parts| && first <= now
    requires Drops(a, b) && GrownBy(parts, parts', 0)
    requires var steps := Least(CLEANUP_SHARDS_PER_TICK, |parts|);
             && cursor == Advance(start, steps, |parts|)
             && SweptAhead(b, parts, index, start, steps, CLEANUP_SAMPLE, now)
    ensures Underway(parts0, parts', b, index, from, cursor, past + [Tick], limit, first)
  {
    OneMoreCommand(past, Tick);
    ScannedOneMore(past, Tick, |parts|);
    RoundGoesOn(parts0, parts, a, b, index, from, Scanned(Ticks(past), |parts|), start, Growth(past), limit,
                first, now);
    assert forall i :: 0 <= i < |parts| ==> |parts'[i]| <= |parts[i]| <= |parts0[i]| + Growth(past);
  }

  lemma OtherGoesOn(parts0: seq<Shard>, parts: seq<Shard>, a: Shard, parts': seq<Shard>, b: Shard,
                    index: imap<Key, nat>, from: nat, cursor: nat, past: seq<Command>, c: Command, limit: int,
                    first: Time, now: Time)
    requires Underway(parts0, parts, a, index, from, cursor, past, limit, first)
    requires !c.Tick? && first <= now
    requires NothingStale(a, b, now) && GrownBy(parts, parts', if Grows(c) then 1 else 0)
    ensures Underway(parts0, parts', b, index, from, cursor, past + [c], limit, first)
  {
    OneMoreCommand(past, c);
    ScannedOneMore(past, c, |parts|);
    StaysSwept(a, b, parts0, index, from, Scanned(Ticks(past), |parts|), limit, first, now);
    assert forall i :: 0 <= i < |parts| ==>
             |parts'[i]| <= |parts[i]| + (if Grows(c) then 1 else 0) <= |parts0[i]| + Growth(past + [c]);
  }

  /** Ticks alone drop only what has run out, and access times advance by one per tick. */
  ghost predicate Invisible(past: seq<Command>, all0: Shard, all: Shard, now: Time, lru0: nat, lru: nat) {
    OnlyTicks(past) ==> OnlyExpiredGone(all0, all, now) && lru == lru0 + |past|
  }

  lemma StaysInvisible(past: seq<Command>, c: Command, all0: Shard, a: Shard, b: Shard, then': Time, now: Time,
                       lru0: nat, lru: nat, lru': nat)
    requires Invisible(past, all0, a, then', lru0, lru) && then' <= now
    requires c.Tick? ==> OnlyExpiredGone(a, b, now) && lru' == lru + 1
    ensures Invisible(past + [c], all0, b, now, lru0, lru')
  {
    if OnlyTicks(past + [c]) {
      assert (past + [c])[|past|] == c;
      forall d <- past ensures d.Tick? { assert d in past + [c]; }
    }
  }

  /** No shard that had at most `limit` entries holds anything that had run out by `now`. */
  ghost predicate AllSwept(m: Shard, parts: seq<Shard>, index: imap<Key, nat>, limit: int, now: Time) {
    forall j: nat | j < |parts| && |parts[j]| <= limit :: Swept(m, index, j, now)
  }

  predicate FullRound(ticks: nat, count: nat) {
    ticks * Least(CLEANUP_SHARDS_PER_TICK, count) >= count
  }

  lemma RoundIsOver(parts0: seq<Shard>, parts: seq<Shard>, all: Shard, index: imap<Key, nat>, from: nat,
                    cursor: nat, script: seq<Command>, limit: int, first: Time)
    requires Underway(parts0, parts, all, index, from, cursor, script, limit, first) && from < |parts|
    ensures FullRound(Ticks(script), |parts|) ==> AllSwept(all, parts0, index, limit, first)
  {
    ScannedSoFar(Ticks(script), |parts|);
  }

  /** A command that brings in at most one key adds at most one entry to a shard. */
  lemma ShardGrows(parts: seq<Shard>, a: Shard, parts': seq<Shard>, b: Shard, index: imap<Key, nat>, more: set<Key>)
    requires Partition(parts, index, a) && Partition(parts', index, b) && |parts| == |parts'|
    requires b.Keys <= a.Keys + more && |more| <= 1
    ensures GrownBy(parts, parts', |more|)
  {
    forall i | 0 <= i < |parts| ensures |parts'[i]| <= |parts[i]| + |more| {
      assert HoldsPart(parts[i], i, index, a) && HoldsPart(parts'[i], i, index, b);
      FewerKeys(parts'[i].Keys, parts[i].Keys, more);
    }
  }

  lemma FewerKeys(b: set<Key>, a: set<Key>, more: set<Key>)
    requires b <= a + more
    ensures |b| <= |a| + |more|
  {
    Subset(b, a + more);
    assert |a + more| + |a * more| == |a| + |more|;
  }

  lemma {:induction false} Subset(b: set<Key>, a: set<Key>)
    requires b <= a
    ensures |b| <= |a|
  {
    if k :| k in b { Subset(b - {k}, a - {k}); }
  }

  /** What a key costs, nothing if it is absent. */
  function CostIn(m: Shard, key: Key): nat {
    if key in m then m[key].cost else 0
  }

  datatype CacheError = InvalidTTL | ItemTooLarge

  /** What a flat TTL map answers: the item if it has not run out, with the lifetime it has left. */
  function Lookup(m: map<Key, Item>, key: Key, now: Time): Option<(Value, Option<Time>)> {
    if key in m && !Expired(m[key].expiresAt, now) then
      Some((m[key].value, if m[key].expiresAt.Some? then Some(m[key].expiresAt.value - now) else None))
    else None
  }

  /** A live item gets a new deadline; one that has run out disappears. */
  function Touched(m: map<Key, Item>, key: Key, ttl: Time, now: Time): map<Key, Item> {
    if Lookup(m, key, now).Some? then m[key := Item(m[key].value, Some(now + ttl))] else m - {key}
  }

  function Deadline(now: Time, ttl: Option<Time>): Option<Time> {
    if ttl.Some? then Some(now + ttl.value) else None
  }

  datatype EvictionResult = EvictionResult(removed: bool, live: bool, bytes: int)

  datatype EvictionSummary = EvictionSummary(entries: int, bytes: int)

  datatype Candidate = Candidate(key: Key, entry: Entry)

  /** One random choice of an eviction: a shard, and the key at which ranging over it begins. */
  datatype Draw = Draw(shard: nat, key: Key)

  predicate DrawFits(shards: seq<Shard>, d: Draw) {
    d.shard < |shards| && (shards[d.shard] != map[] ==> d.key in shards[d.shard])
  }

  /** The candidates that the draws yield: empty shards give none, and `limit` of them are enough. */
  function SampleOf(shards: seq<Shard>, draws: seq<Draw>, limit: nat): (s: seq<Candidate>)
    requires forall d <- draws :: DrawFits(shards, d)
    ensures |s| <= limit
  {
    if draws == [] then []
    else
      var d, s := draws[|draws| - 1], SampleOf(shards, draws[..|draws| - 1], limit);
      assert DrawFits(shards, d);
      if |s| < limit && shards[d.shard] != map[] then s + [Candidate(d.key, shards[d.shard][d.key])] else s
  }

  lemma {:induction false} SampleIsHeld(shards: seq<Shard>, draws: seq<Draw>, limit: nat)
    requires forall d <- draws :: DrawFits(shards, d)
    ensures forall c <- SampleOf(shards, draws, limit) ::
              exists j :: 0 <= j < |shards| && c.key in shards[j] && shards[j][c.key] == c.entry
  {
    if draws != [] {
      var d := draws[|draws| - 1];
      assert DrawFits(shards, d);
      SampleIsHeld(shards, draws[..|draws| - 1], limit);
      forall c <- SampleOf(shards, draws, limit)
        ensures exists j :: 0 <= j < |shards| && c.key in shards[j] && shards[j][c.key] == c.entry
      {
        if c !in SampleOf(shards, draws[..|draws| - 1], limit) {
          assert c.key in shards[d.shard] && shards[d.shard][c.key] == c.entry;
        }
      }
    }
  }

  /** The first of the least recently used candidates. */
  function Oldest(s: seq<Candidate>): (c: Candidate)
    requires s != []
    ensures c in s && forall d <- s :: c.entry.lastAccess <= d.entry.lastAccess
  {
    var last := s[|s| - 1];
    if |s| == 1 then last
    else
      var c := Oldest(s[..|s| - 1]);
      assert s == s[..|s| - 1] + [last];
      if last.entry.lastAccess < c.entry.lastAccess then last else c
  }

  lemma OldestOneMore(s: seq<Candidate>, c: Candidate)
    ensures Oldest(s + [c]) ==
            if s == [] || c.entry.lastAccess < Oldest(s).entry.lastAccess then c else Oldest(s)
  {
    assert (s + [c])[..|s|] == s;
  }

  lemma SampleOneMore(shards: seq<Shard>, draws: seq<Draw>, i: nat, limit: nat)
    requires (forall d <- draws :: DrawFits(shards, d)) && i < |draws|
    ensures var d, s := draws[i], SampleOf(shards, draws[..i], limit);
            && DrawFits(shards, d)
            && SampleOf(shards, draws[..i + 1], limit) ==
               if |s| < limit && shards[d.shard] != map[] then s + [Candidate(d.key, shards[d.shard][d.key])] else s
  {
    assert draws[..i + 1][..i] == draws[..i];
  }

  ghost function Evicted1(m: map<Key, nat>, key: Key): map<Key, nat> {
    m[key := Times(m, key) + 1]
  }

  /** How often a key has been evicted. */
  function Times(m: map<Key, nat>, key: Key): nat {
    if key in m then m[key] else 0
  }

  /** The history of evictions has grown by exactly the keys that are gone. */
  ghost predicate TakenFrom(all: Shard, left: Shard, before: map<Key, nat>, after: map<Key, nat>) {
    forall k ::
      if k in all && k !in left then Times(before, k) < Times(after, k)
      else Times(before, k) == Times(after, k)
  }

  /** Eviction only adds to its history, and whatever is gone had run out or is in it. */
  ghost predicate Gone(all: Shard, left: Shard, now: Time, before: map<Key, nat>, after: map<Key, nat>) {
    && (forall k :: Times(before, k) <= Times(after, k))
    && (forall k <- all :: k !in left ==> Expired(all[k].expiresAt, now) || Times(before, k) < Times(after, k))
  }

  lemma GoneTransitive(all: Shard, mid: Shard, left: Shard, then': Time, now: Time,
                       before: map<Key, nat>, between: map<Key, nat>, after: map<Key, nat>)
    requires Drops(all, mid) && then' <= now && Gone(all, mid, then', before, between)
             && Gone(mid, left, now, between, after)
    ensures Gone(all, left, now, before, after)
  {
    forall k <- all | k !in left ensures Expired(all[k].expiresAt, now) || Times(before, k) < Times(after, k) {
      assert Times(before, k) <= Times(between, k) <= Times(after, k);
    }
    forall k ensures Times(before, k) <= Times(after, k)
    { assert Times(before, k) <= Times(between, k) <= Times(after, k); }
  }

  /** A step that concerns one key keeps the books of the others, and of the key itself if all it
      did was to drop it because it had run out. */
  lemma GoneBut(all: Shard, before: Shard, after: Shard, key: Key, then': Time, now: Time,
                history: map<Key, nat>, evictions: map<Key, nat>)
    requires Drops(all, before) && Gone(all, before, then', history, evictions) && then' <= now
    requires SameBut(before, after, key)
    ensures Gone(all - {key}, after, now, history, evictions)
    ensures key !in after || (key in before && after[key] == before[key]) ==> Drops(all, after)
    ensures key in after || (key in before ==> Expired(before[key].expiresAt, now)) ==>
              Gone(all, after, now, history, evictions)
  {
  }

  lemma TakenOneMore(all: Shard, left: Shard, before: map<Key, nat>, after: map<Key, nat>, v: Key)
    requires Drops(all, left) && TakenFrom(all, left, before, after) && v in left
    ensures TakenFrom(all, left - {v}, before, Evicted1(after, v))
  {
  }

  lemma {:induction false} FullSample(shards: seq<Shard>, draws: seq<Draw>, i: nat, limit: nat)
    requires (forall d <- draws :: DrawFits(shards, d)) && i <= |draws|
    requires i == |draws| || |SampleOf(shards, draws[..i], limit)| == limit
    ensures SampleOf(shards, draws, limit) == SampleOf(shards, draws[..i], limit)
    decreases |draws| - i
  {
    if i == |draws| {
      assert draws[..i] == draws;
    } else {
      assert draws[..i + 1][..i] == draws[..i];
      FullSample(shards, draws, i + 1, limit);
    }
  }

  /** Some candidate is this very entry, which had run out by `now`. */
  ghost predicate Listed(candidates: seq<Candidate>, key: Key, e: Entry, now: Time) {
    exists c <- candidates :: c.key == key && c.entry.id == e.id && Expired(e.expiresAt, now)
  }

  /** Deleting one more candidate removes exactly the entry that it lists. */
  lemma ListedOneMore(candidates: seq<Candidate>, x: nat, all: Shard, before: Shard, after: Shard, now: Time)
    requires x < |candidates| && Drops(all, before)
    requires forall k <- all :: k !in before <==> Listed(candidates[..x], k, all[k], now)
    requires var c := candidates[x];
             after == if c.key in before && before[c.key].id == c.entry.id && Expired(before[c.key].expiresAt, now)
                      then before - {c.key} else before
    ensures Drops(all, after)
    ensures forall k <- all :: k !in after <==> Listed(candidates[..x + 1], k, all[k], now)
  {
    var c := candidates[x];
    forall k <- all ensures k !in after <==> Listed(candidates[..x + 1], k, all[k], now) {
      assert candidates[..x + 1] == candidates[..x] + [c];
      assert Listed(candidates[..x + 1], k, all[k], now)
        <==> Listed(candidates[..x], k, all[k], now)
             || (c.key == k && c.entry.id == all[k].id && Expired(all[k].expiresAt, now));
    }
  }

  function Least(a: int, b: int): int {
    if a < b then a else b
  }

  /** What a counter change makes of the entry it starts from; none counts as zero. */
  function Expected(base: Option<Entry>, change: Change): Result<string, CounterError> {
    Changed(if base.None? then None else Some(base.value.value.text), change)
  }

  function EntryOf(m: Shard, key: Key): Option<Entry> {
    if key in m then Some(m[key]) else None
  }

  function TextOf(base: Option<Entry>): Option<string> {
    if base.None? then None else Some(base.value.value.text)
  }

  function DeadlineOf(base: Option<Entry>): Option<Time> {
    if base.None? then None else base.value.expiresAt
  }

  /** What a run of successful changes has made of a counter. */
  predicate CountedTo(entry: Option<Entry>, before: Option<Entry>, changes: seq<Change>) {
    if changes == [] then entry == before
    else
      && entry.Some? && entry.value.expiresAt == DeadlineOf(before)
      && ChangedBy(TextOf(before), changes) == Ok(entry.value.value.text)
  }

  /** The same in numbers: the text is the initial value plus the net change, and the deadline has
      stayed. */
  predicate ExactlyCountedTo(entry: Option<Entry>, before: Option<Entry>, changes: seq<Change>) {
    if changes == [] then entry == before
    else
      && entry.Some? && entry.value.expiresAt == DeadlineOf(before)
      && Exactly(TextOf(before), changes, entry.value.value.text)
  }

  lemma CountIsExact(entry: Option<Entry>, before: Option<Entry>, changes: seq<Change>)
    ensures CountedTo(entry, before, changes) ==> ExactlyCountedTo(entry, before, changes)
  {
    if changes != [] && ChangedBy(TextOf(before), changes).Ok? { RunIsExact(TextOf(before), changes); }
  }

  class MemoryCache {
    var shards: seq<Shard>
    /** The seeded hash of each key modulo the number of shards. */
    const index: imap<Key, nat>
    const maxMemory: int
    const maxItemSize: int
    /** The number of shards. */
    const width: nat
    const lruSamples: nat
    /** The capacity the runtime gives to a new byte slice of each length. */
    const capacities: imap<nat, nat>
    const observed: bool
    var current: int
    var entries: int
    var lruClock: nat
    var clock: Time
    var nextId: nat
    ghost var contents: Shard
    /** History: how often eviction has taken each key. */
    ghost var evictions: map<Key, nat>

    /** Every key lives in its hash shard only, the totals are exact and within the budget, and
        `reserved` bytes have been taken for an entry that is not installed yet. */
    ghost predicate Charged(reserved: nat)
      reads this
    {
      && |shards| == width > 0 && lruSamples > 0
      && 0 < maxItemSize <= maxMemory
      && Partition(shards, index, contents)
      && Sound(contents, maxItemSize)
      && current == Sum(contents) + reserved <= maxMemory
      && entries == |contents|
    }

    ghost predicate Valid()
      reads this
    {
      Charged(0)
    }

    /** The flat TTL map that the shards represent, expired items included. */
    ghost function View(): map<Key, Item>
      reads this
    {
      Flat(contents)
    }

    constructor (config: Config, shardCount: nat, lruSamples: nat, index: imap<Key, nat>, capacities: imap<nat, nat>,
                 observed: bool)
      requires Normalized(config).Ok?
      requires InRange(index, if shardCount == 0 then DEFAULT_SHARDS else shardCount)
      ensures Valid() && contents == map[]
      ensures maxMemory == Normalized(config).value.maxMemory && maxItemSize == Normalized(config).value.maxItemSize
      ensures width == (if shardCount == 0 then DEFAULT_SHARDS else shardCount)
      ensures this.lruSamples == (if lruSamples == 0 then DEFAULT_LRU_SAMPLES else lruSamples)
      ensures this.index == index && this.capacities == capacities && this.observed == observed
    {
      var normal := Normalized(config).value;
      maxMemory, maxItemSize := normal.maxMemory, normal.maxItemSize;
      var count: nat := if shardCount == 0 then DEFAULT_SHARDS else shardCount;
      this.index, this.capacities, this.observed := index, capacities, observed;
      this.lruSamples := if lruSamples == 0 then DEFAULT_LRU_SAMPLES else lruSamples;
      width, shards := count, seq(count, _ => map[]);
      current, entries, lruClock, nextId := 0, 0, 1, 0;
      contents, evictions := map[], map[];
    }

    /** Reads the monotonic clock. */
    method Now() returns (t: Time)
      modifies this`clock
      ensures t == clock && clock >= old(clock)
    {
      var elapsed :| 0 <= elapsed;
      clock := clock + elapsed;
      t := clock;
    }

    /** Deletes one entry and gives its cost back. */
    method Remove(key: Key)
      requires Valid() && key in contents
      modifies this`current, this`entries, this`contents, this`shards
      ensures Valid() && contents == old(contents) - {key}
      ensures current == old(current) - old(contents[key].cost)
    {
      var i := index[key];
      RemoveFacts(contents, key, maxItemSize);
      PartitionRemove(shards, index, contents, key);
      current := current - shards[i][key].cost;
      entries := entries - 1;
      shards := shards[i := shards[i] - {key}];
      contents := contents - {key};
    }

    /** Takes bytes from the budget if they fit. */
    method TryReserve(bytes: int) returns (ok: bool)
      requires Valid()
      modifies this`current
      ensures ok <==> bytes <= 0 || old(current) + bytes <= maxMemory
      ensures Charged(if ok && bytes > 0 then bytes else 0)
    {
      if bytes <= 0 { return true; }
      if current + bytes > maxMemory { return false; }
      current := current + bytes;
      ok := true;
    }

    /** Stores an entry whose extra cost has been reserved, and gives back what it saves. */
    method Install(key: Key, entry: Entry)
      requires entry.cost == ItemCost(key, entry.value) <= maxItemSize
      requires var old' := if key in contents then contents[key].cost else 0;
               Charged(if entry.cost > old' then entry.cost - old' else 0)
      modifies this`current, this`entries, this`contents, this`shards
      ensures Valid() && contents == old(contents)[key := entry]
    {
      InsertFacts(contents, key, entry, maxItemSize);
      PartitionInsert(shards, index, contents, key, entry);
      var i := index[key];
      var delta := entry.cost - if key in shards[i] then shards[i][key].cost else 0;
      if key !in shards[i] { entries := entries + 1; }
      if delta < 0 { current := current + delta; }
      shards := shards[i := shards[i][key := entry]];
      contents := contents[key := entry];
    }

    // ------------------------------------------------------------------ dropping entries

    /** Deletes a key only if it still holds the expected entry and that has run out by `now`; so
        whatever happened since the entry was looked at, no live content changes. */
    method DeleteExpired(key: Key, expected: Entry, now: Time)
      requires Valid()
      modifies this`current, this`entries, this`contents, this`shards
      ensures Valid()
      ensures contents ==
              if key in old(contents) && old(contents)[key].id == expected.id
                 && Expired(old(contents)[key].expiresAt, now)
              then old(contents) - {key} else old(contents)
    {
      PartitionRemove(shards, index, contents, key);
      var shard := shards[index[key]];
      if key in shard && shard[key].id == expected.id && Expired(shard[key].expiresAt, now) { Remove(key); }
    }

    /** Under pressure every shard is swept; exactly the expired entries go. */
    method PurgeExpired(now: Time)
      requires Valid()
      modifies this`current, this`entries, this`contents, this`shards
      ensures Valid() && contents == Unexpired(old(contents), now)
    {
      var i := 0;
      while i < |shards|
        invariant Valid()  && i <= |shards|
        invariant Drops(old(contents), contents)
        invariant forall k <- old(contents) :: k !in contents ==> Expired(old(contents)[k].expiresAt, now)
        invariant forall k <- contents :: index[k] < i ==> !Expired(contents[k].expiresAt, now)
      {
        PurgeExpiredShard(i, now);
        i := i + 1;
      }
    }

    method PurgeExpiredShard(i: nat, now: Time)
      requires Valid() && i < |shards|
      modifies this`current, this`entries, this`contents, this`shards
      ensures Valid()
      ensures Drops(old(contents), contents)
      ensures forall k <- old(contents) ::
                k in contents <==> !(index[k] == i && Expired(old(contents)[k].expiresAt, now))
    {
      var todo := shards[i].Keys;
      while todo != {}
        invariant Valid()  && todo <= shards[i].Keys
        invariant Drops(old(contents), contents)
        invariant forall k <- old(contents) ::
                    k !in contents ==> index[k] == i && Expired(old(contents)[k].expiresAt, now)
        invariant forall k <- contents :: index[k] == i && Expired(contents[k].expiresAt, now) ==> k in todo
      {
        var key :| key in todo;
        assert HoldsPart(shards[i], i, index, contents);
        if Expired(shards[i][key].expiresAt, now) { Remove(key); }
        assert HoldsPart(shards[i], i, index, contents);
        todo := todo - {key};
      }
      assert HoldsPart(shards[i], i, index, contents);
    }

    /** Deletes the candidate if it is still the entry of its key. */
    method TryEvictCandidate(candidate: Candidate) returns (result: EvictionResult)
      requires Valid()
      modifies this`current, this`entries, this`contents, this`shards, this`clock, this`evictions
      ensures Valid() && old(clock) <= clock
      ensures evictions == if result.removed then Evicted1(old(evictions), candidate.key) else old(evictions)
      ensures result.removed <==>
                candidate.key in old(contents) && old(contents)[candidate.key].id == candidate.entry.id
      ensures contents == if result.removed then old(contents) - {candidate.key} else old(contents)
      ensures result.removed ==>
                var e := old(contents)[candidate.key];
                result.bytes == e.cost && result.live == !Expired(e.expiresAt, clock)
    {
      PartitionRemove(shards, index, contents, candidate.key);
      var shard := shards[index[candidate.key]];
      if candidate.key !in shard || shard[candidate.key].id != candidate.entry.id {
        return EvictionResult(false, false, 0);
      }
      var found := shard[candidate.key];
      var expired := false;
      if found.expiresAt.Some? {
        var now := Now();
        expired := Expired(found.expiresAt, now);
      }
      Remove(candidate.key);
      evictions := Evicted1(evictions, candidate.key);
      result := EvictionResult(true, !expired, found.cost);
    }

    /** How many shards an eviction draws at most. */
    function Attempts(): nat
      reads this`shards
    {
      if lruSamples * 4 < |shards| then |shards| else lruSamples * 4
    }

    ghost predicate DrawsFit(draws: seq<Draw>)
      reads this`shards
    {
      |draws| == Attempts() && forall d <- draws :: DrawFits(shards, d)
    }

    /** The random generator and the order of map iteration. */
    method Draws() returns (draws: seq<Draw>)
      requires Valid()
      ensures DrawsFit(draws)
    {
      draws := [];
      while |draws| < Attempts()
        invariant |draws| <= Attempts() && forall d <- draws :: DrawFits(shards, d)
        decreases Attempts() - |draws|
      {
        var x: nat :| x < |shards|;
        var key := "";
        if shards[x] != map[] { key :| key in shards[x]; }
        draws := draws + [Draw(x, key)];
      }
    }

    /** Approximate LRU: looks at one entry of up to `lruSamples` non-empty shards among the draws and
        evicts the least recently used of them; if all draws were empty it takes an entry of the
        first shard that has one.  Whenever there is an entry at all, one goes. */
    method EvictOneLRU(draws: seq<Draw>) returns (result: EvictionResult, ghost victim: Key)
      requires Valid() && DrawsFit(draws)
      modifies this`current, this`entries, this`contents, this`shards, this`clock, this`evictions
      ensures Valid() && old(clock) <= clock
      ensures result.removed <==> old(contents) != map[]
      ensures !result.removed ==> contents == old(contents) && unchanged(`evictions)
      ensures result.removed ==>
                && victim in old(contents) && contents == old(contents) - {victim}
                && evictions == Evicted1(old(evictions), victim)
                && result.bytes == old(contents)[victim].cost
                && (Expired(old(contents)[victim].expiresAt, old(clock)) ==> !result.live)
                && (result.live ==> !Expired(old(contents)[victim].expiresAt, old(clock)))
                && (!result.live ==> Expired(old(contents)[victim].expiresAt, clock))
      ensures result.removed ==>
                var sample := SampleOf(old(shards), draws, lruSamples);
                if sample != [] then victim == Oldest(sample).key
                else forall j :: 0 <= j < index[victim] ==> old(shards)[j] == map[]
    {
      SampleIsHeld(shards, draws, lruSamples);
      var oldest := SampleLRU(shards, draws, lruSamples);
      if oldest.Some? {
        var j :| 0 <= j < |shards| && oldest.value.key in shards[j]
                 && shards[j][oldest.value.key] == oldest.value.entry;
        assert HoldsPart(shards[j], j, index, contents);
      }
      if oldest.None? { oldest := FirstEntry(); }
      if oldest.None? {
        result, victim := EvictionResult(false, false, 0), "";
      } else {
        victim := oldest.value.key;
        result := TryEvictCandidate(oldest.value);
      }
    }

    /** The least recently used entry among the draws. */
    static method SampleLRU(shards: seq<Shard>, draws: seq<Draw>, limit: nat) returns (oldest: Option<Candidate>)
      requires forall d <- draws :: DrawFits(shards, d)
      ensures var sample := SampleOf(shards, draws, limit);
              if sample == [] then oldest.None? else oldest == Some(Oldest(sample))
    {
      oldest := None;
      ghost var sample: seq<Candidate> := [];
      var sampled := 0;
      var i := 0;
      while i < |draws| && sampled < limit
        invariant 0 <= i <= |draws| && sampled == |sample| <= limit
        invariant sample == SampleOf(shards, draws[..i], limit)
        invariant if sample == [] then oldest.None? else oldest == Some(Oldest(sample))
      {
        SampleOneMore(shards, draws, i, limit);
        assert DrawFits(shards, draws[i]);
        var shard := shards[draws[i].shard];
        if shard != map[] {
          var candidate := Candidate(draws[i].key, shard[draws[i].key]);
          OldestOneMore(sample, candidate);
          if oldest.None? || candidate.entry.lastAccess < oldest.value.entry.lastAccess { oldest := Some(candidate); }
          sample := sample + [candidate];
          sampled := sampled + 1;
        }
        i := i + 1;
      }
      FullSample(shards, draws, i, limit);
    }

    /** Some entry of the first shard that has one. */
    method FirstEntry() returns (first: Option<Candidate>)
      requires Valid()
      ensures first.None? <==> contents == map[]
      ensures first.Some? ==>
                && first.value.key in contents && first.value.entry == contents[first.value.key]
                && forall j :: 0 <= j < index[first.value.key] ==> j < |shards| && shards[j] == map[]
    {
      first := None;
      var x := 0;
      while x < |shards| && first.None?
        invariant x <= |shards|
        invariant first.None? ==> forall j :: 0 <= j < x ==> shards[j] == map[]
        invariant first.None? ==> forall k <- contents :: x <= index[k]
        invariant first.Some? ==>
                    && first.value.key in contents && first.value.entry == contents[first.value.key]
                    && forall j :: 0 <= j < index[first.value.key] ==> j < |shards| && shards[j] == map[]
      {
        assert HoldsPart(shards[x], x, index, contents);
        if shards[x] != map[] {
          var key :| key in shards[x];
          first := Some(Candidate(key, shards[x][key]));
        }
        x := x + 1;
      }
      if first.None? { assert forall k <- contents :: false; }
    }

    /** The fill level an eviction for `required` bytes goes down to. */
    function EvictionTarget(required: int): int
    {
      var target := Least(maxMemory - required, maxMemory * EVICTION_TARGET_PERCENT / 100);
      if target < 0 then 0 else target
    }

    /** The books of an eviction run: what is left of `kept`, what the summary must say and why the
        last victim had to go. */
    ghost predicate Evicted(kept: Shard, left: Shard, target: int, summary: EvictionSummary, victim: Key) {
      && Drops(kept, left)
      && summary.bytes <= Sum(kept) - Sum(left) && summary.entries <= |kept| - |left|
      && (left != kept ==> victim in kept && victim !in left && Sum(left) + kept[victim].cost > target)
    }

    ghost predicate FullySummarized(kept: Shard, left: Shard, summary: EvictionSummary) {
      summary == EvictionSummary(|kept| - |left|, Sum(kept) - Sum(left))
    }

    lemma EvictedOneMore(kept: Shard, left: Shard, target: int, summary: EvictionSummary, victim: Key,
                         v: Key, counted: bool)
      requires Evicted(kept, left, target, summary, victim) && v in left && Sum(left) > target
      ensures var summary' :=
                if counted then EvictionSummary(summary.entries + 1, summary.bytes + left[v].cost)
                else summary;
              && Evicted(kept, left - {v}, target, summary', v)
              && (counted && FullySummarized(kept, left, summary) ==> FullySummarized(kept, left - {v}, summary'))
    {
      RemoveFactsOnly(left, v);
    }

    /** Evicts one by one down to the target, whatever the random draws. */
    method EvictDown(target: int) returns (summary: EvictionSummary, ghost victim: Key)
      requires Valid() && 0 <= target
      modifies this`current, this`entries, this`contents, this`shards, this`clock, this`evictions
      ensures Valid() && old(clock) <= clock && current <= target
      ensures Evicted(old(contents), contents, target, summary, victim)
      ensures TakenFrom(old(contents), contents, old(evictions), evictions)
      ensures old(current) <= target ==> contents == old(contents)
      ensures observed && Unexpired(old(contents), clock) == old(contents) ==>
                FullySummarized(old(contents), contents, summary)
    {
      summary, victim := EvictionSummary(0, 0), "";
      ghost var all, taken, start, full := contents, evictions, clock, current;
      var failed := 0;
      while current > target
        invariant Valid() && start <= clock && failed == 0
        invariant Evicted(all, contents, target, summary, victim)
        invariant TakenFrom(all, contents, taken, evictions)
        invariant full <= target ==> contents == all
        invariant observed && Unexpired(all, clock) == all ==> FullySummarized(all, contents, summary)
        decreases |contents|
      {
        var before := current;
        var result;
        result, summary, victim := EvictNext(all, taken, target, summary, victim);
        if result.removed {
          failed := 0;
          continue;
        }
        if current < before {
          failed := 0;
          continue;
        }
        failed := failed + 1;
        if failed >= MAX_EVICTION_RETRIES { break; }
      }
    }

    /** One turn of the eviction loop, with its books. */
    method EvictNext(ghost all: Shard, ghost taken: map<Key, nat>, ghost target: int,
                     before: EvictionSummary, ghost previous: Key)
      returns (result: EvictionResult, summary: EvictionSummary, ghost victim: Key)
      requires Valid() && current > target >= 0
      requires Evicted(all, contents, target, before, previous) && TakenFrom(all, contents, taken, evictions)
      requires observed && Unexpired(all, clock) == all ==> FullySummarized(all, contents, before)
      modifies this`current, this`entries, this`contents, this`shards, this`clock, this`evictions
      ensures Valid() && old(clock) <= clock && result.removed && |contents| < |old(contents)|
      ensures Evicted(all, contents, target, summary, victim) && TakenFrom(all, contents, taken, evictions)
      ensures observed && Unexpired(all, clock) == all ==> FullySummarized(all, contents, summary)
    {
      ghost var left, earlier, history := contents, clock, evictions;
      SumOfNone(contents);
      var draws := Draws();
      result, victim := EvictOneLRU(draws);
      EvictedOneMore(all, left, target, before, previous, victim, result.live && observed);
      TakenOneMore(all, left, taken, history, victim);
      RemoveFactsOnly(left, victim);
      if Unexpired(all, clock) == all {
        StillUnexpired(all, earlier, clock);
        assert victim in Unexpired(all, clock);
      }
      summary := before;
      if result.live && observed { summary := EvictionSummary(before.entries + 1, before.bytes + result.bytes); }
    }

    /** Frees room.  Past the early return it ends at or below its target; live entries go only if
        dropping the expired ones was not enough, and the last one evicted was necessary.
        `kept` is what survived the expired sweep and `victim` the last entry evicted. */
    method EvictFor(required: int) returns (ok: bool, summary: EvictionSummary, ghost kept: Shard, ghost victim: Key)
      requires Valid()
      modifies this`current, this`entries, this`contents, this`shards, this`clock, this`evictions
      ensures Valid() && old(clock) <= clock
      ensures ok <==> required <= maxMemory
      ensures ok ==> current + required <= maxMemory
      ensures Drops(old(contents), contents) && Gone(old(contents), contents, clock, old(evictions), evictions)
      ensures required <= 0 || old(current) + required <= maxMemory ==>
                contents == old(contents) && summary == EvictionSummary(0, 0) && unchanged(`evictions)
      ensures required > 0 && old(current) + required > maxMemory ==>
                && current <= EvictionTarget(required)
                && (exists now :: old(clock) <= now <= clock && kept == Unexpired(old(contents), now))
                && Evicted(kept, contents, EvictionTarget(required), summary, victim)
                && TakenFrom(kept, contents, old(evictions), evictions)
                && (Sum(kept) <= EvictionTarget(required) ==> contents == kept)
                && (observed && Unexpired(kept, clock) == kept ==> FullySummarized(kept, contents, summary))
    {
      summary, kept, victim := EvictionSummary(0, 0), contents, "";
      if required <= 0 || current + required <= maxMemory { return true, summary, kept, victim; }
      var now := Now();
      PurgeExpired(now);
      kept := contents;
      summary, victim := EvictDown(EvictionTarget(required));
      ok := current + required <= maxMemory;
    }

    /** Frees room during an operation that began with the contents `all` and this history. */
    method MakeRoom(required: int, ghost all: Shard, ghost history: map<Key, nat>) returns (ok: bool)
      requires Valid() && Drops(all, contents) && Gone(all, contents, clock, history, evictions)
      modifies this`current, this`entries, this`contents, this`shards, this`clock, this`evictions
      ensures Valid() && old(clock) <= clock
      ensures ok <==> required <= maxMemory
      ensures ok ==> current + required <= maxMemory
      ensures Drops(old(contents), contents) && Drops(all, contents)
      ensures Gone(all, contents, clock, history, evictions)
    {
      ghost var mid, between, now := contents, evictions, clock;
      var evicted, _, _, _ := EvictFor(required);
      ok := evicted;
      GoneTransitive(all, mid, contents, now, clock, history, between, evictions);
    }

    lemma StillUnexpired(m: Shard, earlier: Time, later: Time)
      requires earlier <= later && Unexpired(m, later) == m
      ensures Unexpired(m, earlier) == m
    {
      forall k <- m ensures !Expired(m[k].expiresAt, earlier) { assert k in Unexpired(m, later); }
    }

    // ------------------------------------------------------------------------ operations

    /** The entry of a key, read from its shard. */
    method Find(key: Key) returns (found: Option<Entry>)
      requires Valid()
      ensures found == if key in contents then Some(contents[key]) else None
    {
      PartitionRemove(shards, index, contents, key);
      found := if key in shards[index[key]] then Some(shards[index[key]][key]) else None;
    }

    /** The live entry of a key; one that has run out is dropped on the way. */
    method FindLive(key: Key) returns (found: Option<Entry>)
      requires Valid()
      modifies this`current, this`entries, this`contents, this`shards, this`clock
      ensures Valid() && old(clock) <= clock
      ensures found.Some? <==> key in old(contents) && !Expired(old(contents)[key].expiresAt, clock)
      ensures found.Some? ==> found.value == old(contents)[key] && contents == old(contents)
      ensures found.None? ==> contents == old(contents) - {key} && key !in contents
      ensures SameBut(old(contents), contents, key)
      ensures current == old(current) - if found.Some? then 0 else CostIn(old(contents), key)
    {
      found := Find(key);
      if found.Some? {
        var now := Now();
        if Expired(found.value.expiresAt, now) {
          Remove(key);
          found := None;
        }
      }
    }

    function Accessed(entry: Entry): Entry
      reads this`lruClock
    {
      if entry.lastAccess < lruClock then entry.(lastAccess := lruClock) else entry
    }

    /** The unexpired item with its remaining lifetime, and nothing else: an expired entry is
        dropped on the way, a found one only gets a newer access clock. */
    method Get(key: Key) returns (hit: Option<(Value, Option<Time>)>)
      requires Valid()
      modifies this`current, this`entries, this`contents, this`shards, this`clock
      ensures Valid() && old(clock) <= clock
      ensures hit == Lookup(old(View()), key, clock)
      ensures View() == if hit.Some? then old(View()) else old(View()) - {key}
    {
      FlatMinus(contents, key);
      var found := FindLive(key);
      if found.None? { return None; }
      var entry := found.value;
      FlatUpdates(contents, key, Accessed(entry));
      Install(key, Accessed(entry));
      hit := Some((entry.value, if entry.expiresAt.Some? then Some(entry.expiresAt.value - clock) else None));
    }

    method Forget(key: Key) returns (removed: bool)
      requires Valid()
      modifies this`current, this`entries, this`contents, this`shards, this`clock
      ensures Valid() && old(clock) <= clock
      ensures removed <==> Lookup(old(View()), key, clock).Some?
      ensures View() == old(View()) - {key}
    {
      var found := Find(key);
      FlatMinus(contents, key);
      if found.None? {
        assert contents - {key} == contents;
        return false;
      }
      var now := Now();
      Remove(key);
      removed := !Expired(found.value.expiresAt, now);
    }

    method Touch(key: Key, ttl: Time) returns (r: Result<bool, CacheError>)
      requires Valid()
      modifies this`current, this`entries, this`contents, this`shards, this`clock
      ensures Valid() && old(clock) <= clock
      ensures r == if ttl <= 0 then Err(InvalidTTL) else Ok(Lookup(old(View()), key, clock).Some?)
      ensures View() == if ttl <= 0 then old(View()) else Touched(old(View()), key, ttl, clock)
    {
      if ttl <= 0 { return Err(InvalidTTL); }
      FlatMinus(contents, key);
      var found := FindLive(key);
      if found.None? { return Ok(false); }
      var entry := Accessed(found.value.(expiresAt := Some(clock + ttl)));
      FlatUpdates(contents, key, entry);
      Install(key, entry);
      r := Ok(true);
    }

    method Flush()
      requires Valid()
      modifies this
      ensures Valid() && View() == map[] && current == 0 && entries == 0 && unchanged(`clock)
    {
      var i := 0;
      while i < |shards|
        invariant 0 <= i <= |shards| == width
        invariant forall j :: 0 <= j < i ==> shards[j] == map[]
        modifies this`shards
      {
        shards := shards[i := map[]];
        i := i + 1;
      }
      contents := map[];
      current, entries := 0, 0;
    }

    /** Installs a fresh entry whose extra cost has been reserved. */
    method InstallNew(key: Key, value: Value, expiresAt: Option<Time>)
      requires ItemCost(key, value) <= maxItemSize
      requires var old' := if key in contents then contents[key].cost else 0;
               Charged(if ItemCost(key, value) > old' then ItemCost(key, value) - old' else 0)
      modifies this`current, this`entries, this`contents, this`shards, this`nextId
      ensures Valid() && clock == old(clock) && Writes(old(contents), contents, key, value, expiresAt)
    {
      var entry := Entry(nextId, value, ItemCost(key, value), expiresAt, lruClock);
      nextId := nextId + 1;
      Install(key, entry);
    }

    /** One round of Set or Forever under the shard lock. */
    method TryStore(key: Key, value: Value, ttl: Option<Time>) returns (stored: bool, delta: int)
      requires Valid() && ItemCost(key, value) <= maxItemSize
      modifies this`current, this`entries, this`contents, this`shards, this`clock, this`nextId
      ensures Valid() && old(clock) <= clock
      ensures delta == ItemCost(key, value) - if key in old(contents) then old(contents)[key].cost else 0
      ensures stored <==> delta <= 0 || old(current) + delta <= maxMemory
      ensures !stored ==> contents == old(contents) && current == old(current)
      ensures stored ==> Writes(old(contents), contents, key, value, Deadline(clock, ttl))
    {
      var found := Find(key);
      delta := ItemCost(key, value) - if found.Some? then found.value.cost else 0;
      stored := TryReserve(delta);
      if stored {
        var now := clock;
        if ttl.Some? { now := Now(); }
        InstallNew(key, value, Deadline(now, ttl));
      }
    }

    /** Set and Forever.  An admissible item is always stored: the third round cannot fail, even when
        the eviction takes the very entry being replaced.  Other keys go only under pressure, and
        then only by running out or by eviction. */
    method Store(key: Key, value: Value, ttl: Option<Time>) returns (r: Result<bool, CacheError>)
      requires Valid()
      modifies this
      ensures Valid() && old(clock) <= clock
      ensures ttl.Some? && ttl.value <= 0 ==> r == Err(InvalidTTL)
      ensures !(ttl.Some? && ttl.value <= 0) && ItemCost(key, value) > maxItemSize ==> r == Err(ItemTooLarge)
      ensures r.Err? ==> contents == old(contents) && unchanged(`evictions)
      ensures !(ttl.Some? && ttl.value <= 0) && ItemCost(key, value) <= maxItemSize ==>
                && r == Ok(true) && key in contents
                && contents[key].value == value && contents[key].expiresAt == Deadline(clock, ttl)
                && DropsBut(old(contents), contents, key)
                && Gone(old(contents), contents, clock, old(evictions), evictions)
      ensures r.Ok? && old(current) - CostIn(old(contents), key) + ItemCost(key, value) <= maxMemory ==>
                SameBut(old(contents), contents, key) && unchanged(`evictions)
    {
      var cost := ItemCost(key, value);
      if ttl.Some? && ttl.value <= 0 { return Err(InvalidTTL); }
      if cost > maxItemSize { return Err(ItemTooLarge); }
      ghost var all, first, history, full := contents, CostIn(contents, key), evictions, current;
      for round := 0 to 2
        invariant Valid() && old(clock) <= clock
        invariant Drops(all, contents) && Gone(all, contents, clock, history, evictions)
        invariant round == 0 ==> contents == all && current == full && evictions == history
        invariant round > 0 ==> full - first + cost > maxMemory
        invariant round == 1 ==> key !in contents || current - first + cost <= maxMemory
        invariant round == 2 ==> key !in contents && current + cost <= maxMemory
      {
        var stored, delta := TryStore(key, value, ttl);
        if stored { return Ok(true); }
        var evicted := MakeRoom(delta, all, history);
        if !evicted { return Ok(false); }
      }
      var stored, _ := TryStore(key, value, ttl);
      r := Ok(stored);
    }

    /** One round of Add under the shard lock. */
    method TryAdd(key: Key, value: Value, ttl: Time) returns (present: bool, stored: bool)
      requires Valid() && ItemCost(key, value) <= maxItemSize
      modifies this`current, this`entries, this`contents, this`shards, this`clock, this`nextId
      ensures Valid() && old(clock) <= clock
      ensures present <==> key in old(contents) && !Expired(old(contents)[key].expiresAt, clock)
      ensures present ==> !stored && contents == old(contents)
      ensures !present && !stored ==>
                && key !in contents && SameBut(old(contents), contents, key)
                && maxMemory < current + ItemCost(key, value) <= old(current) + ItemCost(key, value)
      ensures stored ==> Writes(old(contents), contents, key, value, Deadline(clock, Some(ttl)))
    {
      var found := FindLive(key);
      if found.Some? { return true, false; }
      present := false;
      stored := TryReserve(ItemCost(key, value));
      if stored {
        ghost var before := contents;
        InstallNew(key, value, Deadline(clock, Some(ttl)));
        SameButTransitive(old(contents), before, contents, key);
      }
    }

    /** Stores only if the key is absent or has run out by a moment of the call, and then an
        admissible item is always stored: the second round cannot fail.  Other keys go only under
        pressure, and then only by running out or by eviction. */
    method Add(key: Key, value: Value, ttl: Time) returns (r: Result<bool, CacheError>, ghost seen: Time)
      requires Valid()
      modifies this
      ensures Valid() && old(clock) <= clock
      ensures ttl <= 0 ==> r == Err(InvalidTTL)
      ensures ttl > 0 && ItemCost(key, value) > maxItemSize ==> r == Err(ItemTooLarge)
      ensures ttl > 0 && ItemCost(key, value) <= maxItemSize ==>
                old(clock) <= seen <= clock && r == Ok(Lookup(old(View()), key, seen).None?)
      ensures r.Err? || !r.value ==> contents == old(contents) && unchanged(`evictions)
      ensures r.Ok? && r.value ==>
                && key in contents && contents[key].value == value
                && contents[key].expiresAt == Deadline(clock, Some(ttl))
                && DropsBut(old(contents), contents, key)
                && Gone(old(contents), contents, clock, old(evictions), evictions)
      ensures r.Ok? && old(current) + ItemCost(key, value) <= maxMemory ==>
                SameBut(old(contents), contents, key) && unchanged(`evictions)
    {
      seen := clock;
      if ttl <= 0 { return Err(InvalidTTL), seen; }
      if ItemCost(key, value) > maxItemSize { return Err(ItemTooLarge), seen; }
      ghost var all, history := contents, evictions;
      var present, stored := TryAdd(key, value, ttl);
      seen := clock;
      if present { return Ok(false), seen; }
      if stored { return Ok(true), seen; }
      var evicted := MakeRoom(ItemCost(key, value), all, history);
      if !evicted { return Ok(false), seen; }
      present, stored := TryAdd(key, value, ttl);
      r := Ok(stored);
    }

    // -------------------------------------------------------------------------- counters

    /** A fresh decimal text with its capacity. */
    function Encoded(text: string): Value {
      Value(text, if |text| in capacities then capacities[|text|] else 0)
    }

    /** The result of a change to `base`: exact, or refused because the arithmetic or the size of the
        new text forbids it. */
    predicate Agrees(key: Key, base: Option<Entry>, change: Change, r: Result<int64, CounterError>) {
      match Expected(base, change)
      case Err(e) => r == Err(e)
      case Ok(text) =>
        if ItemCost(key, Encoded(text)) > maxItemSize then r == Err(TooLarge)
        else r.Ok? && FormatInt(r.value) == text
    }

    /** The new value of a counter, or why there is none. */
    method NewCount(key: Key, found: Option<Entry>, change: Change) returns (r: Result<int64, CounterError>)
      ensures Agrees(key, found, change, r)
      ensures r.Ok? ==> ItemCost(key, Encoded(FormatInt(r.value))) <= maxItemSize
    {
      var parsed := if found.None? then Some(0) else ParseInt(found.value.value.text);
      if parsed.None? { return Err(NotAnInteger); }
      r := CounterResult(parsed.value, change.value, change.decrement);
      if r.Ok? && ItemCost(key, Encoded(FormatInt(r.value))) > maxItemSize { return Err(TooLarge); }
    }

    /** One round of Increment or Decrement under the shard lock; `base` is the live entry it
        started from. */
    method TryCount(key: Key, change: Change)
      returns (r: Result<int64, CounterError>, stored: bool, delta: int, ghost base: Option<Entry>)
      requires Valid()
      modifies this`current, this`entries, this`contents, this`shards, this`clock, this`nextId
      ensures Valid() && old(clock) <= clock
      ensures base ==
              if key in old(contents) && !Expired(old(contents)[key].expiresAt, clock) then Some(old(contents)[key])
              else None
      ensures Agrees(key, base, change, r)
      ensures r.Ok? ==>
                && delta == ItemCost(key, Encoded(FormatInt(r.value))) - (if base.Some? then base.value.cost else 0)
                && ItemCost(key, Encoded(FormatInt(r.value))) <= maxItemSize
      ensures stored ==> r.Ok? && Writes(old(contents), contents, key, Encoded(FormatInt(r.value)), DeadlineOf(base))
      ensures !stored && base.Some? ==> contents == old(contents)
      ensures !stored && base.None? ==> key !in contents && SameBut(old(contents), contents, key)
      ensures r.Ok? && !stored ==>
                maxMemory < current + delta
                          == old(current) - CostIn(old(contents), key) + ItemCost(key, Encoded(FormatInt(r.value)))
      ensures r.Err? ==> !stored
    {
      var found := FindLive(key);
      base, delta, stored := found, 0, false;
      r := NewCount(key, found, change);
      if r.Err? { return; }
      var value := Encoded(FormatInt(r.value));
      delta := ItemCost(key, value) - if found.Some? then found.value.cost else 0;
      stored := TryReserve(delta);
      if stored {
        ghost var before := contents;
        InstallNew(key, value, if found.Some? then found.value.expiresAt else None);
        SameButTransitive(old(contents), before, contents, key);
      }
    }

    /** Where a counter operation that began with the contents `all` took its value from: the entry
        of that time, or nothing because the key was missing, has run out or has been evicted. */
    ghost predicate BasedOn(base: Option<Entry>, all: Shard, key: Key, began: Time, history: map<Key, nat>)
      reads this`clock, this`evictions
    {
      if base.Some? then key in all && base.value == all[key] && !Expired(base.value.expiresAt, began)
      else key !in all || Expired(all[key].expiresAt, clock) || Times(history, key) < Times(evictions, key)
    }

    /** One round of Increment or Decrement, seen from an operation that began with `all`. */
    method CountOnce(key: Key, change: Change, ghost all: Shard, ghost began: Time, ghost history: map<Key, nat>)
      returns (r: Result<int64, CounterError>, done: bool, delta: int, ghost base: Option<Entry>)
      requires Valid() && began <= clock && Drops(all, contents) && Gone(all, contents, clock, history, evictions)
      modifies this`current, this`entries, this`contents, this`shards, this`clock, this`nextId
      ensures Valid() && old(clock) <= clock && Agrees(key, base, change, r) && r != Err(InsufficientMemory)
      ensures BasedOn(base, all, key, began, history) && SameBut(old(contents), contents, key)
      ensures if done then Gone(all - {key}, contents, clock, history, evictions)
              else Drops(all, contents) && Gone(all, contents, clock, history, evictions)
      ensures done && r.Ok? ==>
                && key in contents && contents[key].value == Encoded(FormatInt(r.value))
                && contents[key].expiresAt == DeadlineOf(base)
      ensures base.Some? ==> key in old(contents) && base.value == old(contents)[key]
      ensures !done ==>
                && r.Ok? && (if base.Some? then contents == old(contents) else key !in contents)
                && delta == ItemCost(key, Encoded(FormatInt(r.value))) - (if base.Some? then base.value.cost else 0)
                && ItemCost(key, Encoded(FormatInt(r.value))) <= maxItemSize
                && Excess(old(contents), old(current), key, r) > maxMemory
      ensures r.Err? ==> if base.Some? then key in contents && contents[key] == base.value else key !in contents
    {
      var stored;
      ghost var before, now := contents, clock;
      r, stored, delta, base := TryCount(key, change);
      done := r.Err? || stored;
      GoneBut(all, before, contents, key, now, clock, history, evictions);
    }

    /** One round and, if the bytes do not fit, the eviction that follows. */
    method CountRound(key: Key, change: Change, ghost all: Shard, ghost began: Time, ghost history: map<Key, nat>)
      returns (r: Result<int64, CounterError>, done: bool, ghost base: Option<Entry>)
      requires Valid() && began <= clock && Drops(all, contents) && Gone(all, contents, clock, history, evictions)
      modifies this
      ensures Valid() && old(clock) <= clock && Agrees(key, base, change, r) && r != Err(InsufficientMemory)
      ensures done ==>
                && BasedOn(base, all, key, began, history) && unchanged(`evictions)
                && SameBut(old(contents), contents, key) && Gone(all - {key}, contents, clock, history, evictions)
      ensures done && r.Ok? ==>
                && key in contents && contents[key].value == Encoded(FormatInt(r.value))
                && contents[key].expiresAt == DeadlineOf(base)
      ensures !done ==>
                && Drops(all, contents) && Gone(all, contents, clock, history, evictions)
                && r.Ok? && ItemCost(key, Encoded(FormatInt(r.value))) <= maxItemSize
                && Excess(old(contents), old(current), key, r) > maxMemory
                && NextFits(key, change, r)
      ensures !done && base.None? ==>
                && key !in contents && Expected(None, change) == Ok(FormatInt(r.value))
                && Excess(contents, current, key, r) <= maxMemory
      ensures base.Some? ==> key in old(contents) && base.value == old(contents)[key]
      ensures r.Err? ==> if base.Some? then key in contents && contents[key] == base.value else key !in contents
    {
      var delta;
      r, done, delta, base := CountOnce(key, change, all, began, history);
      if !done {
        var evicted := MakeRoom(delta, all, history);
      }
    }

    /** After an eviction there is room for the result that the entry found next leads to, unless it
        was the entry itself that went. */
    ghost predicate NextFits(key: Key, change: Change, r: Result<int64, CounterError>)
      requires r.Ok?
      reads this
    {
      key in contents ==>
        Expected(Some(contents[key]), change) == Ok(FormatInt(r.value))
        && Excess(contents, current, key, r) <= maxMemory
    }

    /** The bytes in use once the key holds this result. */
    function Excess(m: Shard, current: int, key: Key, r: Result<int64, CounterError>): int
      requires r.Ok?
    {
      current - CostIn(m, key) + ItemCost(key, Encoded(FormatInt(r.value)))
    }

    /** Next to everything else in use, which is `rest` bytes, any admissible counter fits. */
    ghost predicate RoomFor(key: Key, rest: int) {
      forall x: int64 :: ItemCost(key, Encoded(FormatInt(x))) <= maxItemSize ==>
        rest + ItemCost(key, Encoded(FormatInt(x))) <= maxMemory
    }

    /** Increment and Decrement.  The result is exact with respect to `base`: the entry found at the
        start, or none if the key was missing, had run out, or was evicted by the operation itself,
        in which case the counter silently restarts from zero.  Memory never runs short: the third
        round cannot fail. */
    method Count(key: Key, change: Change) returns (r: Result<int64, CounterError>, ghost base: Option<Entry>)
      requires Valid()
      modifies this
      ensures Valid() && old(clock) <= clock
      ensures BasedOn(base, old(contents), key, old(clock), old(evictions))
      ensures Agrees(key, base, change, r) && r != Err(InsufficientMemory)
      ensures r.Ok? ==>
                && key in contents && contents[key].value == Encoded(FormatInt(r.value))
                && contents[key].expiresAt == DeadlineOf(base)
      ensures DropsBut(old(contents), contents, key)
              && Gone(old(contents) - {key}, contents, clock, old(evictions), evictions)
      ensures RoomFor(key, old(current) - CostIn(old(contents), key)) ==>
                SameBut(old(contents), contents, key) && unchanged(`evictions)
      ensures r.Err? ==> if base.Some? then key in contents && contents[key] == base.value else key !in contents
    {
      ghost var all, history, full, start := contents, evictions, current, clock;
      var done;
      r := Err(InsufficientMemory);
      for round := 0 to 2
        invariant Valid() && start <= clock
        invariant Drops(all, contents) && Gone(all, contents, clock, history, evictions)
        invariant round == 0 ==> contents == all && current == full && evictions == history
        invariant round > 0 ==> r.Ok? && !RoomFor(key, full - CostIn(all, key))
        invariant round == 1 ==> NextFits(key, change, r)
        invariant round == 2 ==>
                    && key !in contents && Expected(None, change) == Ok(FormatInt(r.value))
                    && Excess(contents, current, key, r) <= maxMemory
      {
        r, done, base := CountRound(key, change, all, start, history);
        if done { return; }
      }
      r, done, base := CountRound(key, change, all, start, history);
    }

    /** Nothing but the entry of this key has changed since the contents were `all` and next to it
        `rest` bytes were in use. */
    ghost predicate Spared(key: Key, all: Shard, rest: int, history: map<Key, nat>)
      reads this`contents, this`current, this`evictions
    {
      SameBut(all, contents, key) && current - CostIn(contents, key) == rest && evictions == history
    }

    /** One operation of a run on one key. */
    method CountNext(key: Key, change: Change, ghost before: Option<Entry>, ghost past: seq<Change>,
                     ghost all: Shard, ghost rest: int, ghost history: map<Key, nat>)
      returns (r: Result<int64, CounterError>)
      requires Valid()
      modifies this
      ensures Valid() && old(clock) <= clock && Times(old(evictions), key) <= Times(evictions, key)
      ensures r.Err? ==> Agrees(key, EntryOf(contents, key), change, r)
      ensures old(CountedTo(EntryOf(contents, key), before, past))
              && Times(old(evictions), key) == Times(evictions, key) && !Expired(DeadlineOf(before), clock) ==>
                CountedTo(EntryOf(contents, key), before, if r.Ok? then past + [change] else past)
      ensures RoomFor(key, rest) && old(Spared(key, all, rest, history)) ==> Spared(key, all, rest, history)
    {
      ghost var mid := contents;
      ghost var base;
      r, base := Count(key, change);
      if SameBut(all, mid, key) && SameBut(mid, contents, key) {
        RestStays(mid, contents, key);
        SameButTransitive(all, mid, contents, key);
      }
      ChangedByOneMore(TextOf(before), past, change);
    }

    /** Any run of counter operations on one key, up to the first error.  Unless the counter itself
        is evicted or runs out meanwhile, the stored text is the initial value plus the net change
        and the deadline stays.  While any counter fits in, nothing is evicted and no other key
        changes. */
    method CountAll(key: Key, changes: seq<Change>) returns (error: Option<CounterError>, done: nat)
      requires Valid()
      modifies this
      ensures Valid() && old(clock) <= clock && done <= |changes| && (error.None? <==> done == |changes|)
      ensures error.Some? ==> Agrees(key, EntryOf(contents, key), changes[done], Err(error.value))
      ensures var before := EntryOf(old(contents), key);
              Times(old(evictions), key) == Times(evictions, key) && !Expired(DeadlineOf(before), clock) ==>
                ExactlyCountedTo(EntryOf(contents, key), before, changes[..done])
      ensures RoomFor(key, old(current) - CostIn(old(contents), key)) ==>
                SameBut(old(contents), contents, key) && unchanged(`evictions)
    {
      ghost var all, history, start, before := contents, evictions, clock, EntryOf(contents, key);
      ghost var rest := current - CostIn(contents, key);
      error, done := None, 0;
      while done < |changes|
        invariant Valid() && start <= clock && done <= |changes|
        invariant Times(history, key) <= Times(evictions, key)
        invariant Times(history, key) == Times(evictions, key) && !Expired(DeadlineOf(before), clock) ==>
                    CountedTo(EntryOf(contents, key), before, changes[..done])
        invariant RoomFor(key, rest) ==> Spared(key, all, rest, history)
      {
        OneMoreChange(changes, done);
        var r := CountNext(key, changes[done], before, changes[..done], all, rest, history);
        if r.Err? {
          error := Some(r.error);
          break;
        }
        done := done + 1;
      }
      CountIsExact(EntryOf(contents, key), before, changes[..done]);
    }

    // --------------------------------------------------------------------------- cleanup

    /** Under the read lock, the expired ones among up to `sampleSize` entries of a shard. */
    static method SampleExpired(shard: Shard, now: Time, sampleSize: int) returns (candidates: seq<Candidate>)
      ensures forall c <- candidates :: c.key in shard && c.entry == shard[c.key] && Expired(c.entry.expiresAt, now)
      ensures |shard| <= sampleSize ==>
                forall k <- shard :: Expired(shard[k].expiresAt, now) ==> Candidate(k, shard[k]) in candidates
    {
      candidates := [];
      var unseen := shard.Keys;
      var sampled := 0;
      while unseen != {} && sampled < sampleSize
        invariant unseen <= shard.Keys && |shard.Keys| == |unseen| + sampled
        invariant forall c <- candidates :: c.key in shard && c.entry == shard[c.key] && Expired(c.entry.expiresAt, now)
        invariant forall k <- shard.Keys - unseen ::
                    Expired(shard[k].expiresAt, now) ==> Candidate(k, shard[k]) in candidates
        decreases unseen
      {
        var key :| key in unseen;
        var entry := shard[key];
        if Expired(entry.expiresAt, now) { candidates := candidates + [Candidate(key, entry)]; }
        sampled := sampled + 1;
        unseen := unseen - {key};
      }
    }

    /** Deletes the candidates, each only if it is still the entry of its key and has run out by
        `now`; the candidates may be out of date in every way. */
    method DeleteCandidates(candidates: seq<Candidate>, now: Time)
      requires Valid()
      modifies this`current, this`entries, this`contents, this`shards
      ensures Valid()
      ensures Drops(old(contents), contents)
      ensures forall k <- old(contents) :: k !in contents <==> Listed(candidates, k, old(contents)[k], now)
    {
      var x := 0;
      while x < |candidates|
        invariant 0 <= x <= |candidates| && Valid()
        invariant Drops(old(contents), contents)
        invariant forall k <- old(contents) :: k !in contents <==> Listed(candidates[..x], k, old(contents)[k], now)
      {
        ghost var before := contents;
        DeleteExpired(candidates[x].key, candidates[x].entry, now);
        ListedOneMore(candidates, x, old(contents), before, contents, now);
        x := x + 1;
      }
      assert candidates[..x] == candidates;
    }

    /** Samples one shard and deletes what had run out.  A shard no larger than the sample is left
        without any expired entry. */
    method PurgeExpiredSample(i: nat, now: Time, sampleSize: int)
      requires Valid() && i < |shards|
      modifies this`current, this`entries, this`contents, this`shards
      ensures Valid()
      ensures OnlyExpiredGone(old(contents), contents, now)
      ensures forall k <- old(contents) :: k !in contents ==> index[k] == i
      ensures |old(shards)[i]| <= sampleSize ==> Swept(contents, index, i, now)
    {
      assert HoldsPart(shards[i], i, index, contents);
      if sampleSize <= 0 { return; }
      ghost var shard := shards[i];
      var candidates := SampleExpired(shards[i], now, sampleSize);
      DeleteCandidates(candidates, now);
    }

    /** One maintenance tick: sweeps up to sixteen shards round-robin from the cursor. */
    method PurgeExpiredBackgroundBatch(now: Time, nextShard: nat) returns (cursor: nat)
      requires Valid() && nextShard < |shards|
      modifies this`current, this`entries, this`contents, this`shards
      ensures Valid() && OnlyExpiredGone(old(contents), contents, now)
      ensures cursor == Advance(nextShard, Least(CLEANUP_SHARDS_PER_TICK, width), width)
      ensures var steps := Least(CLEANUP_SHARDS_PER_TICK, width);
              SweptAhead(contents, old(shards), index, nextShard, steps, CLEANUP_SAMPLE, now)
    {
      var toScan := Least(CLEANUP_SHARDS_PER_TICK, width);
      cursor := nextShard;
      var i := 0;
      while i < toScan
        invariant 0 <= i <= toScan && Valid()
        invariant cursor == Advance(nextShard, i, width)
        invariant OnlyExpiredGone(old(contents), contents, now)
        invariant SweptAhead(contents, old(shards), index, nextShard, i, CLEANUP_SAMPLE, now)
      {
        ShardShrinks(old(shards), old(contents), shards, contents, index, cursor);
        ghost var before := contents;
        PurgeExpiredSample(cursor, now, CLEANUP_SAMPLE);
        SweptOneMore(before, contents, old(shards), index, nextShard, i, CLEANUP_SAMPLE, now);
        cursor := cursor + 1;
        if cursor == |shards| { cursor := 0; }
        i := i + 1;
      }
    }

    /** One turn of the maintenance loop: access times advance by one. */
    method DoTick(nextShard: nat) returns (cursor: nat)
      requires Valid() && nextShard < |shards|
      modifies this`current, this`entries, this`contents, this`shards, this`clock, this`lruClock
      ensures Valid() && old(clock) <= clock && lruClock == old(lruClock) + 1
      ensures OnlyExpiredGone(old(contents), contents, clock)
      ensures cursor == Advance(nextShard, Least(CLEANUP_SHARDS_PER_TICK, width), width)
      ensures var steps := Least(CLEANUP_SHARDS_PER_TICK, width);
              SweptAhead(contents, old(shards), index, nextShard, steps, CLEANUP_SAMPLE, clock)
    {
      var now := Now();
      lruClock := lruClock + 1;
      cursor := PurgeExpiredBackgroundBatch(now, nextShard);
    }

    /** Any other operation: nothing it leaves behind has run out unless it was there before, and it
        brings in at most one key. */
    method Perform(c: Command)
      requires Valid() && !c.Tick?
      modifies this
      ensures Valid() && old(clock) <= clock
      ensures NothingStale(old(contents), contents, old(clock))
      ensures GrownBy(old(shards), shards, if Grows(c) then 1 else 0)
    {
      ghost var parts, before, then' := shards, contents, clock;
      if Grows(c) {
        PerformWrite(c);
        ShardGrows(parts, before, shards, contents, index, {c.key});
      } else {
        PerformOther(c);
        NothingStaleFlat(before, contents, then');
        ShardGrows(parts, before, shards, contents, index, {});
      }
    }

    method PerformWrite(c: Command)
      requires Valid() && Grows(c)
      modifies this
      ensures Valid() && old(clock) <= clock
      ensures NothingStale(old(contents), contents, old(clock)) && contents.Keys <= old(contents).Keys + {c.key}
    {
      match c {
        case DoSet(key, value, ttl) => var stored := Store(key, value, ttl);
        case DoAdd(key, value, lifetime) => var stored, seen := Add(key, value, lifetime);
        case DoCount(key, change) => var r, base := Count(key, change);
      }
    }

    method PerformOther(c: Command)
      requires Valid() && !c.Tick? && !Grows(c)
      modifies this
      ensures Valid() && old(clock) <= clock
      ensures NothingStaleSeen(old(View()), View(), old(clock))
    {
      match c {
        case DoGet(key) => var hit := Get(key);
        case DoTouch(key, lifetime) => var touched := Touch(key, lifetime);
        case DoForget(key) => var removed := Forget(key);
        case DoFlush => Flush();
      }
    }

    /** One command of such a run. */
    method Step(c: Command, nextShard: nat, ghost parts0: seq<Shard>, ghost from: nat, ghost past: seq<Command>,
                ghost limit: int, ghost first: Time)
      returns (cursor: nat)
      requires Valid() && nextShard < |shards| && from < |shards| && first <= clock
      requires Underway(parts0, shards, contents, index, from, nextShard, past, limit, first)
      requires Growth(past) + limit <= CLEANUP_SAMPLE
      modifies this
      ensures Valid() && old(clock) <= clock && cursor < |shards|
      ensures Underway(parts0, shards, contents, index, from, cursor, past + [c], limit, first)
      ensures c.Tick? ==> OnlyExpiredGone(old(contents), contents, clock) && lruClock == old(lruClock) + 1
    {
      ghost var before, parts, now := contents, shards, clock;
      if c.Tick? {
        cursor := DoTick(nextShard);
        ShardGrows(parts, before, shards, contents, index, {});
        TickGoesOn(parts0, parts, before, shards, contents, index, from, nextShard, cursor, past, limit, first, clock);
      } else {
        cursor := nextShard;
        Perform(c);
        OtherGoesOn(parts0, parts, before, shards, contents, index, from, cursor, past, c, limit, first, now);
      }
    }

    /** The maintenance loop with its cursor anywhere and any other operations in between.  Once the
        ticks add up to a full round every shard has been swept: unless its entries and those that
        the other operations may have added were more than a sample, nothing is left in it that had
        run out at the beginning.  Left to itself, cleanup stays invisible. */
    method RunFrom(script: seq<Command>, from: nat) returns (cursor: nat)
      requires Valid() && from < |shards|
      modifies this
      ensures Valid() && old(clock) <= clock && cursor < |shards|
      ensures FullRound(Ticks(script), width) ==>
                AllSwept(contents, old(shards), index, CLEANUP_SAMPLE - Growth(script), old(clock))
      ensures Invisible(script, old(contents), contents, clock, old(lruClock), lruClock)
    {
      ghost var parts0, all0, first, lru0 := shards, contents, clock, lruClock;
      ghost var limit := CLEANUP_SAMPLE - Growth(script);
      cursor := from;
      var x := 0;
      while x < |script|
        invariant 0 <= x <= |script| && Valid() && cursor < |shards| && first <= clock
        invariant Underway(parts0, shards, contents, index, from, cursor, script[..x], limit, first)
        invariant Invisible(script[..x], all0, contents, clock, lru0, lruClock)
      {
        ghost var before, then', lru := contents, clock, lruClock;
        GrowthSoFar(script, x);
        cursor := Step(script[x], cursor, parts0, from, script[..x], limit, first);
        StaysInvisible(script[..x], script[x], all0, before, contents, then', clock, lru0, lru, lruClock);
        x := x + 1;
      }
      assert script[..x] == script;
      RoundIsOver(parts0, shards, contents, index, from, cursor, script, limit, first);
    }

    /** The maintenance loop as it starts, undisturbed. */
    method RunMaintenance(ticks: nat) returns (nextCleanupShard: nat)
      requires Valid()
      modifies this
      ensures Valid() && old(clock) <= clock && lruClock == old(lruClock) + ticks && nextCleanupShard < |shards|
      ensures OnlyExpiredGone(old(contents), contents, clock)
      ensures FullRound(ticks, width) ==>
                AllSwept(contents, old(shards), index, CLEANUP_SAMPLE, old(clock))
    {
      var script := seq(ticks, _ => Tick);
      TicksOfOnlyTicks(script);
      nextCleanupShard := RunFrom(script, 0);
    }
  }
}
