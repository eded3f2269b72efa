/**
 The lock-free L2 statistics: any number of concurrent ObserveL2 calls interleaved with any number
 of scrapes, every atomic add and load being a step of its own, and the exported histogram.
 */
module Metrics {
  const OPERATIONS: nat := 12
  const ERROR_CLASSES: nat := 2
  const BUCKETS: nat := 16

  const MICROSECOND := 1_000
  const MILLISECOND := 1_000_000
  const SECOND := 1_000_000_000

  /** Upper bounds in nanoseconds; one more bucket is unbounded. */
  const BOUNDS: seq<int> := [
    100 * MICROSECOND, 500 * MICROSECOND, MILLISECOND, 2_500 * MICROSECOND, 5 * MILLISECOND,
    10 * MILLISECOND, 25 * MILLISECOND, 50 * MILLISECOND, 100 * MILLISECOND, 250 * MILLISECOND,
    500 * MILLISECOND, SECOND, 2_500 * MILLISECOND, 5 * SECOND, 10 * SECOND]

  predicate Increasing(bounds: seq<int>) {
    forall i, j :: 0 <= i < j < |bounds| ==> bounds[i] < bounds[j]
  }

  lemma BoundsIncrease()
    ensures |BOUNDS| == BUCKETS - 1 && Increasing(BOUNDS)
  {
  }

  // -------------------------------------------------------------------------------- sums

  function Sum(s: seq<nat>): nat {
    if s == [] then 0 else Sum(s[..|s| - 1]) + s[|s| - 1]
  }

  lemma {:induction false} SumUpdate(s: seq<nat>, i: nat, x: nat)
    requires i < |s|
    ensures Sum(s[i := x]) == Sum(s) - s[i] + x
  {
    var n := |s| - 1;
    if i == n {
      assert s[i := x][..n] == s[..n];
    } else {
      SumUpdate(s[..n], i, x);
      assert s[i := x][..n] == s[..n][i := x];
    }
  }

  lemma {:induction false} SumMonotone(s: seq<nat>, t: seq<nat>)
    requires |s| == |t| && forall i :: 0 <= i < |s| ==> s[i] <= t[i]
    ensures Sum(s) <= Sum(t)
  {
    if s != [] { SumMonotone(s[..|s| - 1], t[..|t| - 1]); }
  }

  // ------------------------------------------------------------------------------- state

  /** `times` is history: the durations in the order in which their buckets were filled. */
  datatype Statistics = Statistics(calls: nat, errors: seq<nat>, buckets: seq<nat>, sum: nat, times: seq<int>)

  /** How far an ObserveL2 call got; the class of a call without error is out of range. */
  datatype Call =
    | Idle
    | Called(op: nat, elapsed: int, class': nat)
    | Timed(op: nat, elapsed: int, class': nat)
    | Bucketed(op: nat, class': nat)

  /** A scrape fills its snapshot cell by cell: per operation the error classes, the buckets, the
      sum and at last the number of calls. */
  datatype Scrape = Scrape(op: nat, cell: nat, snapshot: seq<Statistics>)

  datatype Metrics = Metrics(l2: seq<Statistics>, calls: seq<Call>, scrapes: seq<Scrape>)

  /** The first bucket whose upper bound is not exceeded. */
  function BucketFrom(bounds: seq<int>, elapsed: int, i: nat): (b: nat)
    requires i <= |bounds|
    ensures i <= b <= |bounds|
    ensures b < |bounds| ==> elapsed <= bounds[b]
    ensures forall j :: i <= j < b ==> elapsed > bounds[j]
    decreases |bounds| - i
  {
    if i == |bounds| || elapsed <= bounds[i] then i else BucketFrom(bounds, elapsed, i + 1)
  }

  function NotNegative(elapsed: int): nat {
    if elapsed < 0 then 0 else elapsed
  }

  function Blank(): Statistics {
    Statistics(0, seq(ERROR_CLASSES, _ => 0), seq(BUCKETS, _ => 0), 0, [])
  }

  function Bump(s: seq<nat>, i: nat): seq<nat> {
    if i < |s| then s[i := s[i] + 1] else s
  }

  // ------------------------------------------------------------------------------- steps

  /** The next atomic add of an ObserveL2 call, as a change of the call and of its operation. */
  function Observed(c: Call, s: Statistics): (Call, Statistics)
  {
    match c
    case Idle => (c, s)
    case Called(op, elapsed, class') =>
      (Timed(op, NotNegative(elapsed), class'), s.(sum := s.sum + NotNegative(elapsed)))
    case Timed(op, elapsed, class') =>
      (Bucketed(op, class'), s.(buckets := Bump(s.buckets, BucketFrom(BOUNDS, elapsed, 0)),
                             times := s.times + [elapsed]))
    case Bucketed(op, class') => (Idle, s.(errors := Bump(s.errors, class')))
  }

  ghost predicate Begin(m: Metrics, m': Metrics, t: nat, op: nat, elapsed: int, class': nat) {
    && t < |m.calls| && m.calls[t].Idle? && op < |m.l2|
    && m' == m.(calls := m.calls[t := Called(op, elapsed, class')],
                l2 := m.l2[op := m.l2[op].(calls := m.l2[op].calls + 1)])
  }

  ghost predicate Continue(m: Metrics, m': Metrics, t: nat) {
    && t < |m.calls| && !m.calls[t].Idle? && m.calls[t].op < |m.l2|
    && var op := m.calls[t].op;
       var (c, s) := Observed(m.calls[t], m.l2[op]);
       m' == m.(calls := m.calls[t := c], l2 := m.l2[op := s])
  }

  /** The snapshot of one operation after loading one more cell. */
  function Loaded(snap: Statistics, s: Statistics, cell: nat): Statistics
  {
    if cell < |snap.errors| && cell < |s.errors| then snap.(errors := snap.errors[cell := s.errors[cell]])
    else if |s.errors| <= cell < |s.errors| + |s.buckets| && cell - |s.errors| < |snap.buckets| then
      snap.(buckets := snap.buckets[cell - |s.errors| := s.buckets[cell - |s.errors|]])
    else if cell == |s.errors| + |s.buckets| then snap.(sum := s.sum)
    else snap.(calls := s.calls)
  }

  const CELLS: nat := ERROR_CLASSES + BUCKETS + 2

  ghost predicate Load(m: Metrics, m': Metrics, x: nat) {
    && x < |m.scrapes|
    && var r := m.scrapes[x];
       && r.op < |m.l2| == |r.snapshot| && r.cell < CELLS
       && var snapshot := r.snapshot[r.op := Loaded(r.snapshot[r.op], m.l2[r.op], r.cell)];
          var next := if r.cell + 1 < CELLS then Scrape(r.op, r.cell + 1, snapshot) else Scrape(r.op + 1, 0, snapshot);
          m' == m.(scrapes := m.scrapes[x := next])
  }

  ghost predicate Rescrape(m: Metrics, m': Metrics, x: nat) {
    x < |m.scrapes| && m' == m.(scrapes := m.scrapes[x := Scrape(0, 0, seq(|m.l2|, _ => Blank()))])
  }

  ghost predicate Next(m: Metrics, m': Metrics) {
    || (exists t, op, elapsed, class' :: Begin(m, m', t, op, elapsed, class'))
    || (exists t :: Continue(m, m', t))
    || (exists x :: Load(m, m', x))
    || (exists x :: Rescrape(m, m', x))
  }

  ghost predicate Init(m: Metrics) {
    && m.l2 == seq(OPERATIONS, _ => Blank())
    && Quiet(m.calls)
    && (forall r <- m.scrapes :: r == Scrape(0, 0, seq(OPERATIONS, _ => Blank())))
  }

  ghost predicate Run(ms: seq<Metrics>) {
    ms != [] && Init(ms[0]) && forall i :: 0 <= i < |ms| - 1 ==> Next(ms[i], ms[i + 1])
  }

  /** The buckets that a list of durations fills. */
  function Filled(times: seq<int>): (b: seq<nat>)
    ensures |b| == BUCKETS
  {
    if times == [] then seq(BUCKETS, _ => 0)
    else Bump(Filled(times[..|times| - 1]), BucketFrom(BOUNDS, times[|times| - 1], 0))
  }

  lemma FilledOneMore(times: seq<int>, elapsed: int)
    ensures Filled(times + [elapsed]) == Bump(Filled(times), BucketFrom(BOUNDS, elapsed, 0))
  {
    assert (times + [elapsed])[..|times|] == times;
  }

  // ---------------------------------------------------------------------------- invariant

  /** Whether a call on `op` still owes a bucket, or (`late`) an error. */
  function Owes(c: Call, op: nat, late: bool): nat {
    if !c.Idle? && c.op == op && (late || !c.Bucketed?) then 1 else 0
  }

  function Owing(calls: seq<Call>, op: nat, late: bool): nat {
    if calls == [] then 0 else Owing(calls[..|calls| - 1], op, late) + Owes(calls[|calls| - 1], op, late)
  }

  lemma {:induction false} OwingUpdate(calls: seq<Call>, op: nat, late: bool, t: nat, c: Call)
    requires t < |calls|
    ensures Owing(calls[t := c], op, late) == Owing(calls, op, late) - Owes(calls[t], op, late) + Owes(c, op, late)
  {
    var n := |calls| - 1;
    if t == n {
      assert calls[t := c][..n] == calls[..n];
    } else {
      OwingUpdate(calls[..n], op, late, t, c);
      assert calls[t := c][..n] == calls[..n][t := c];
    }
  }

  predicate Quiet(calls: seq<Call>) {
    forall i :: 0 <= i < |calls| ==> calls[i].Idle?
  }

  lemma {:induction false} NobodyOwes(calls: seq<Call>, op: nat, late: bool)
    requires Quiet(calls)
    ensures Owing(calls, op, late) == 0
  {
    if calls != [] { NobodyOwes(calls[..|calls| - 1], op, late); }
  }

  /** Every call was counted before it fills a bucket and before it counts an error. */
  ghost predicate Counted(s: Statistics, calls: seq<Call>, op: nat) {
    && |s.errors| == ERROR_CLASSES && |s.buckets| == BUCKETS && s.buckets == Filled(s.times)
    && Sum(s.buckets) + Owing(calls, op, false) == s.calls
    && Sum(s.errors) + Owing(calls, op, true) <= s.calls
  }

  /** Each loaded cell is no more than the counter is now. */
  ghost predicate Below(a: Statistics, b: Statistics) {
    && |a.errors| == |b.errors| && |a.buckets| == |b.buckets|
    && (forall i :: 0 <= i < |a.errors| ==> a.errors[i] <= b.errors[i])
    && (forall i :: 0 <= i < |a.buckets| ==> a.buckets[i] <= b.buckets[i])
  }

  ghost predicate Consistent(s: Statistics) {
    Sum(s.buckets) <= s.calls && Sum(s.errors) <= s.calls
  }

  ghost predicate ScrapeOk(r: Scrape, l2: seq<Statistics>) {
    && |r.snapshot| == |l2| && r.cell < CELLS
    && (forall o: nat :: r.op <= o < |l2| ==> Below(r.snapshot[o], l2[o]))
    && (forall o: nat :: o < r.op && o < |l2| ==> Consistent(r.snapshot[o]))
  }

  ghost predicate CountedAll(l2: seq<Statistics>, calls: seq<Call>) {
    forall o: nat :: o < |l2| ==> Counted(l2[o], calls, o)
  }

  ghost predicate ScrapesOk(m: Metrics) {
    forall x: nat :: x < |m.scrapes| ==> ScrapeOk(m.scrapes[x], m.l2)
  }

  ghost predicate Inv(m: Metrics) {
    |m.l2| == OPERATIONS && CountedAll(m.l2, m.calls) && ScrapesOk(m)
  }

  lemma BumpAdds(s: seq<nat>, i: nat)
    ensures |Bump(s, i)| == |s| && Sum(Bump(s, i)) == Sum(s) + (if i < |s| then 1 else 0)
    ensures forall j :: 0 <= j < |s| ==> s[j] <= Bump(s, i)[j]
  {
    if i < |s| { SumUpdate(s, i, s[i] + 1); }
  }

  /** One atomic add keeps the operation counted and only ever grows it. */
  lemma ObserveKeepsCounted(s: Statistics, calls: seq<Call>, t: nat)
    requires t < |calls| && !calls[t].Idle? && Counted(s, calls, calls[t].op)
    ensures var (c, s') := Observed(calls[t], s);
            Counted(s', calls[t := c], calls[t].op) && Below(s, s')
  {
    var op := calls[t].op;
    var (c, s') := Observed(calls[t], s);
    OwingUpdate(calls, op, false, t, c);
    OwingUpdate(calls, op, true, t, c);
    if calls[t].Timed? { BumpAdds(s.buckets, BucketFrom(BOUNDS, calls[t].elapsed, 0));
      FilledOneMore(s.times, calls[t].elapsed); }
    if calls[t].Bucketed? { BumpAdds(s.errors, calls[t].class'); }
  }

  lemma BelowTransitive(a: Statistics, b: Statistics, c: Statistics)
    requires Below(a, b) && Below(b, c)
    ensures Below(a, c)
  {
  }

  /** Scrapes do not mind counters that grow. */
  lemma GrowthKeepsScrapes(m: Metrics, op: nat, s: Statistics)
    requires ScrapesOk(m) && op < |m.l2| && Below(m.l2[op], s)
    ensures ScrapesOk(m.(l2 := m.l2[op := s]))
  {
    var l2 := m.l2[op := s];
    forall x: nat | x < |m.scrapes| ensures ScrapeOk(m.scrapes[x], l2) {
      var r := m.scrapes[x];
      assert ScrapeOk(r, m.l2);
      if r.op <= op { BelowTransitive(r.snapshot[op], m.l2[op], s); }
    }
  }

  lemma OthersStayCounted(m: Metrics, t: nat, c: Call, op: nat, s: Statistics)
    requires CountedAll(m.l2, m.calls) && t < |m.calls| && op < |m.l2|
    requires (m.calls[t].Idle? || m.calls[t].op == op) && (c.Idle? || c.op == op)
    requires Counted(s, m.calls[t := c], op)
    ensures CountedAll(m.l2[op := s], m.calls[t := c])
  {
    var l2, calls := m.l2[op := s], m.calls[t := c];
    forall o: nat | o < |l2| ensures Counted(l2[o], calls, o) {
      if o != op {
        assert Counted(m.l2[o], m.calls, o);
        OwingUpdate(m.calls, o, false, t, c);
        OwingUpdate(m.calls, o, true, t, c);
      }
    }
  }

  lemma BeginKeepsInv(m: Metrics, m': Metrics, t: nat, op: nat, elapsed: int, class': nat)
    requires Inv(m) && Begin(m, m', t, op, elapsed, class')
    ensures Inv(m')
  {
    var c := Called(op, elapsed, class');
    assert Counted(m.l2[op], m.calls, op);
    OwingUpdate(m.calls, op, false, t, c);
    OwingUpdate(m.calls, op, true, t, c);
    OthersStayCounted(m, t, c, op, m'.l2[op]);
    GrowthKeepsScrapes(m, op, m'.l2[op]);
  }

  lemma ContinueKeepsInv(m: Metrics, m': Metrics, t: nat)
    requires Inv(m) && Continue(m, m', t)
    ensures Inv(m')
  {
    var op := m.calls[t].op;
    assert Counted(m.l2[op], m.calls, op);
    ObserveKeepsCounted(m.l2[op], m.calls, t);
    OthersStayCounted(m, t, m'.calls[t], op, m'.l2[op]);
    GrowthKeepsScrapes(m, op, m'.l2[op]);
  }

  /** Loading the number of calls last makes the snapshot of an operation consistent. */
  lemma LoadKeepsScrape(snap: Statistics, s: Statistics, cell: nat)
    requires Below(snap, s) && Consistent(s) && |s.errors| == ERROR_CLASSES && |s.buckets| == BUCKETS && cell < CELLS
    ensures Below(Loaded(snap, s, cell), s)
    ensures cell == CELLS - 1 ==> Consistent(Loaded(snap, s, cell))
  {
    SumMonotone(snap.buckets, s.buckets);
    SumMonotone(snap.errors, s.errors);
  }

  lemma LoadKeepsInv(m: Metrics, m': Metrics, x: nat)
    requires Inv(m) && Load(m, m', x)
    ensures Inv(m')
  {
    var r := m.scrapes[x];
    assert ScrapeOk(r, m.l2) && Counted(m.l2[r.op], m.calls, r.op);
    LoadKeepsScrape(r.snapshot[r.op], m.l2[r.op], r.cell);
    assert ScrapeOk(m'.scrapes[x], m'.l2);
    forall y: nat | y < |m'.scrapes| ensures ScrapeOk(m'.scrapes[y], m'.l2) {
      if y != x { assert ScrapeOk(m.scrapes[y], m.l2); }
    }
  }

  lemma RescrapeKeepsInv(m: Metrics, m': Metrics, x: nat)
    requires Inv(m) && Rescrape(m, m', x)
    ensures Inv(m')
  {
    forall y: nat | y < |m'.scrapes| ensures ScrapeOk(m'.scrapes[y], m'.l2) {
      if y != x {
        assert ScrapeOk(m.scrapes[y], m.l2);
      } else {
        forall o: nat | o < |m.l2| ensures Below(Blank(), m.l2[o]) { assert Counted(m.l2[o], m.calls, o); }
      }
    }
  }

  lemma {:induction false} SumOfZeros(s: seq<nat>)
    requires forall i :: 0 <= i < |s| ==> s[i] == 0
    ensures Sum(s) == 0
  {
    if s != [] { SumOfZeros(s[..|s| - 1]); }
  }

  lemma InitInv(m: Metrics)
    requires Init(m)
    ensures Inv(m)
  {
    SumOfZeros(Blank().buckets);
    SumOfZeros(Blank().errors);
    forall o: nat | o < |m.l2| ensures Counted(m.l2[o], m.calls, o) {
      NobodyOwes(m.calls, o, false);
      NobodyOwes(m.calls, o, true);
    }
    forall x: nat | x < |m.scrapes| ensures ScrapeOk(m.scrapes[x], m.l2) { assert m.scrapes[x] in m.scrapes; }
  }

  lemma {:induction false} RunKeepsInv(ms: seq<Metrics>, k: nat)
    requires Run(ms) && k < |ms|
    ensures Inv(ms[k])
  {
    if k == 0 {
      InitInv(ms[0]);
    } else {
      RunKeepsInv(ms, k - 1);
      var m, m' := ms[k - 1], ms[k];
      assert Next(ms[k - 1], ms[k - 1 + 1]);
      if t, op, elapsed, class' :| Begin(m, m', t, op, elapsed, class') {
        BeginKeepsInv(m, m', t, op, elapsed, class');
      } else if t :| Continue(m, m', t) {
        ContinueKeepsInv(m, m', t);
      } else if x :| Load(m, m', x) {
        LoadKeepsInv(m, m', x);
      } else {
        var x :| Rescrape(m, m', x);
        RescrapeKeepsInv(m, m', x);
      }
    }
  }

  // ------------------------------------------------------------------------- main results

  /** Whatever a scrape has finished reading never shows more samples or more errors than calls. */
  lemma SnapshotsAreNeverOverCounted(ms: seq<Metrics>, k: nat, x: nat, op: nat)
    requires Run(ms) && k < |ms| && x < |ms[k].scrapes| && op < ms[k].scrapes[x].op && op < |ms[k].scrapes[x].snapshot|
    ensures Sum(ms[k].scrapes[x].snapshot[op].buckets) <= ms[k].scrapes[x].snapshot[op].calls
    ensures Sum(ms[k].scrapes[x].snapshot[op].errors) <= ms[k].scrapes[x].snapshot[op].calls
  {
    RunKeepsInv(ms, k);
    assert ScrapeOk(ms[k].scrapes[x], ms[k].l2) && Consistent(ms[k].scrapes[x].snapshot[op]);
  }

  // ---------------------------------------------------------------------------- histogram

  lemma {:induction false} PrefixSumsGrow(s: seq<nat>, i: nat, j: nat)
    requires i <= j <= |s|
    ensures Sum(s[..i]) <= Sum(s[..j])
  {
    if i < j {
      PrefixSumsGrow(s, i, j - 1);
      assert s[..j][..j - 1] == s[..j - 1];
    }
  }

  /** The running totals under their bounds. */
  ghost predicate Cumulative(bounds: seq<int>, counts: seq<nat>, buckets: map<int, nat>)
    requires |bounds| <= |counts|
  {
    && (forall b <- buckets :: b in bounds)
    && forall i :: 0 <= i < |bounds| ==> bounds[i] in buckets && buckets[bounds[i]] == Sum(counts[..i + 1])
  }

  /** The exported buckets hold the running totals. */
  method HistogramBuckets(upperBounds: seq<int>, counts: seq<nat>) returns (buckets: map<int, nat>)
    requires Increasing(upperBounds) && |counts| == |upperBounds| + 1
    ensures Cumulative(upperBounds, counts, buckets)
  {
    buckets := map[];
    var cumulative := 0;
    for i := 0 to |upperBounds|
      invariant cumulative == Sum(counts[..i])
      invariant Cumulative(upperBounds[..i], counts, buckets)
    {
      assert counts[..i + 1][..i] == counts[..i];
      cumulative := cumulative + counts[i];
      buckets := buckets[upperBounds[i] := cumulative];
    }
    assert upperBounds[..|upperBounds|] == upperBounds;
  }

  lemma CumulativeIsOrdered(counts: seq<nat>, buckets: map<int, nat>, i: nat, j: nat)
    requires i <= j < |BOUNDS| < |counts| && Cumulative(BOUNDS, counts, buckets)
    ensures buckets[BOUNDS[i]] <= buckets[BOUNDS[j]] <= Sum(counts)
  {
    PrefixSumsGrow(counts, i + 1, j + 1);
    PrefixSumsGrow(counts, j + 1, |counts|);
    assert counts[..|counts|] == counts;
  }

  /** What a scrape exports is a valid histogram: the cumulative buckets never decrease and never
      exceed the sample count, however the scrape interleaved with the calls. */
  lemma ExportedHistogramIsValid(ms: seq<Metrics>, k: nat, x: nat, op: nat, buckets: map<int, nat>, i: nat, j: nat)
    requires Run(ms) && k < |ms| && x < |ms[k].scrapes| && op < ms[k].scrapes[x].op && op < |ms[k].scrapes[x].snapshot|
    requires i <= j < |BOUNDS| < |ms[k].scrapes[x].snapshot[op].buckets|
    requires Cumulative(BOUNDS, ms[k].scrapes[x].snapshot[op].buckets, buckets)
    ensures buckets[BOUNDS[i]] <= buckets[BOUNDS[j]] <= ms[k].scrapes[x].snapshot[op].calls
  {
    SnapshotsAreNeverOverCounted(ms, k, x, op);
    CumulativeIsOrdered(ms[k].scrapes[x].snapshot[op].buckets, buckets, i, j);
  }

  /** How many durations are at most so long. */
  function Within(times: seq<int>, bound: int): nat {
    if times == [] then 0 else Within(times[..|times| - 1], bound) + if times[|times| - 1] <= bound then 1 else 0
  }

  lemma BucketIsFirst(bounds: seq<int>, elapsed: int, i: nat)
    requires Increasing(bounds) && i < |bounds|
    ensures BucketFrom(bounds, elapsed, 0) <= i <==> elapsed <= bounds[i]
  {
    var b := BucketFrom(bounds, elapsed, 0);
    if b < i { assert bounds[b] < bounds[i]; }
  }

  lemma PrefixOfBump(s: seq<nat>, b: nat, n: nat)
    requires n <= |s|
    ensures Sum(Bump(s, b)[..n]) == Sum(s[..n]) + (if b < n then 1 else 0)
  {
    BumpAdds(s[..n], b);
    assert Bump(s, b)[..n] == Bump(s[..n], b);
  }

  lemma {:induction false} CumulativeIsWithin(times: seq<int>, i: nat)
    requires i < BUCKETS - 1 == |BOUNDS| && Increasing(BOUNDS)
    ensures Sum(Filled(times)[..i + 1]) == Within(times, BOUNDS[i])
  {
    if times == [] {
      SumOfZeros(Filled(times)[..i + 1]);
    } else {
      var n := |times| - 1;
      CumulativeIsWithin(times[..n], i);
      BucketIsFirst(BOUNDS, times[n], i);
      PrefixOfBump(Filled(times[..n]), BucketFrom(BOUNDS, times[n], 0), i + 1);
    }
  }

  /** With no call under way every call is in the histogram, and each cumulative bucket counts
      exactly the calls that took at most its bound. */
  lemma QuietHistogramIsExact(ms: seq<Metrics>, k: nat, op: nat, i: nat)
    requires Run(ms) && k < |ms| && op < OPERATIONS && i < |BOUNDS| && Quiet(ms[k].calls)
    ensures |ms[k].l2| == OPERATIONS && |ms[k].l2[op].buckets| == BUCKETS == |BOUNDS| + 1
    ensures Sum(ms[k].l2[op].buckets) == ms[k].l2[op].calls
    ensures Sum(ms[k].l2[op].buckets[..i + 1]) == Within(ms[k].l2[op].times, BOUNDS[i])
  {
    RunKeepsInv(ms, k);
    assert Counted(ms[k].l2[op], ms[k].calls, op);
    NobodyOwes(ms[k].calls, op, false);
    BoundsIncrease();
    CumulativeIsWithin(ms[k].l2[op].times, i);
  }
}
