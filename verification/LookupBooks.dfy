/** How one GetMany accounts for every occurrence of every key it was given. */
module LookupBooks {
  import opened Wrappers

  // -------------------------------------------------------------------------------- fates

  /** What the last pass finds out about a missed key. */
  datatype Fate = Local | Remote | Absent

  /** How many occurrences ended in each way. */
  datatype Tally = Tally(fromL1: nat, fromL2: nat, absent: nat) {
    function Plus(fate: Fate, n: nat): Tally {
      match fate
      case Local => Tally(fromL1 + n, fromL2, absent)
      case Remote => Tally(fromL1, fromL2 + n, absent)
      case Absent => Tally(fromL1, fromL2, absent + n)
    }

    function Add(t: Tally): Tally {
      Tally(fromL1 + t.fromL1, fromL2 + t.fromL2, absent + t.absent)
    }

    function Total(): nat {
      fromL1 + fromL2 + absent
    }
  }

  /** The counters have grown by these numbers. */
  predicate Grew(before: Tally, after: Tally, growth: Tally) {
    && after.fromL1 == before.fromL1 + growth.fromL1
    && after.fromL2 == before.fromL2 + growth.fromL2
    && after.absent == before.absent + growth.absent
  }

  function Missing(hits: seq<bool>): nat {
    if hits == [] then 0 else Missing(hits[..|hits| - 1]) + if hits[|hits| - 1] then 0 else 1
  }

  /** Every missed occurrence has a fate. */
  predicate Decided<K(==)>(keys: seq<K>, hits: seq<bool>, fates: map<K, Fate>) {
    |hits| <= |keys| && forall i :: 0 <= i < |hits| && !hits[i] ==> keys[i] in fates
  }

  /** What the lookup counters owe to the occurrences: a hit of the first pass counts for L1, any
      other occurrence for the fate of its key. */
  function Deserved<K(==)>(keys: seq<K>, hits: seq<bool>, fates: map<K, Fate>): (t: Tally)
    requires Decided(keys, hits, fates)
    ensures t.Total() == |hits|
  {
    if hits == [] then Tally(0, 0, 0)
    else
      var n := |hits| - 1;
      Deserved(keys, hits[..n], fates).Plus(if hits[n] then Local else fates[keys[n]], 1)
  }

  // -------------------------------------------------------------------------------- books

  /** The books of the first pass: hits, the missed keys without repetition, and how often each
      of them was missed. */
  datatype Books<K(==)> = Books(hits: nat, missed: seq<K>, counts: map<K, nat>)

  function Noted<K(==)>(b: Books<K>, key: K, hit: bool): Books<K> {
    if hit then b.(hits := b.hits + 1)
    else if key in b.counts then b.(counts := b.counts[key := b.counts[key] + 1])
    else b.(missed := b.missed + [key], counts := b.counts[key := 1])
  }

  function BooksOf<K(==)>(keys: seq<K>, hits: seq<bool>): Books<K>
    requires |hits| <= |keys|
  {
    if hits == [] then Books(0, [], map[])
    else
      var n := |hits| - 1;
      Noted(BooksOf(keys, hits[..n]), keys[n], hits[n])
  }

  /** Each missed key is listed once and counted. */
  ghost predicate MissList<K>(missed: seq<K>, counts: map<K, nat>) {
    && (forall i, j :: 0 <= i < j < |missed| ==> missed[i] != missed[j])
    && (forall i :: 0 <= i < |missed| ==> missed[i] in counts)
    && (forall k <- counts :: k in missed)
  }

  lemma {:induction false} HitsOrMisses<K>(keys: seq<K>, hits: seq<bool>)
    requires |hits| <= |keys|
    ensures BooksOf(keys, hits).hits + Missing(hits) == |hits|
  {
    if hits != [] { HitsOrMisses(keys, hits[..|hits| - 1]); }
  }

  lemma NotedKeepsList<K>(b: Books<K>, key: K, hit: bool)
    requires MissList(b.missed, b.counts)
    ensures MissList(Noted(b, key, hit).missed, Noted(b, key, hit).counts)
    ensures Noted(b, key, hit).counts.Keys == b.counts.Keys + if hit then {} else {key}
  {
  }

  /** Exactly the missed occurrences put their keys on the list. */
  lemma {:induction false} BooksAreLists<K>(keys: seq<K>, hits: seq<bool>)
    requires |hits| <= |keys|
    ensures MissList(BooksOf(keys, hits).missed, BooksOf(keys, hits).counts) && BooksOf(keys, hits).hits <= |hits|
    ensures forall i :: 0 <= i < |hits| && !hits[i] ==> keys[i] in BooksOf(keys, hits).counts
    ensures forall k <- BooksOf(keys, hits).counts :: exists i :: 0 <= i < |hits| && keys[i] == k && !hits[i]
  {
    if hits != [] {
      var n := |hits| - 1;
      BooksAreLists(keys, hits[..n]);
      var before := BooksOf(keys, hits[..n]);
      NotedKeepsList(before, keys[n], hits[n]);
      forall i | 0 <= i < |hits| && !hits[i] ensures keys[i] in BooksOf(keys, hits).counts {
        if i < n { assert !hits[..n][i]; }
      }
      forall k <- BooksOf(keys, hits).counts ensures exists i :: 0 <= i < |hits| && keys[i] == k && !hits[i] {
        if k in before.counts {
          var i :| 0 <= i < n && keys[i] == k && !hits[..n][i];
          assert !hits[i];
        }
      }
    }
  }

  // ----------------------------------------------------------------------------- last pass

  /** The first n missed keys are settled, the others are not. */
  ghost predicate Settled<K>(missed: seq<K>, n: nat, counts: map<K, nat>, fates: map<K, Fate>) {
    && n <= |missed|
    && (forall i :: 0 <= i < n ==> missed[i] in counts && missed[i] in fates)
    && (forall i :: n <= i < |missed| ==> missed[i] !in fates)
    && (forall k <- fates :: k in counts)
  }

  /** The sums that the last pass builds up, key by key. */
  ghost function TallyOf<K>(missed: seq<K>, n: nat, counts: map<K, nat>, fates: map<K, Fate>): Tally
    requires n <= |missed| && forall i :: 0 <= i < n ==> missed[i] in counts && missed[i] in fates
  {
    if n == 0 then Tally(0, 0, 0)
    else TallyOf(missed, n - 1, counts, fates).Plus(fates[missed[n - 1]], counts[missed[n - 1]])
  }

  lemma {:induction false} TallySame<K>(a: seq<K>, b: seq<K>, n: nat, c: map<K, nat>, d: map<K, nat>,
                                          f: map<K, Fate>, g: map<K, Fate>)
    requires n <= |a| && n <= |b|
    requires forall i :: 0 <= i < n ==> a[i] == b[i] && a[i] in c && a[i] in d && c[a[i]] == d[a[i]]
    requires forall i :: 0 <= i < n ==> a[i] in f && a[i] in g && f[a[i]] == g[a[i]]
    ensures TallyOf(a, n, c, f) == TallyOf(b, n, d, g)
  {
    if n > 0 { TallySame(a, b, n - 1, c, d, f, g); }
  }

  /** Settling the next key adds its occurrences to one of the three numbers. */
  lemma SettledOneMore<K>(missed: seq<K>, n: nat, counts: map<K, nat>, fates: map<K, Fate>, fate: Fate)
    requires MissList(missed, counts) && Settled(missed, n, counts, fates) && n < |missed|
    ensures var fates' := fates[missed[n] := fate];
            && Settled(missed, n + 1, counts, fates')
            && TallyOf(missed, n + 1, counts, fates') == TallyOf(missed, n, counts, fates).Plus(fate, counts[missed[n]])
  {
    TallySame(missed, missed, n, counts, counts, fates, fates[missed[n] := fate]);
  }

  /** One more missed occurrence of a listed key. */
  lemma {:induction false} TallyBumped<K>(missed: seq<K>, n: nat, counts: map<K, nat>, fates: map<K, Fate>, key: K)
    requires n <= |missed| && forall i, j :: 0 <= i < j < |missed| ==> missed[i] != missed[j]
    requires forall i :: 0 <= i < n ==> missed[i] in counts && missed[i] in fates
    requires exists i :: 0 <= i < n && missed[i] == key
    ensures TallyOf(missed, n, counts[key := counts[key] + 1], fates) ==
            TallyOf(missed, n, counts, fates).Plus(fates[key], 1)
  {
    if missed[n - 1] == key {
      TallySame(missed, missed, n - 1, counts, counts[key := counts[key] + 1], fates, fates);
    } else {
      TallyBumped(missed, n - 1, counts, fates, key);
    }
  }

  ghost predicate Covers<K>(b: Books<K>, fates: map<K, Fate>) {
    forall i :: 0 <= i < |b.missed| ==> b.missed[i] in b.counts && b.missed[i] in fates
  }

  /** The sums of a last pass over these books, with the hits of the first pass. */
  ghost function Sums<K>(b: Books<K>, fates: map<K, Fate>): Tally
    requires Covers(b, fates)
  {
    TallyOf(b.missed, |b.missed|, b.counts, fates).Plus(Local, b.hits)
  }

  lemma NotedAdds<K>(b: Books<K>, key: K, hit: bool, fates: map<K, Fate>)
    requires MissList(b.missed, b.counts) && Covers(b, fates) && (!hit ==> key in fates)
    ensures Covers(Noted(b, key, hit), fates)
    ensures Sums(Noted(b, key, hit), fates) == Sums(b, fates).Plus(if hit then Local else fates[key], 1)
  {
    if !hit {
      if key in b.counts {
        TallyBumped(b.missed, |b.missed|, b.counts, fates, key);
      } else {
        TallySame(b.missed, b.missed + [key], |b.missed|, b.counts, b.counts[key := 1], fates, fates);
      }
    }
  }

  /** The sums per key, with the hits of the first pass, are what every single occurrence
      deserves. */
  lemma {:induction false} SumsAreDeserved<K>(keys: seq<K>, hits: seq<bool>, fates: map<K, Fate>)
    requires Decided(keys, hits, fates)
    ensures Covers(BooksOf(keys, hits), fates)
    ensures Sums(BooksOf(keys, hits), fates) == Deserved(keys, hits, fates)
  {
    if hits != [] {
      var n := |hits| - 1;
      SumsAreDeserved(keys, hits[..n], fates);
      BooksAreLists(keys, hits[..n]);
      NotedAdds(BooksOf(keys, hits[..n]), keys[n], hits[n], fates);
    }
  }

  // ------------------------------------------------------------------------------- answer

  /** A look into L1. */
  datatype Look<K, V> = Look(key: K, hit: Option<V>)

  /** How a missed key turns out: L1 wins if it has an entry by now, then what is left of the
      answer of L2. */
  function FateOf<V>(local: Option<V>, remote: Option<V>): Fate {
    if local.Some? then Local else if remote.Some? then Remote else Absent
  }

  function Find<K(==), V>(m: map<K, V>, key: K): Option<V> {
    if key in m then Some(m[key]) else None
  }

  function Flags<K, V>(p: seq<Look<K, V>>, n: nat): seq<bool>
    requires n <= |p|
  {
    seq(n, i requires 0 <= i < n => p[i].hit.Some?)
  }

  /** The first pass probes the keys in order; each result so far is one of its hits. */
  ghost predicate FirstPassed<K, V>(keys: seq<K>, p: seq<Look<K, V>>, results: map<K, V>) {
    && |p| <= |keys|
    && (forall i :: 0 <= i < |p| ==> p[i].key == keys[i] && (p[i].hit.Some? ==> keys[i] in results))
    && (forall k <- results :: exists i :: 0 <= i < |p| && p[i] == Look(k, Some(results[k])))
  }

  /** The books of the first pass so far, if it got to these results. */
  ghost function Opened<K, V>(keys: seq<K>, p: seq<Look<K, V>>, results: map<K, V>): Option<Books<K>> {
    if FirstPassed(keys, p, results) then Some(BooksOf(keys, Flags(p, |p|))) else None
  }

  lemma OpeningStart<K, V>(keys: seq<K>)
    ensures Opened<K, V>(keys, [], map[]) == Some(Books(0, [], map[]))
  {
  }

  lemma OpeningOneMore<K, V>(keys: seq<K>, p: seq<Look<K, V>>, results: map<K, V>, b: Books<K>, look: Look<K, V>)
    requires Opened(keys, p, results) == Some(b) && |p| < |keys| && look.key == keys[|p|]
    ensures Opened(keys, p + [look], With(results, look.key, look.hit)) == Some(Noted(b, look.key, look.hit.Some?))
  {
    FirstOneMore(keys, p, results, look);
    BooksOneMore(keys, p, look);
  }

  function With<K, V>(results: map<K, V>, key: K, hit: Option<V>): map<K, V> {
    if hit.Some? then results[key := hit.value] else results
  }

  lemma FirstOneMore<K, V>(keys: seq<K>, p: seq<Look<K, V>>, results: map<K, V>, look: Look<K, V>)
    requires FirstPassed(keys, p, results) && |p| < |keys| && look.key == keys[|p|]
    ensures FirstPassed(keys, p + [look], With(results, look.key, look.hit))
  {
    var q, results' := p + [look], With(results, look.key, look.hit);
    forall k <- results' ensures exists i :: 0 <= i < |q| && q[i] == Look(k, Some(results'[k])) {
      if look.hit.Some? && k == look.key {
        assert q[|p|] == look;
      } else {
        var i :| 0 <= i < |p| && p[i] == Look(k, Some(results[k]));
        assert q[i] == p[i];
      }
    }
  }

  lemma BooksOneMore<K, V>(keys: seq<K>, p: seq<Look<K, V>>, look: Look<K, V>)
    requires |p| < |keys| && look.key == keys[|p|]
    ensures BooksOf(keys, Flags(p + [look], |p| + 1)) == Noted(BooksOf(keys, Flags(p, |p|)), look.key, look.hit.Some?)
  {
    assert Flags(p + [look], |p| + 1)[..|p|] == Flags(p, |p|);
  }

  /** The last pass probes the missed keys in order and settles each by what it finds in L1 and what
      is left of the answers of L2; nothing else happens to the results. */
  ghost predicate LastPassed<K(!new), V>(missed: seq<K>, q: seq<Look<K, V>>, remote: map<K, V>, fates: map<K, Fate>,
                                         first: map<K, V>, results: map<K, V>) {
    && |q| <= |missed|
    && (forall j :: 0 <= j < |q| ==> q[j].key == missed[j] && Fated(q[j], remote, fates, results))
    && (forall k <- fates :: exists j :: 0 <= j < |q| && q[j].key == k)
    && (forall k: K :: k !in fates || fates[k] == Absent ==> Find(results, k) == Find(first, k))
  }

  /** The second look at a key settles it. */
  ghost predicate Fated<K, V>(look: Look<K, V>, remote: map<K, V>, fates: map<K, Fate>, results: map<K, V>) {
    && look.key in fates && fates[look.key] == FateOf(look.hit, Find(remote, look.key))
    && (look.hit.Some? ==> Find(results, look.key) == look.hit)
    && (fates[look.key] == Remote ==> Find(results, look.key) == Find(remote, look.key))
  }

  lemma LastOneMore<K(!new), V>(missed: seq<K>, q: seq<Look<K, V>>, remote: map<K, V>, fates: map<K, Fate>,
                                first: map<K, V>, results: map<K, V>, look: Look<K, V>)
    requires LastPassed(missed, q, remote, fates, first, results) && |q| < |missed| && look.key == missed[|q|]
    requires look.key !in fates
    ensures var hit := if look.hit.Some? then look.hit else Find(remote, look.key);
            LastPassed(missed, q + [look], remote, fates[look.key := FateOf(look.hit, Find(remote, look.key))],
                       first, With(results, look.key, hit))
  {
    var q' := q + [look];
    var hit := if look.hit.Some? then look.hit else Find(remote, look.key);
    var fates' := fates[look.key := FateOf(look.hit, Find(remote, look.key))];
    var results' := With(results, look.key, hit);
    forall j | 0 <= j < |q'| ensures q'[j].key == missed[j] && Fated(q'[j], remote, fates', results') {
      if j < |q| { assert Fated(q[j], remote, fates, results); }
    }
    forall k <- fates' ensures exists j :: 0 <= j < |q'| && q'[j].key == k {
      if k == look.key {
        assert q'[|q|].key == k;
      } else {
        var j :| 0 <= j < |q| && q[j].key == k;
        assert q'[j].key == k;
      }
    }
  }

  /** The sums of the last pass so far, if it got to these results. */
  ghost function Tallied<K(!new), V>(missed: seq<K>, counts: map<K, nat>, q: seq<Look<K, V>>, remote: map<K, V>,
                                     fates: map<K, Fate>, first: map<K, V>, results: map<K, V>): Option<Tally> {
    if LastPassed(missed, q, remote, fates, first, results) && Settled(missed, |q|, counts, fates) then
      Some(TallyOf(missed, |q|, counts, fates))
    else None
  }

  lemma OneLater<T>(a: seq<T>, b: seq<T>, x: T)
    ensures (a + b) + [x] == a + (b + [x])
  {
  }

  lemma HalfwayStart<K(!new), V>(missed: seq<K>, counts: map<K, nat>, remote: map<K, V>, first: map<K, V>)
    ensures Tallied(missed, counts, [], remote, map[], first, first) == Some(Tally(0, 0, 0))
  {
  }

  lemma HalfwayOneMore<K(!new), V>(missed: seq<K>, counts: map<K, nat>, q: seq<Look<K, V>>, remote: map<K, V>,
                                   fates: map<K, Fate>, first: map<K, V>, results: map<K, V>, tally: Tally,
                                   look: Look<K, V>)
    requires MissList(missed, counts) && Tallied(missed, counts, q, remote, fates, first, results) == Some(tally)
    requires |q| < |missed| && look.key == missed[|q|]
    ensures var hit := if look.hit.Some? then look.hit else Find(remote, look.key);
            var fate := FateOf(look.hit, Find(remote, look.key));
            Tallied(missed, counts, q + [look], remote, fates[look.key := fate], first, With(results, look.key, hit))
            == Some(tally.Plus(fate, counts[look.key]))
  {
    LastOneMore(missed, q, remote, fates, first, results, look);
    SettledOneMore(missed, |q|, counts, fates, FateOf(look.hit, Find(remote, look.key)));
  }

  /** An answer and its books, for the looks into L1 that were made and what was left of the answers
      of L2: every occurrence is looked up once, every missed key has its fate from a second look,
      and every result is a hit of the first pass or what the fate of its key says. */
  ghost predicate Explains<K, V>(keys: seq<K>, p: seq<Look<K, V>>, remote: map<K, V>, fates: map<K, Fate>,
                                 results: map<K, V>) {
    && |keys| <= |p|
    && (forall i :: 0 <= i < |keys| ==> p[i].key == keys[i] && (p[i].hit.Some? ==> keys[i] in results))
    && (forall i :: 0 <= i < |keys| && p[i].hit.None? ==> keys[i] in fates)
    && (forall k <- fates :: exists i :: 0 <= i < |keys| && p[i] == Look(k, None))
    && (forall j :: |keys| <= j < |p| ==> Fated(p[j], remote, fates, results))
    && (forall k <- fates :: exists j :: |keys| <= j < |p| && p[j].key == k)
    && (forall k <- results ::
          (k in fates && fates[k] != Absent) || exists i :: 0 <= i < |keys| && p[i] == Look(k, Some(results[k])))
  }

  /** A key that got a fate in the last pass was missed in the first. */
  lemma FatedWasMissed<K(!new), V>(keys: seq<K>, p: seq<Look<K, V>>, b: Books<K>, j: nat) returns (i: nat)
    requires |p| == |keys| && b == BooksOf(keys, Flags(p, |p|)) && j < |b.missed|
    ensures i < |keys| && keys[i] == b.missed[j] && p[i].hit.None?
  {
    BooksAreLists(keys, Flags(p, |p|));
    assert b.missed[j] in b.counts;
    i :| 0 <= i < |p| && keys[i] == b.missed[j] && !Flags(p, |p|)[i];
  }

  lemma PassesSettle<K(!new), V>(keys: seq<K>, p: seq<Look<K, V>>, q: seq<Look<K, V>>, b: Books<K>, remote: map<K, V>,
                                 fates: map<K, Fate>, first: map<K, V>, results: map<K, V>)
    requires |p| == |keys| && FirstPassed(keys, p, first) && b == BooksOf(keys, Flags(p, |p|))
    requires |q| == |b.missed| && LastPassed(b.missed, q, remote, fates, first, results)
    ensures forall k <- fates :: exists i :: 0 <= i < |keys| && (p + q)[i] == Look(k, None)
    ensures forall k <- fates :: exists j :: |keys| <= j < |p + q| && (p + q)[j].key == k
  {
    forall k <- fates
      ensures exists i :: 0 <= i < |keys| && (p + q)[i] == Look(k, None)
      ensures exists j :: |keys| <= j < |p + q| && (p + q)[j].key == k
    {
      var j :| 0 <= j < |q| && q[j].key == k;
      var i := FatedWasMissed(keys, p, b, j);
      assert (p + q)[|p| + j].key == k && (p + q)[i] == Look(k, None);
    }
  }

  lemma PassesAnswer<K(!new), V>(keys: seq<K>, p: seq<Look<K, V>>, q: seq<Look<K, V>>, fates: map<K, Fate>,
                                 first: map<K, V>, results: map<K, V>, remote: map<K, V>, missed: seq<K>)
    requires |p| == |keys| && FirstPassed(keys, p, first) && LastPassed(missed, q, remote, fates, first, results)
    ensures forall i :: 0 <= i < |keys| && (p + q)[i].hit.Some? ==> keys[i] in results
    ensures forall j :: |keys| <= j < |p + q| ==> Fated((p + q)[j], remote, fates, results)
    ensures forall k <- results ::
              (k in fates && fates[k] != Absent)
               || exists i :: 0 <= i < |keys| && (p + q)[i] == Look(k, Some(results[k]))
  {
    forall i | 0 <= i < |keys| && (p + q)[i].hit.Some? ensures keys[i] in results {
      assert p[i] == (p + q)[i] && Find(first, keys[i]).Some?;
      if keys[i] in fates {
        var j :| 0 <= j < |q| && q[j].key == keys[i];
        assert Fated(q[j], remote, fates, results);
      }
    }
    forall j | |keys| <= j < |p + q| ensures Fated((p + q)[j], remote, fates, results) {
      assert Fated(q[j - |p|], remote, fates, results);
    }
    forall k <- results | k !in fates || fates[k] == Absent
      ensures exists i :: 0 <= i < |keys| && (p + q)[i] == Look(k, Some(results[k]))
    {
      assert Find(results, k) == Find(first, k);
      var i :| 0 <= i < |p| && p[i] == Look(k, Some(first[k]));
      assert (p + q)[i] == p[i];
    }
  }

  lemma MissedAreFated<K(!new), V>(keys: seq<K>, p: seq<Look<K, V>>, q: seq<Look<K, V>>, b: Books<K>, remote: map<K, V>,
                                   fates: map<K, Fate>, first: map<K, V>, results: map<K, V>)
    requires |p| == |keys| && b == BooksOf(keys, Flags(p, |p|))
    requires |q| == |b.missed| && LastPassed(b.missed, q, remote, fates, first, results)
    ensures Decided(keys, Flags(p, |p|), fates)
    ensures forall i :: 0 <= i < |keys| && (p + q)[i].hit.None? ==> keys[i] in fates
  {
    BooksAreLists(keys, Flags(p, |p|));
    forall i | 0 <= i < |keys| && !Flags(p, |p|)[i] ensures keys[i] in fates {
      var j :| 0 <= j < |b.missed| && b.missed[j] == keys[i];
      assert Fated(q[j], remote, fates, results);
    }
    forall i | 0 <= i < |keys| && (p + q)[i].hit.None? ensures keys[i] in fates { assert !Flags(p, |p|)[i]; }
  }

  /** Both passes together explain the answer, and the sums they build up are what every occurrence
      deserves. */
  lemma PassesExplain<K(!new), V>(keys: seq<K>, p: seq<Look<K, V>>, q: seq<Look<K, V>>, b: Books<K>, remote: map<K, V>,
                                  fates: map<K, Fate>, first: map<K, V>, results: map<K, V>)
    requires |p| == |keys| && FirstPassed(keys, p, first) && b == BooksOf(keys, Flags(p, |p|))
    requires |q| == |b.missed| && LastPassed(b.missed, q, remote, fates, first, results)
    ensures Explains(keys, p + q, remote, fates, results)
    ensures Decided(keys, Flags(p, |p|), fates) && Covers(b, fates)
    ensures Sums(b, fates) == Deserved(keys, Flags(p, |p|), fates)
  {
    MissedAreFated(keys, p, q, b, remote, fates, first, results);
    SumsAreDeserved(keys, Flags(p, |p|), fates);
    PassesSettle(keys, p, q, b, remote, fates, first, results);
    PassesAnswer(keys, p, q, fates, first, results, remote, b.missed);
  }

  /** What an answer that is explained so adds to the lookup counters and to the L1 misses. */
  ghost function Dues<K, V>(keys: seq<K>, all: seq<Look<K, V>>, remote: map<K, V>, fates: map<K, Fate>,
                            results: map<K, V>): Option<(Tally, nat)> {
    if Explains(keys, all, remote, fates, results) && Decided(keys, Flags(all, |keys|), fates) then
      Some((Deserved(keys, Flags(all, |keys|), fates), Missing(Flags(all, |keys|))))
    else None
  }

  lemma SameFlags<K, V>(p: seq<Look<K, V>>, q: seq<Look<K, V>>)
    ensures Flags(p + q, |p|) == Flags(p, |p|)
  {
  }

  /** The answer is explained, and these are its dues. */
  ghost predicate Owes<K, V>(keys: seq<K>, all: seq<Look<K, V>>, remote: map<K, V>, fates: map<K, Fate>,
                             results: map<K, V>, grown: Tally, missing: int) {
    var dues := Dues(keys, all, remote, fates, results);
    dues.Some? && dues.value.0 == grown && dues.value.1 == missing
  }

  lemma Concludes<K(!new), V>(keys: seq<K>, p: seq<Look<K, V>>, q: seq<Look<K, V>>, b: Books<K>, remote: map<K, V>,
                              fates: map<K, Fate>, first: map<K, V>, results: map<K, V>)
    requires |p| == |keys| && FirstPassed(keys, p, first) && b == BooksOf(keys, Flags(p, |p|))
    requires |q| == |b.missed| && LastPassed(b.missed, q, remote, fates, first, results)
    ensures Covers(b, fates) && b.hits <= |keys|
    ensures Owes(keys, p + q, remote, fates, results, Sums(b, fates), |keys| - b.hits)
  {
    HitsOrMisses(keys, Flags(p, |p|));
    PassesExplain(keys, p, q, b, remote, fates, first, results);
    SameFlags(p, q);
  }

  lemma SameKeys<K(!new), V>(keys: seq<K>, hits: seq<bool>, b: Books<K>, q: seq<Look<K, V>>, remote: map<K, V>,
                             fates: map<K, Fate>, first: map<K, V>, results: map<K, V>, tally: Tally)
    requires |hits| <= |keys| && b == BooksOf(keys, hits)
    requires |q| == |b.missed| && Tallied(b.missed, b.counts, q, remote, fates, first, results) == Some(tally)
    ensures fates.Keys == b.counts.Keys
  {
    BooksAreLists(keys, hits);
    forall k <- b.counts ensures k in fates { var j :| 0 <= j < |b.missed| && b.missed[j] == k; }
  }

  lemma Tail<T>(a: seq<T>, b: seq<T>, c: seq<T>)
    ensures a + b <= (a + b) + c && a <= a + b + c && ((a + b) + c)[|a|..] == b + c
  {
  }

  lemma OpenedList<K, V>(keys: seq<K>, p: seq<Look<K, V>>, first: map<K, V>, b: Books<K>)
    requires Opened(keys, p, first) == Some(b)
    ensures MissList(b.missed, b.counts)
  {
    BooksAreLists(keys, Flags(p, |p|));
  }

  lemma ConcludesLater<K(!new), V>(keys: seq<K>, looks: seq<Look<K, V>>, p: seq<Look<K, V>>,
                                   q: seq<Look<K, V>>, b: Books<K>,
                                   remote: map<K, V>, fates: map<K, Fate>, first: map<K, V>, results: map<K, V>,
                                   tally: Tally, grown: Tally, missing: int)
    requires |p| == |keys| && Opened(keys, p, first) == Some(b)
    requires |q| == |b.missed| && Tallied(b.missed, b.counts, q, remote, fates, first, results) == Some(tally)
    requires grown == tally.Plus(Local, b.hits) && missing == |keys| - b.hits
    ensures Owes(keys, ((looks + p) + q)[|looks|..], remote, fates, results, grown, missing)
    ensures fates.Keys == b.counts.Keys && looks + p <= (looks + p) + q && looks <= looks + p + q
  {
    Tail(looks, p, q);
    Concludes(keys, p, q, b, remote, fates, first, results);
    SameKeys(keys, Flags(p, |p|), b, q, remote, fates, first, results, tally);
  }

  lemma {:induction false} NothingMissing(hits: seq<bool>)
    requires forall i :: 0 <= i < |hits| ==> hits[i]
    ensures Missing(hits) == 0
  {
    if hits != [] { NothingMissing(hits[..|hits| - 1]); }
  }

  lemma OnlyHits<K(!new)>(keys: seq<K>, hits: seq<bool>, b: Books<K>)
    requires |hits| == |keys| && b == BooksOf(keys, hits) && b.missed == []
    ensures b.hits == |keys|
  {
    BooksAreLists(keys, hits);
    NothingMissing(hits);
    HitsOrMisses(keys, hits);
  }

  /** Without a missed key the first pass is the whole answer. */
  lemma ConcludesAtOnce<K(!new), V>(keys: seq<K>, looks: seq<Look<K, V>>, p: seq<Look<K, V>>, b: Books<K>,
                                    remote: map<K, V>, first: map<K, V>)
    requires |p| == |keys| && Opened(keys, p, first) == Some(b) && b.missed == []
    ensures b.hits == |keys|
    ensures Owes(keys, (looks + p)[|looks|..], remote, map[], first, Tally(b.hits, 0, 0), 0)
  {
    OnlyHits(keys, Flags(p, |p|), b);
    HalfwayStart(b.missed, b.counts, remote, first);
    ConcludesLater(keys, looks, p, [], b, remote, map[], first, first, Tally(0, 0, 0), Tally(b.hits, 0, 0), 0);
    assert looks + p + [] == looks + p;
  }
}
