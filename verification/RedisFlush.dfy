/**
 Prefix flush of RedisCache: the SCAN pattern made from a key prefix, the Redis glob matcher that
 reads it, and the SCAN/DEL loop.  Keys are byte strings.
 */
module RedisFlush {
  import opened Utf8

  const STAR: Byte := 0x2A
  const QUESTION: Byte := 0x3F
  const BRACKET: Byte := 0x5B
  const CLOSING: Byte := 0x5D
  const CARET: Byte := 0x5E
  const DASH: Byte := 0x2D
  const BACKSLASH: Byte := 0x5C

  // ------------------------------------------------------------------------------ matcher

  /** A character class after its opening bracket: whether it lists `c`, and what follows it. */
  function ScanClass(p: Bytes, c: Byte, hit: bool): (r: (bool, Bytes))
    ensures |r.1| <= |p|
  {
    if p == [] then (hit, [])
    else if p[0] == BACKSLASH && |p| >= 2 then ScanClass(p[2..], c, hit || p[1] == c)
    else if p[0] == CLOSING then (hit, p[1..])
    else if |p| >= 3 && p[1] == DASH then ScanClass(p[3..], c, hit || p[0] <= c <= p[2] || p[2] <= c <= p[0])
    else ScanClass(p[1..], c, hit || p[0] == c)
  }

  /** The glob dialect of Redis: `*`, `?`, classes with ranges and `^`, and backslash escapes. */
  function Matches(p: Bytes, s: Bytes): bool
    decreases |p| + |s|
  {
    if p == [] then s == []
    else if p[0] == STAR then Matches(p[1..], s) || (s != [] && Matches(p, s[1..]))
    else if s == [] then false
    else if p[0] == QUESTION then Matches(p[1..], s[1..])
    else if p[0] == BRACKET then
      var negated := |p| > 1 && p[1] == CARET;
      var listed := ScanClass(p[(if negated then 2 else 1)..], s[0], false);
      listed.0 != negated && Matches(listed.1, s[1..])
    else if p[0] == BACKSLASH && |p| >= 2 then p[1] == s[0] && Matches(p[2..], s[1..])
    else p[0] == s[0] && Matches(p[1..], s[1..])
  }

  // ------------------------------------------------------------------------------ pattern

  predicate Special(c: nat) {
    c == BACKSLASH || c == STAR || c == QUESTION || c == BRACKET
  }

  function EscapedByte(c: Byte): Bytes {
    if Special(c) then [BACKSLASH, c] else [c]
  }

  function Escaped(b: Bytes): Bytes {
    if b == [] then [] else EscapedByte(b[0]) + Escaped(b[1..])
  }

  lemma {:induction false} EscapedConcat(a: Bytes, b: Bytes)
    ensures Escaped(a + b) == Escaped(a) + Escaped(b)
  {
    if a == [] {
      assert a + b == b;
    } else {
      EscapedConcat(a[1..], b);
      assert (a + b)[1..] == a[1..] + b && (a + b)[0] == a[0];
    }
  }

  lemma {:induction false} PlainStays(b: Bytes)
    requires forall i :: 0 <= i < |b| ==> b[i] >= 0x80
    ensures Escaped(b) == b
  {
    if b != [] { PlainStays(b[1..]); }
  }

  function EscapedRune(r: nat): Bytes {
    (if Special(r) then [BACKSLASH] else []) + Encode(r)
  }

  function Written(runes: seq<nat>, each: nat -> Bytes): Bytes {
    if runes == [] then [] else Written(runes[..|runes| - 1], each) + each(runes[|runes| - 1])
  }

  lemma {:induction false} WrittenFirst(r: nat, runes: seq<nat>, each: nat -> Bytes)
    ensures Written([r] + runes, each) == each(r) + Written(runes, each)
    decreases |runes|
  {
    var all := [r] + runes;
    if runes == [] {
      assert all[..|all| - 1] == [];
    } else {
      WrittenFirst(r, runes[..|runes| - 1], each);
      assert all[..|all| - 1] == [r] + runes[..|runes| - 1];
    }
  }

  lemma RuneIsEscaped(r: nat)
    ensures Escaped(Encode(r)) == EscapedRune(r)
  {
    if r >= 0x80 {
      PlainStays(Encode(r));
    } else {
      assert Encode(r)[1..] == [];
    }
  }

  /** Escaping rune by rune is escaping the repaired text byte by byte. */
  lemma {:induction false} RuneByRune(b: Bytes)
    ensures Written(Runes(b), EscapedRune) == Escaped(Repaired(b))
  {
    if b != [] {
      var rest := b[Step(b)..];
      RuneByRune(rest);
      EncodeDecodes(b);
      RuneIsEscaped(Decode(b));
      EscapedConcat(Encode(Decode(b)), Repaired(rest));
      WrittenFirst(Decode(b), Runes(rest), EscapedRune);
    }
  }

  /** The pattern escapes the prefix, with ill-formed bytes replaced, and ends in a star. */
  method RedisScanPattern(prefix: Bytes) returns (pattern: Bytes)
    ensures pattern == Escaped(Repaired(prefix)) + [STAR]
  {
    pattern := [];
    var runes := Runes(prefix);
    var i := 0;
    while i < |runes|
      invariant 0 <= i <= |runes| && pattern == Written(runes[..i], EscapedRune)
    {
      var rune := runes[i];
      assert runes[..i + 1][..i] == runes[..i];
      if rune == BACKSLASH || rune == STAR || rune == QUESTION || rune == BRACKET { pattern := pattern + [BACKSLASH]; }
      pattern := pattern + Encode(rune);
      i := i + 1;
    }
    assert runes[..i] == runes;
    RuneByRune(prefix);
    pattern := pattern + [STAR];
  }

  lemma {:induction false} StarMatchesAll(s: Bytes)
    ensures Matches([STAR], s)
  {
    if s != [] { StarMatchesAll(s[1..]); }
  }

  /** An escaped text followed by a star matches exactly the keys that start with the text. */
  lemma {:induction false} EscapedIsLiteral(x: Bytes, key: Bytes)
    ensures Matches(Escaped(x) + [STAR], key) <==> x <= key
  {
    var p := Escaped(x) + [STAR];
    if x == [] {
      assert p == [STAR];
      StarMatchesAll(key);
    } else {
      var n := if Special(x[0]) then 2 else 1;
      assert p[n..] == Escaped(x[1..]) + [STAR];
      if key != [] {
        EscapedIsLiteral(x[1..], key[1..]);
        assert x <= key <==> x[0] == key[0] && x[1..] <= key[1..];
      }
    }
  }

  /** The pattern selects exactly the prefixed keys if and only if the prefix is valid UTF-8. */
  lemma PatternSelectsPrefix(prefix: Bytes)
    ensures (forall key :: Matches(Escaped(Repaired(prefix)) + [STAR], key) <==> prefix <= key) <==> Valid(prefix)
  {
    RepairGrows(prefix);
    if Valid(prefix) {
      forall key ensures Matches(Escaped(Repaired(prefix)) + [STAR], key) <==> prefix <= key
      { EscapedIsLiteral(prefix, key); }
    } else {
      EscapedIsLiteral(Repaired(prefix), prefix);
    }
  }

  /** A concrete prefix for which the pattern misses a key of its own and selects a foreign one. */
  lemma IllFormedPrefixMisses()
    ensures var pattern := Escaped(Repaired([0xFF])) + [STAR];
            !Matches(pattern, [0xFF]) && Matches(pattern, REPLACEMENT) && !([0xFF] <= REPLACEMENT)
  {
    var b: Bytes := [0xFF];
    assert b[Step(b)..] == [] && Repaired(b) == REPLACEMENT;
    EscapedIsLiteral(REPLACEMENT, b);
    EscapedIsLiteral(REPLACEMENT, REPLACEMENT);
  }

  // ------------------------------------------------------------------------------ deletion

  datatype Scanned = Page(keys: seq<Bytes>, next: nat) | ScanFailed

  /** What the server does in one round: other clients remove and add keys, then SCAN answers with
      a page, then DEL works or fails; a failed DEL may have removed some of its keys. */
  datatype Round = Round(removed: set<Bytes>, added: set<Bytes>, reply: Scanned, delFails: bool)

  /** The last round of a call: the cursor is back at zero or a command has failed. */
  predicate Ends(r: Round) {
    r.reply.ScanFailed? || (r.reply.keys != [] && r.delFails) || r.reply.next == 0
  }

  predicate Succeeds(r: Round) {
    r.reply.Page? && r.reply.next == 0 && !(r.reply.keys != [] && r.delFails)
  }

  predicate Returned(rounds: seq<Round>, key: Bytes) {
    exists r <- rounds :: r.reply.Page? && key in r.reply.keys
  }

  predicate Left(rounds: seq<Round>, key: Bytes) {
    exists r <- rounds :: key in r.removed
  }

  predicate Joined(rounds: seq<Round>, key: Bytes) {
    exists r <- rounds :: key in r.added
  }

  /** What SCAN guarantees about a whole call: pages hold only matching keys, and a full iteration
      returns every matching key that nobody else removed meanwhile. */
  ghost predicate FullIteration(rounds: seq<Round>, match': Bytes, start: set<Bytes>) {
    && rounds != []
    && (forall i :: 0 <= i < |rounds| ==> (Ends(rounds[i]) <==> i == |rounds| - 1))
    && (forall r <- rounds :: r.reply.Page? ==> forall k <- r.reply.keys :: Matches(match', k))
    && (Succeeds(rounds[|rounds| - 1]) ==>
          forall k <- start :: Matches(match', k) && !Left(rounds, k) ==> Returned(rounds, k))
  }

  /** The database had the flush not run. */
  function Without(start: set<Bytes>, rounds: seq<Round>): set<Bytes> {
    if rounds == [] then start
    else
      var last := rounds[|rounds| - 1];
      Without(start, rounds[..|rounds| - 1]) - last.removed + last.added
  }

  /** One more round of the history. */
  lemma OneMore(rounds: seq<Round>, i: nat)
    requires i < |rounds|
    ensures forall k :: Returned(rounds[..i + 1], k) <==>
              Returned(rounds[..i], k) || (rounds[i].reply.Page? && k in rounds[i].reply.keys)
    ensures forall k :: Left(rounds[..i + 1], k) <==> Left(rounds[..i], k) || k in rounds[i].removed
    ensures forall k :: Joined(rounds[..i + 1], k) <==> Joined(rounds[..i], k) || k in rounds[i].added
    ensures forall start :: Without(start, rounds[..i + 1]) ==
              Without(start, rounds[..i]) - rounds[i].removed + rounds[i].added
  {
    assert rounds[..i + 1] == rounds[..i] + [rounds[i]] && rounds[..i + 1][..i] == rounds[..i];
  }

  class RedisCache {
    const prefix: Bytes
    /** The keys of the shared server. */
    var db: set<Bytes>

    constructor (prefix: Bytes, db: set<Bytes>)
      ensures this.prefix == prefix && this.db == db
    {
      this.prefix, this.db := prefix, db;
    }

    /** Deletes every matching key that was there throughout, whatever the pages and whoever else
        writes; a matching key that is there at the end was added meanwhile.  Keys that do not
        match are as they would be without the call, also when it fails. */
    method DeleteMatching(match': Bytes, rounds: seq<Round>) returns (ok: bool)
      requires FullIteration(rounds, match', db)
      modifies this`db
      ensures ok <==> Succeeds(rounds[|rounds| - 1])
      ensures ok ==> forall k <- db :: Matches(match', k) ==> Joined(rounds, k)
      ensures forall k: Bytes :: !Matches(match', k) ==> (k in db <==> k in Without(old(db), rounds))
    {
      ghost var start := db;
      var i := 0;
      while true
        invariant 0 <= i < |rounds|
        invariant forall k: Bytes :: !Matches(match', k) ==> (k in db <==> k in Without(start, rounds[..i]))
        invariant forall k <- db :: k in start || Joined(rounds[..i], k)
        invariant forall k <- db :: !Joined(rounds[..i], k) ==> !Left(rounds[..i], k) && !Returned(rounds[..i], k)
        decreases |rounds| - i
      {
        var round := rounds[i];
        OneMore(rounds, i);
        db := db - round.removed + round.added;
        if round.reply.ScanFailed? {
          assert rounds[..i + 1] == rounds;
          return false;
        }
        var keys := round.reply.keys;
        if |keys| > 0 {
          if round.delFails {
            var lost: set<Bytes> :| lost <= set k <- keys;
            db := db - lost;
            assert rounds[..i + 1] == rounds;
            return false;
          }
          db := db - set k <- keys;
        }
        i := i + 1;
        if round.reply.next == 0 {
          assert rounds[..i] == rounds;
          return true;
        }
      }
    }

    /** Flush of a valid prefix removes exactly what starts with it: every prefixed key that was
        there throughout is gone and no other key is touched. */
    method Flush(rounds: seq<Round>) returns (ok: bool)
      requires FullIteration(rounds, Escaped(Repaired(prefix)) + [STAR], db)
      modifies this`db
      ensures ok <==> Succeeds(rounds[|rounds| - 1])
      ensures ok && Valid(prefix) ==> forall k <- db :: prefix <= k ==> Joined(rounds, k)
      ensures Valid(prefix) ==> forall k: Bytes :: !(prefix <= k) ==> (k in db <==> k in Without(old(db), rounds))
    {
      var pattern := RedisScanPattern(prefix);
      if Valid(prefix) {
        RepairGrows(prefix);
        forall key ensures Matches(pattern, key) <==> prefix <= key { EscapedIsLiteral(prefix, key); }
      }
      ok := DeleteMatching(pattern, rounds);
    }
  }
}
