/**
 Signed 64-bit counters stored as decimal text: the checked arithmetic of MemoryCache and the
 text form it goes through.
 */
module Counters {
  import opened Wrappers

  const MIN_INT64 := -0x8000_0000_0000_0000
  const MAX_INT64 := 0x7fff_ffff_ffff_ffff

  /** Machine integers: the verifier rejects any intermediate value outside the range. */
  newtype int64 = x: int | MIN_INT64 <= x <= MAX_INT64

  datatype CounterError = NotAnInteger | Overflow | TooLarge | InsufficientMemory

  predicate Fits(x: int) {
    MIN_INT64 <= x <= MAX_INT64
  }

  function Exact(current: int, value: int, decrement: bool): int {
    if decrement then current - value else current + value
  }

  /** The sum is returned exactly when it fits, and no intermediate value overflows. */
  function CheckedCounterAdd(current: int64, value: int64): (r: Result<int64, CounterError>)
    ensures r.Ok? <==> Fits(current as int + value as int)
    ensures r.Ok? ==> r.value as int == current as int + value as int
    ensures r.Err? ==> r.error == Overflow
  {
    if value > 0 && current > MAX_INT64 as int64 - value then Err(Overflow)
    else if value < 0 && current < MIN_INT64 as int64 - value then Err(Overflow)
    else Ok(current + value)
  }

  /** The mathematical sum or difference exactly when it fits, also when decrementing by the
      least integer, whose negation does not exist. */
  function CounterResult(current: int64, value: int64, decrement: bool): (r: Result<int64, CounterError>)
    ensures r.Ok? <==> Fits(Exact(current as int, value as int, decrement))
    ensures r.Ok? ==> r.value as int == Exact(current as int, value as int, decrement)
    ensures r.Err? ==> r.error == Overflow
  {
    if !decrement then CheckedCounterAdd(current, value)
    else if value == MIN_INT64 as int64 then
      if current >= 0 then Err(Overflow) else Ok(MAX_INT64 as int64 + current + 1)
    else CheckedCounterAdd(current, -value)
  }

  // ------------------------------------------------------------------------ decimal text

  predicate IsDigit(c: char) {
    '0' <= c <= '9'
  }

  function DigitValue(c: char): nat
    requires IsDigit(c)
  {
    c as int - '0' as int
  }

  function Digit(d: nat): (c: char)
    requires d < 10
    ensures IsDigit(c) && DigitValue(c) == d
  {
    ('0' as int + d) as char
  }

  predicate AllDigits(s: string) {
    forall c <- s :: IsDigit(c)
  }

  function ParseDigits(s: string): nat
    requires AllDigits(s)
  {
    if s == [] then 0 else 10 * ParseDigits(s[..|s| - 1]) + DigitValue(s[|s| - 1])
  }

  function FormatDigits(n: nat): (s: string)
    ensures s != [] && AllDigits(s)
  {
    if n < 10 then [Digit(n)] else FormatDigits(n / 10) + [Digit(n % 10)]
  }

  /** Base-10 parsing of a signed 64-bit integer: an optional sign and at least one digit. */
  function ParseInt(s: string): Option<int64> {
    var negative := s != [] && s[0] == '-';
    var digits := if s != [] && (s[0] == '-' || s[0] == '+') then s[1..] else s;
    if digits == [] || !AllDigits(digits) then None
    else
      var magnitude: int := ParseDigits(digits);
      var x := if negative then -magnitude else magnitude;
      if Fits(x) then Some(x as int64) else None
  }

  function FormatInt(x: int64): string {
    if x < 0 then ['-'] + FormatDigits(-(x as int)) else FormatDigits(x as int)
  }

  lemma {:induction false} DigitsRoundTrip(n: nat)
    ensures ParseDigits(FormatDigits(n)) == n
  {
    if n >= 10 {
      DigitsRoundTrip(n / 10);
      var s := FormatDigits(n);
      assert s[..|s| - 1] == FormatDigits(n / 10);
    }
  }

  lemma TextRoundTrip(x: int64)
    ensures ParseInt(FormatInt(x)) == Some(x)
  {
    var digits := FormatDigits(if x < 0 then -(x as int) else x as int);
    DigitsRoundTrip(if x < 0 then -(x as int) else x as int);
    assert IsDigit(digits[0]);
    if x < 0 { assert FormatInt(x)[1..] == digits; }
  }

  // --------------------------------------------------------------------- runs of a counter

  datatype Change = Change(value: int64, decrement: bool)

  /** The stored text after one change; a missing counter counts as zero. */
  function Changed(text: Option<string>, c: Change): Result<string, CounterError> {
    var parsed := if text.None? then Some(0) else ParseInt(text.value);
    if parsed.None? then Err(NotAnInteger)
    else
      var r := CounterResult(parsed.value, c.value, c.decrement);
      if r.Err? then Err(r.error) else Ok(FormatInt(r.value))
  }

  function Net(changes: seq<Change>): int {
    if changes == [] then 0
    else Exact(Net(changes[..|changes| - 1]), changes[|changes| - 1].value as int, changes[|changes| - 1].decrement)
  }

  function ChangedBy(text: Option<string>, changes: seq<Change>): Result<string, CounterError>
    requires changes != []
  {
    if |changes| == 1 then Changed(text, changes[0])
    else
      var before := ChangedBy(text, changes[..|changes| - 1]);
      if before.Err? then before else Changed(Some(before.value), changes[|changes| - 1])
  }

  lemma OneMoreChange(changes: seq<Change>, x: nat)
    requires x < |changes|
    ensures changes[..x + 1] == changes[..x] + [changes[x]]
  {
  }

  lemma ChangedByOneMore(text: Option<string>, past: seq<Change>, c: Change)
    ensures ChangedBy(text, past + [c]) ==
            if past == [] then Changed(text, c)
            else if ChangedBy(text, past).Err? then ChangedBy(text, past)
            else Changed(Some(ChangedBy(text, past).value), c)
  {
    assert (past + [c])[..|past|] == past;
  }

  /** The result is the initial value, zero if there was none, plus the net change. */
  predicate Exactly(text: Option<string>, changes: seq<Change>, result: string) {
    && (text.Some? ==> ParseInt(text.value).Some?) && ParseInt(result).Some?
    && ParseInt(result).value as int == (if text.None? then 0 else ParseInt(text.value).value as int) + Net(changes)
  }

  /** Over any run of successful changes the stored text is the initial value plus the net change. */
  lemma {:induction false} RunIsExact(text: Option<string>, changes: seq<Change>)
    requires changes != [] && ChangedBy(text, changes).Ok?
    ensures Exactly(text, changes, ChangedBy(text, changes).value)
  {
    var last := changes[|changes| - 1];
    var parsed := if text.None? then Some(0) else ParseInt(text.value);
    if |changes| == 1 {
      assert changes[..0] == [];
      TextRoundTrip(CounterResult(parsed.value, last.value, last.decrement).value);
    } else {
      var init := changes[..|changes| - 1];
      RunIsExact(text, init);
      var mid := ParseInt(ChangedBy(text, init).value);
      TextRoundTrip(CounterResult(mid.value, last.value, last.decrement).value);
    }
  }
}
