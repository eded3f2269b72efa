/** UTF-8 as ranging over a Go string decodes it and WriteRune encodes it. */
module Utf8 {
  type Byte = x: int | 0 <= x < 256

  type Bytes = seq<Byte>

  const RUNE_ERROR: nat := 0xFFFD
  const MAX_RUNE: nat := 0x10FFFF

  predicate Continues(b: Bytes, i: nat) {
    i < |b| && 0x80 <= b[i] <= 0xBF
  }

  /** The second byte is in the range that the first one allows. */
  predicate SecondFits(b: Bytes) {
    && |b| >= 2
    && (if b[0] == 0xE0 then 0xA0 else if b[0] == 0xF0 then 0x90 else 0x80) <= b[1]
    && b[1] <= (if b[0] == 0xED then 0x9F else if b[0] == 0xF4 then 0x8F else 0xBF)
  }

  /** The length of the well-formed sequence at the front; 0 if there is none. */
  function Width(b: Bytes): (n: nat)
    ensures n <= |b| && n <= 4
  {
    if b == [] then 0
    else if b[0] < 0x80 then 1
    else if 0xC2 <= b[0] <= 0xDF && SecondFits(b) then 2
    else if 0xE0 <= b[0] <= 0xEF && SecondFits(b) && Continues(b, 2) then 3
    else if 0xF0 <= b[0] <= 0xF4 && SecondFits(b) && Continues(b, 2) && Continues(b, 3) then 4
    else 0
  }

  /** The rune at the front; an ill-formed byte decodes to the replacement character. */
  function Decode(b: Bytes): (r: nat)
    requires b != []
  {
    match Width(b)
    case 1 => b[0]
    case 2 => (b[0] - 0xC0) * 0x40 + (b[1] - 0x80)
    case 3 => (b[0] - 0xE0) * 0x1000 + (b[1] - 0x80) * 0x40 + (b[2] - 0x80)
    case 4 => (b[0] - 0xF0) * 0x40000 + (b[1] - 0x80) * 0x1000 + (b[2] - 0x80) * 0x40 + (b[3] - 0x80)
    case _ => RUNE_ERROR
  }

  /** How many bytes ranging over a string steps over. */
  function Step(b: Bytes): (n: nat)
    requires b != []
    ensures 0 < n <= |b|
  {
    if Width(b) == 0 then 1 else Width(b)
  }

  /** The runes that ranging over a string yields. */
  function Runes(b: Bytes): seq<nat> {
    if b == [] then [] else [Decode(b)] + Runes(b[Step(b)..])
  }

  function Encode(r: nat): (b: Bytes)
    ensures b != []
    ensures r < 0x80 ==> b == [r]
    ensures r >= 0x80 ==> forall x <- b :: x >= 0x80
  {
    if r < 0x80 then [r]
    else if r < 0x800 then [0xC0 + r / 0x40, 0x80 + r % 0x40]
    else if r > MAX_RUNE || 0xD800 <= r <= 0xDFFF then [0xEF, 0xBF, 0xBD]
    else if r < 0x10000 then [0xE0 + r / 0x1000, 0x80 + r / 0x40 % 0x40, 0x80 + r % 0x40]
    else [0xF0 + r / 0x40000, 0x80 + r / 0x1000 % 0x40, 0x80 + r / 0x40 % 0x40, 0x80 + r % 0x40]
  }

  lemma Digits(x: nat, y: nat)
    requires y < 0x40
    ensures (x * 0x40 + y) / 0x40 == x && (x * 0x40 + y) % 0x40 == y
  {
  }

  lemma Encode2(x: nat, y: nat)
    requires 2 <= x < 0x20 && y < 0x40
    ensures Encode(x * 0x40 + y) == [0xC0 + x, 0x80 + y]
  {
    Digits(x, y);
  }

  lemma Encode3(x: nat, y: nat, z: nat)
    requires x < 0x10 && y < 0x40 && z < 0x40
    requires x == 0 ==> y >= 0x20
    requires x == 0xD ==> y < 0x20
    ensures Encode(x * 0x1000 + y * 0x40 + z) == [0xE0 + x, 0x80 + y, 0x80 + z]
  {
    var r := x * 0x1000 + y * 0x40 + z;
    Digits(x * 0x40 + y, z);
    Digits(x, y);
    assert r / 0x1000 == x;
  }

  lemma Encode4(w: nat, x: nat, y: nat, z: nat)
    requires w <= 4 && x < 0x40 && y < 0x40 && z < 0x40
    requires w == 0 ==> x >= 0x10
    requires w == 4 ==> x < 0x10
    ensures Encode(w * 0x40000 + x * 0x1000 + y * 0x40 + z) == [0xF0 + w, 0x80 + x, 0x80 + y, 0x80 + z]
  {
    var r := w * 0x40000 + x * 0x1000 + y * 0x40 + z;
    Digits(w * 0x1000 + x * 0x40 + y, z);
    Digits(w * 0x40 + x, y);
    Digits(w, x);
    assert r / 0x1000 == w * 0x40 + x && r / 0x40000 == w;
  }

  /** Re-encoding a decoded rune gives back its bytes, or the replacement for an ill-formed byte. */
  lemma EncodeDecodes(b: Bytes)
    requires b != []
    ensures Width(b) > 0 ==> Encode(Decode(b)) == b[..Width(b)]
    ensures Width(b) == 0 ==> Encode(Decode(b)) == REPLACEMENT
  {
    match Width(b)
    case 2 => Encode2(b[0] - 0xC0, b[1] - 0x80);
    case 3 => Encode3(b[0] - 0xE0, b[1] - 0x80, b[2] - 0x80);
    case 4 => Encode4(b[0] - 0xF0, b[1] - 0x80, b[2] - 0x80, b[3] - 0x80);
    case _ =>
  }

  predicate Valid(b: Bytes) {
    b == [] || (Width(b) > 0 && Valid(b[Width(b)..]))
  }

  const REPLACEMENT: Bytes := [0xEF, 0xBF, 0xBD]

  /** The text with every ill-formed byte replaced. */
  function Repaired(b: Bytes): Bytes {
    if b == [] then []
    else (if Width(b) == 0 then REPLACEMENT else b[..Width(b)]) + Repaired(b[Step(b)..])
  }


  lemma {:induction false} RepairGrows(b: Bytes)
    ensures Valid(b) ==> Repaired(b) == b
    ensures !Valid(b) ==> |Repaired(b)| > |b|
  {
    if b != [] {
      var n, k := Width(b), Step(b);
      var rest := b[k..];
      RepairGrows(rest);
      var head := if n == 0 then REPLACEMENT else b[..n];
      assert Repaired(b) == head + Repaired(rest);
      assert Valid(b) <==> n > 0 && Valid(rest);
      assert |rest| == |b| - k;
      if Valid(b) {
        assert b == b[..n] + rest;
      }
    }
  }
}
