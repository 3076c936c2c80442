/**
 * Random identifiers: `generateId` of the kanban and calendar types (four
 * groups of four hexadecimal digits) and `uuidv4` of the guest book backend.
 * A call to `Math.random()` is a parameter: a real in [0, 1).
 */
module HexIds {

  predicate IsHexDigit(c: char) {
    '0' <= c <= '9' || 'a' <= c <= 'f'
  }

  predicate IsHex(s: string) {
    forall i :: 0 <= i < |s| ==> IsHexDigit(s[i])
  }

  /** The lowercase digit of a value below 16. */
  function HexDigit(v: nat): (c: char)
    requires v < 16
    ensures IsHexDigit(c)
  {
    if v < 10 then ('0' as int + v) as char else ('a' as int + v - 10) as char
  }

  /** Value of one lowercase hexadecimal digit. */
  function DigitValue(c: char): (v: nat)
    requires IsHexDigit(c)
    ensures v < 16 && HexDigit(v) == c
  {
    if '0' <= c <= '9' then (c - '0') as nat else (c - 'a') as nat + 10
  }

  lemma DigitRoundTrip(v: nat)
    requires v < 16
    ensures DigitValue(HexDigit(v)) == v
  {
  }

  /** `n.toString(16)` for a non-negative integer: no leading zeros, lowercase. */
  function Hex(n: nat): (s: string)
    ensures IsHex(s) && |s| >= 1
    ensures n > 0 ==> s[0] != '0'
  {
    if n < 16 then [HexDigit(n)] else Hex(n / 16) + [HexDigit(n % 16)]
  }

  /** The number a string of hexadecimal digits spells. */
  function HexValue(s: string): nat
    requires IsHex(s)
  {
    if |s| == 0 then 0 else HexValue(s[..|s| - 1]) * 16 + DigitValue(s[|s| - 1])
  }

  function Pow16(k: nat): (p: nat)
    ensures p >= 1
  {
    if k == 0 then 1 else 16 * Pow16(k - 1)
  }

  /** Printing in base 16 and reading back gives the number again. */
  lemma {:induction false} HexRoundTrip(n: nat)
    ensures HexValue(Hex(n)) == n
  {
    var h := Hex(n);
    if n >= 16 {
      HexRoundTrip(n / 16);
      assert h[..|h| - 1] == Hex(n / 16);
      DigitRoundTrip(n % 16);
    } else {
      assert h[..0] == [];
      DigitRoundTrip(n);
    }
  }

  /** A number in [16^(k-1), 16^k) prints with exactly `k` digits. */
  lemma {:induction false} HexLength(n: nat, k: nat)
    requires k >= 1 && Pow16(k - 1) <= n < Pow16(k)
    ensures |Hex(n)| == k
  {
    if k >= 2 {
      assert Pow16(k - 1) == 16 * Pow16(k - 2);
    }
    if n >= 16 {
      HexLength(n / 16, k - 1);
    }
  }

  /** `k` hexadecimal digits spell a number below 16^k. */
  lemma {:induction false} HexValueBound(s: string)
    requires IsHex(s)
    ensures HexValue(s) < Pow16(|s|)
  {
    if |s| > 0 {
      HexValueBound(s[..|s| - 1]);
    }
  }

  lemma Distribute(d: nat, p: nat, v: nat, e: nat)
    ensures (d * p + v) * 16 + e == d * (16 * p) + (v * 16 + e)
  {
  }

  /** A leading digit weighs 16 to the power of the digits after it. */
  lemma {:induction false} HexValueCons(c: char, t: string)
    requires IsHexDigit(c) && IsHex(t)
    ensures IsHex([c] + t)
    ensures HexValue([c] + t) == DigitValue(c) * Pow16(|t|) + HexValue(t)
  {
    var s := [c] + t;
    if |t| > 0 {
      var t' := t[..|t| - 1];
      assert s[..|s| - 1] == [c] + t';
      HexValueCons(c, t');
      var d := DigitValue(c);
      var p := Pow16(|t'|);
      var e := DigitValue(t[|t| - 1]);
      assert s[|s| - 1] == t[|t| - 1];
      assert HexValue(s) == HexValue([c] + t') * 16 + e;
      assert HexValue(t) == HexValue(t') * 16 + e;
      assert Pow16(|t|) == 16 * p;
      Distribute(d, p, HexValue(t'), e);
    } else {
      assert s[..0] == [];
    }
  }

  /** `floor` commutes with adding a whole number. */
  lemma FloorShift(r: real)
    ensures ((1.0 + r) * 65536.0).Floor == 65536 + (r * 65536.0).Floor
  {
    assert (1.0 + r) * 65536.0 == 65536.0 + r * 65536.0;
  }

  /**
   * `S4`: `((1 + r) * 0x10000) | 0` lies in [0x10000, 0x20000), so its base-16
   * form has five digits starting with `1`; dropping that one leaves the four
   * digits of `floor(r * 0x10000)`, leading zeros kept.
   */
  function S4(r: real): (s: string)
    requires 0.0 <= r < 1.0
    ensures |s| == 4 && IsHex(s)
    ensures HexValue(s) == (r * 65536.0).Floor
  {
    var n := ((1.0 + r) * 65536.0).Floor;
    FloorShift(r);
    assert 0 <= (r * 65536.0).Floor < 65536;
    var h := Hex(n);
    assert Pow16(4) == 65536 && Pow16(5) == 1048576 by {
      assert Pow16(1) == 16 && Pow16(2) == 256 && Pow16(3) == 4096;
    }
    HexLength(n, 5);
    HexRoundTrip(n);
    assert h == [h[0]] + h[1..];
    HexValueCons(h[0], h[1..]);
    HexValueBound(h[1..]);
    h[1..]
  }

  /** Two draws give the same group of four digits exactly when they agree to 1/65536. */
  lemma S4Injective(r1: real, r2: real)
    requires 0.0 <= r1 < 1.0 && 0.0 <= r2 < 1.0
    ensures S4(r1) == S4(r2) <==> (r1 * 65536.0).Floor == (r2 * 65536.0).Floor
  {
    if (r1 * 65536.0).Floor == (r2 * 65536.0).Floor {
      FloorShift(r1);
      FloorShift(r2);
    }
  }

  /** `generateId`: four groups from four draws, sixteen hexadecimal digits. */
  function GenerateId(r1: real, r2: real, r3: real, r4: real): (id: string)
    requires 0.0 <= r1 < 1.0 && 0.0 <= r2 < 1.0 && 0.0 <= r3 < 1.0 && 0.0 <= r4 < 1.0
    ensures |id| == 16 && IsHex(id)
    ensures id[0..4] == S4(r1) && id[4..8] == S4(r2) && id[8..12] == S4(r3) && id[12..16] == S4(r4)
  {
    S4(r1) + S4(r2) + S4(r3) + S4(r4)
  }

  /** Two ids coincide exactly when every draw agrees with its partner to 1/65536. */
  lemma GenerateIdDetermined(a1: real, a2: real, a3: real, a4: real, b1: real, b2: real, b3: real, b4: real)
    requires 0.0 <= a1 < 1.0 && 0.0 <= a2 < 1.0 && 0.0 <= a3 < 1.0 && 0.0 <= a4 < 1.0
    requires 0.0 <= b1 < 1.0 && 0.0 <= b2 < 1.0 && 0.0 <= b3 < 1.0 && 0.0 <= b4 < 1.0
    ensures GenerateId(a1, a2, a3, a4) == GenerateId(b1, b2, b3, b4) <==>
      (a1 * 65536.0).Floor == (b1 * 65536.0).Floor && (a2 * 65536.0).Floor == (b2 * 65536.0).Floor &&
      (a3 * 65536.0).Floor == (b3 * 65536.0).Floor && (a4 * 65536.0).Floor == (b4 * 65536.0).Floor
  {
    S4Injective(a1, b1);
    S4Injective(a2, b2);
    S4Injective(a3, b3);
    S4Injective(a4, b4);
  }

  // ---------------------------------------------------------------------------
  // uuidv4

  /** One hexadecimal digit per draw. */
  function Digits(d: seq<nat>): (s: string)
    requires forall i :: 0 <= i < |d| ==> d[i] < 16
    ensures |s| == |d| && forall i :: 0 <= i < |d| ==> s[i] == HexDigit(d[i])
  {
    seq(|d|, i requires 0 <= i < |d| => HexDigit(d[i]))
  }

  /** Position in the uuid of the digit drawn `j`-th. */
  function Slot(j: nat): nat {
    if j < 8 then j else if j < 12 then j + 1 else if j < 15 then j + 3 else if j < 19 then j + 4 else j + 5
  }

  /**
   * `uuidv4`: the template `xxxxxxxx-xxxx-4xxx-yxxx-xxxxxxxxxxxx` with each `x`
   * replaced by the digit of a draw `floor(random * 16)` and the `y` by that
   * digit with its top bits forced to `10` (`r & 0x3 | 0x8`), draws taken left
   * to right.
   */
  function Uuid4(draws: seq<nat>): (u: string)
    requires |draws| == 31
    requires forall i :: 0 <= i < |draws| ==> draws[i] < 16
    ensures |u| == 36
    ensures u[8] == '-' && u[13] == '-' && u[18] == '-' && u[23] == '-' && u[14] == '4'
    ensures forall j :: 0 <= j < 31 && j != 15 ==> u[Slot(j)] == HexDigit(draws[j])
    ensures u[19] == HexDigit(draws[15] % 4 + 8)
  {
    Digits(draws[0..8]) + "-" + Digits(draws[8..12]) + "-4" + Digits(draws[12..15]) + "-" +
    [HexDigit(draws[15] % 4 + 8)] + Digits(draws[16..19]) + "-" + Digits(draws[19..31])
  }

  /** Reading the digits of a uuid back gives the draws, the variant digit giving its low two bits. */
  lemma Uuid4Decode(draws: seq<nat>)
    requires |draws| == 31
    requires forall i :: 0 <= i < |draws| ==> draws[i] < 16
    ensures forall j :: 0 <= j < 31 && j != 15 ==> DigitValue(Uuid4(draws)[Slot(j)]) == draws[j]
    ensures DigitValue(Uuid4(draws)[19]) % 4 == draws[15] % 4
    ensures 8 <= DigitValue(Uuid4(draws)[19]) < 12
  {
    var u := Uuid4(draws);
    forall j | 0 <= j < 31 && j != 15 ensures DigitValue(u[Slot(j)]) == draws[j] {
      DigitRoundTrip(draws[j]);
    }
    DigitRoundTrip(draws[15] % 4 + 8);
  }
}
