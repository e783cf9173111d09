/** Positional numerals: digit sequences in a base, and the characters that
    spell digits (`0`-`9`, then `a`-`z`, as `Number.prototype.toString` and
    `Number.parseInt` use them). */
module Numerals {
  import opened Optional

  /** The value of a most-significant-first digit sequence. */
  function FromDigits(ds: seq<nat>, base: nat): nat
    decreases |ds|
  {
    if |ds| == 0 then 0 else FromDigits(ds[..|ds| - 1], base) * base + ds[|ds| - 1]
  }

  predicate AllBelow(ds: seq<nat>, base: nat)
  {
    forall i :: 0 <= i < |ds| ==> ds[i] < base
  }

  /** The shortest most-significant-first digits of `n`. */
  function ToDigits(n: nat, base: nat): (r: seq<nat>)
    requires base >= 2
    ensures |r| >= 1 && AllBelow(r, base)
    ensures r[0] == 0 ==> n == 0
    decreases n
  {
    if n < base then [n]
    else
      DivModBounds(n, base);
      var front := ToDigits(n / base, base);
      assert (front + [n % base])[0] == front[0];
      front + [n % base]
  }

  lemma DivModBounds(n: nat, base: nat)
    requires 2 <= base <= n
    ensures 1 <= n / base < n && n % base < base
  {
  }

  lemma {:induction false} ToDigitsRoundTrip(n: nat, base: nat)
    requires base >= 2
    ensures FromDigits(ToDigits(n, base), base) == n
    decreases n
  {
    if n >= base {
      var q, m := n / base, n % base;
      DivModBounds(n, base);
      var front := ToDigits(q, base);
      var ds := front + [m];
      assert ToDigits(n, base) == ds;
      assert ds[..|ds| - 1] == front;
      ToDigitsRoundTrip(q, base);
      assert FromDigits(ds, base) == FromDigits(front, base) * base + m;
      DivModIdentity(n, base);
    }
  }

  lemma DivModIdentity(n: nat, base: nat)
    requires base >= 2
    ensures (n / base) * base + n % base == n
  {
  }

  /** The character spelling digit `d` (lower-case letters above nine). */
  function DigitChar(d: nat): char
    requires d < 36
  {
    if d < 10 then (48 + d) as char else (87 + d) as char
  }

  /** The digit a character spells, letters in either case. */
  function DigitOf(c: char): (r: Option<nat>)
    ensures r.Some? ==> r.value < 36
  {
    if '0' <= c <= '9' then Some(c as int - 48)
    else if 'a' <= c <= 'z' then Some(c as int - 87)
    else if 'A' <= c <= 'Z' then Some(c as int - 55)
    else None
  }

  lemma DigitCharRoundTrip(d: nat)
    requires d < 36
    ensures DigitOf(DigitChar(d)) == Some(d)
  {
  }

  function DigitsToChars(ds: seq<nat>): (r: string)
    requires AllBelow(ds, 36)
    ensures |r| == |ds|
    ensures forall i :: 0 <= i < |ds| ==> DigitOf(r[i]) == Some(ds[i])
    decreases |ds|
  {
    if |ds| == 0 then [] else [DigitChar(ds[0])] + DigitsToChars(ds[1..])
  }

  /** A character is a digit of `base` when it spells a digit below it. */
  predicate IsDigitIn(c: char, base: nat)
  {
    DigitOf(c).Some? && DigitOf(c).value < base
  }

  /** The digit a character spells, zero for a character that spells none. */
  function DigitValue(c: char): nat
  {
    match DigitOf(c)
    case Some(d) => d
    case None => 0
  }

  function CharsToDigits(cs: string): (r: seq<nat>)
    ensures |r| == |cs|
    ensures forall i :: 0 <= i < |cs| && DigitOf(cs[i]).Some? ==> Some(r[i]) == DigitOf(cs[i])
    decreases |cs|
  {
    if |cs| == 0 then [] else [DigitValue(cs[0])] + CharsToDigits(cs[1..])
  }

  lemma CharsOfDigitsRoundTrip(ds: seq<nat>)
    requires AllBelow(ds, 36)
    ensures CharsToDigits(DigitsToChars(ds)) == ds
  {
    var cs := DigitsToChars(ds);
    var back := CharsToDigits(cs);
    assert forall i :: 0 <= i < |ds| ==> back[i] == ds[i];
  }

  /** The numeral of `n` in `base`, as `n.toString(base)` writes it. */
  function NatToString(n: nat, base: nat): (r: string)
    requires 2 <= base <= 36
    ensures |r| >= 1
    ensures forall i :: 0 <= i < |r| ==> IsDigitIn(r[i], base)
  {
    DigitsToChars(ToDigits(n, base))
  }

  /** Reading back a numeral written by `NatToString` gives the number. */
  lemma NatToStringRoundTrip(n: nat, base: nat)
    requires 2 <= base <= 36
    ensures FromDigits(CharsToDigits(NatToString(n, base)), base) == n
  {
    CharsOfDigitsRoundTrip(ToDigits(n, base));
    ToDigitsRoundTrip(n, base);
  }
}
