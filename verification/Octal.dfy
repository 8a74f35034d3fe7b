/** tar_octal, and the octal number fields of the "ustar Interchange Format" (pax, POSIX.1-2017). */
module Octal {
  import opened Bits

  predicate IsOctal(c: Byte) { 48 <= c <= 55 }

  /** The value of a digit. */
  function Digit(c: Byte): (d: nat)
    requires IsOctal(c)
    ensures d < 8
  {
    c as int - 48
  }

  /** How many octal digits s begins with. */
  function Run(s: seq<Byte>): (n: nat)
    ensures n <= |s| && (forall i :: 0 <= i < n ==> IsOctal(s[i])) && (n < |s| ==> !IsOctal(s[n]))
  {
    if s == [] || !IsOctal(s[0]) then 0 else 1 + Run(s[1..])
  }

  /** The number that octal digits spell. */
  function Value(s: seq<Byte>): nat
    requires forall i :: 0 <= i < |s| ==> IsOctal(s[i])
  {
    if s == [] then 0 else 8 * Value(s[..|s| - 1]) + Digit(s[|s| - 1])
  }

  function Pow8(w: nat): nat {
    if w == 0 then 1 else 8 * Pow8(w - 1)
  }

  /** n as w zero-padded octal digits. */
  function Print(n: nat, w: nat): (s: seq<Byte>)
    ensures |s| == w && forall i :: 0 <= i < w ==> IsOctal(s[i])
  {
    if w == 0 then [] else Print(n / 8, w - 1) + [48 + n % 8]
  }

  /** Printing loses nothing that fits. */
  lemma {:induction false} PrintValue(n: nat, w: nat)
    requires n < Pow8(w)
    ensures Value(Print(n, w)) == n
  {
    if w > 0 {
      PrintValue(n / 8, w - 1);
      assert Print(n, w)[..w - 1] == Print(n / 8, w - 1);
    }
  }

  /** A number field: w zero-padded digits, then a NUL or a space unless the field is full. */
  ghost predicate Field(f: seq<Byte>, n: nat) {
    exists w: nat :: FieldOf(f, n, w)
  }

  ghost predicate FieldOf(f: seq<Byte>, n: nat, w: nat) {
    w <= |f| && n < Pow8(w) && f[..w] == Print(n, w) && (w < |f| ==> f[w] == 0 || f[w] == 32)
  }

  /** A shift by three leaves room for a digit. */
  lemma {:induction false} OrDigit(x: nat, d: nat)
    requires d < 8
    ensures Or(8 * x, d) == 8 * x + d
  {
    hide Or;
    OrTwice(4 * x, d);
    OrTwice(2 * x, d / 2);
    OrTwice(x, d / 4);
    OrZero(x);
    LowDigits(d);
  }

  lemma {:induction false} LowDigits(d: nat)
    requires d < 8
    ensures d == d % 2 + 2 * (d / 2 % 2) + 4 * (d / 4 % 2) && d / 2 / 2 == d / 4 && d / 4 / 2 == 0
  {
  }

  lemma {:induction false} ShiftWraps(v: nat)
    ensures v % WRAP * 8 % WRAP == 8 * (v % WRAP * 8 % WRAP / 8) && v % WRAP * 8 % WRAP == v * 8 % WRAP && v * 8 % WRAP + 7 < WRAP
  {
    var q, r := v / WRAP, v % WRAP;
    assert v * 8 == q * 8 * WRAP + r * 8;
    ModAdd(q * 8, r * 8);
    var m := r * 8 / WRAP;
    assert r * 8 == m * WRAP + r * 8 % WRAP;
    assert r * 8 % WRAP == 8 * (r - m * 0x2000_0000);
  }

  lemma {:induction false} ModAdd(q: nat, r: nat)
    ensures (q * WRAP + r) % WRAP == r % WRAP
  {
    if q > 0 {
      ModAdd(q - 1, r);
      assert q * WRAP + r == ((q - 1) * WRAP + r) + WRAP;
    }
  }

  /** tar_octal: the number the leading digits spell, modulo 2^32. */
  method TarOctal(s: seq<Byte>, len: nat) returns (val: Word)
    requires len <= |s|
    ensures val == Value(s[..Run(s[..len])]) % WRAP
  {
    val := 0;
    var i := 0;
    while i < len && s[i] != 0
      invariant i <= len && forall k :: 0 <= k < i ==> IsOctal(s[k])
      invariant val == Value(s[..i]) % WRAP
    {
      if IsOctal(s[i]) {
        PushDigit(s, i, val);
        val := Or(val * 8 % WRAP, Digit(s[i]));
      } else {
        break;
      }
      i := i + 1;
    }
    RunIs(s[..len], i);
  }

  lemma {:induction false} PushDigit(s: seq<Byte>, i: nat, val: Word)
    requires i < |s| && (forall k :: 0 <= k <= i ==> IsOctal(s[k])) && val == Value(s[..i]) % WRAP
    ensures Or(val * 8 % WRAP, Digit(s[i])) == Value(s[..i + 1]) % WRAP
  {
    assert s[..i + 1][..i] == s[..i];
    var v := Value(s[..i]);
    ShiftWraps(v);
    OrDigit(val * 8 % WRAP / 8, Digit(s[i]));
    ModStep(v * 8, Digit(s[i]));
  }

  lemma {:induction false} ModStep(v: nat, d: nat)
    requires v % WRAP + d < WRAP
    ensures (v + d) % WRAP == v % WRAP + d
  {
    ModAdd(v / WRAP, v % WRAP + d);
  }

  lemma {:induction false} RunIs(s: seq<Byte>, n: nat)
    requires n <= |s| && (forall i :: 0 <= i < n ==> IsOctal(s[i])) && (n < |s| ==> !IsOctal(s[n]))
    ensures Run(s) == n
  {
  }

  /** Reading a field gives back the number printed in it, if and only if that is below 2^32. */
  lemma {:induction false} FieldRoundTrip(f: seq<Byte>, n: nat)
    requires Field(f, n)
    ensures Value(f[..Run(f)]) == n && (Value(f[..Run(f)]) % WRAP == n <==> n < WRAP)
  {
    var w: nat :| FieldOf(f, n, w);
    assert forall i :: 0 <= i < w ==> f[i] == f[..w][i];
    RunIs(f, w);
    PrintValue(n, w);
  }
}
