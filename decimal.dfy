/**
 * Python's `str()` of an integer: the decimal rendering that
 * cloudvolume/datasource/graphene/sharding.py uses for shard filenames and
 * cloudvolume/datasource/graphene/metadata.py uses for the keys of
 * `draco_grid_sizes`.
 */
module Decimal {

  /** The digit character for `d`. */
  function DigitChar(d: nat): (c: char)
    requires d < 10
    ensures '0' <= c <= '9'
  {
    "0123456789"[d]
  }

  /** The value of a digit character. */
  function DigitValue(c: char): (d: nat)
    requires IsDigit(c)
    ensures d < 10 && DigitChar(d) == c
  {
    var d := c as int - '0' as int;
    assert "0123456789"[d] == c;
    d
  }

  predicate IsDigit(c: char) {
    '0' <= c <= '9'
  }

  /** `str(n)` for `n >= 0`: digits only, most significant first, no leading zero. */
  function NatString(n: nat): string
    decreases n
  {
    if n < 10 then [DigitChar(n)] else NatString(n / 10) + [DigitChar(n % 10)]
  }

  /** `str(i)` for any int: a minus sign in front of a negative number's magnitude. */
  function IntString(i: int): string {
    if i < 0 then "-" + NatString(-i) else NatString(i)
  }

  /** `int(s)` for a string of digits. */
  function ParseNat(s: string): nat
    requires forall j :: 0 <= j < |s| ==> IsDigit(s[j])
  {
    if |s| == 0 then 0 else ParseNat(s[..|s| - 1]) * 10 + DigitValue(s[|s| - 1])
  }

  /** The rendering is a non-empty run of digits whose first digit is 0 only for 0 itself. */
  lemma {:induction false} NatStringDigits(n: nat)
    ensures |NatString(n)| > 0
    ensures forall j :: 0 <= j < |NatString(n)| ==> IsDigit(NatString(n)[j])
    ensures NatString(n)[0] == '0' <==> n == 0
    decreases n
  {
    if n >= 10 {
      NatStringDigits(n / 10);
      assert NatString(n)[0] == NatString(n / 10)[0];
    }
  }

  /** `int(str(n)) == n`. */
  lemma {:induction false} NatStringRoundTrip(n: nat)
    ensures NatStringDigitsHold(n) && ParseNat(NatString(n)) == n
    decreases n
  {
    NatStringDigits(n);
    var s := NatString(n);
    if n >= 10 {
      var q, d := n / 10, n % 10;
      NatStringRoundTrip(q);
      assert s == NatString(q) + [DigitChar(d)];
      assert s[..|s| - 1] == NatString(q);
      assert DigitValue(s[|s| - 1]) == d;
      assert n == q * 10 + d;
    } else {
      assert s[..|s| - 1] == [];
    }
  }

  /** `NatStringDigits`'s middle clause, which `ParseNat` needs. */
  predicate NatStringDigitsHold(n: nat) {
    forall j :: 0 <= j < |NatString(n)| ==> IsDigit(NatString(n)[j])
  }

  /** Distinct numbers render differently. */
  lemma NatStringInjective(a: nat, b: nat)
    ensures NatString(a) == NatString(b) <==> a == b
  {
    NatStringRoundTrip(a);
    NatStringRoundTrip(b);
  }

  /** A rendering starts with '-' exactly when the number is negative. */
  lemma IntStringSign(i: int)
    ensures |IntString(i)| > 0 && (IntString(i)[0] == '-' <==> i < 0)
    ensures i < 0 ==> IntString(i)[1..] == NatString(-i)
  {
    if i < 0 {
      NatStringDigits(-i);
      assert IntString(i)[1..] == NatString(-i);
    } else {
      NatStringDigits(i);
      assert IsDigit(NatString(i)[0]);
    }
  }

  /** Equal renderings come from equal ints. */
  lemma SameIntString(a: int, b: int)
    requires IntString(a) == IntString(b)
    ensures a == b
  {
    IntStringSign(a);
    IntStringSign(b);
    if a < 0 {
      var x: nat, y: nat := -a, -b;
      assert NatString(x) == NatString(y);
      NatStringInjective(x, y);
    } else {
      NatStringInjective(a, b);
    }
  }

  /** Distinct ints render differently, the sign included. */
  lemma IntStringInjective(a: int, b: int)
    ensures IntString(a) == IntString(b) <==> a == b
  {
    if IntString(a) == IntString(b) {
      SameIntString(a, b);
    }
  }
}
