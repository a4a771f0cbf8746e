/** Numbers in a base: digits with the most significant first, none of them zero at the front.

    Written gives the digits of a number and Value the number of digits; they are inverse on digits
    without a zero at the front. Convert changes the base of a whole list of digits and keeps the
    zeros at its front one for one, so that converting back gives the list again. */
module Radix {
  import opened Arithmetic
  import opened Sequences

  ghost predicate AreDigits(b: nat, s: seq<nat>) {
    forall i | 0 <= i < |s| :: s[i] < b
  }

  function Value(b: nat, s: seq<nat>): nat {
    if s == [] then 0 else b * Value(b, s[..|s| - 1]) + s[|s| - 1]
  }

  /** The digits of n, none for zero. */
  function Written(b: nat, n: nat): seq<nat>
    requires b > 1
  {
    if n == 0 then []
    else
      Smaller(b, n);
      Written(b, n / b) + [n % b]
  }

  lemma Smaller(b: nat, n: nat)
    requires b > 1 && n > 0
    ensures n / b < n && b * (n / b) + n % b == n && (n / b == 0 ==> n % b == n)
  {
    var q := n / b;
    AtLeastTwice(b, q);
    assert n == b * q + n % b;
  }

  lemma AtLeastTwice(b: nat, q: nat)
    requires b > 1
    ensures b * q >= 2 * q && (q == 0 ==> b * q == 0)
  {
    assert b * q == 2 * q + (b - 2) * q;
    assert (b - 2) * q >= 0;
  }

  function Zeros(z: nat): seq<nat> {
    Repeat(0, z)
  }

  lemma {:induction false} WrittenFacts(b: nat, n: nat)
    requires b > 1
    ensures AreDigits(b, Written(b, n)) && Value(b, Written(b, n)) == n
    ensures n > 0 ==> Written(b, n) != [] && Written(b, n)[0] != 0
  {
    hide Written, Value;
    if n > 0 {
      WrittenOne(b, n);
      WrittenFacts(b, n / b);
      Extend(b, Written(b, n / b), n % b);
    } else {
      WrittenNone(b);
    }
  }

  lemma WrittenNone(b: nat)
    requires b > 1
    ensures Written(b, 0) == [] && Value(b, []) == 0
  {
  }

  lemma WrittenOne(b: nat, n: nat)
    requires b > 1 && n > 0
    ensures n / b < n && Written(b, n) == Written(b, n / b) + [n % b]
    ensures b * (n / b) + n % b == n && (n / b == 0 ==> n % b > 0 && Written(b, n / b) == [])
  {
    Smaller(b, n);
    WrittenNone(b);
    WrittenStep(b, n);
    hide Written;
  }

  lemma WrittenStep(b: nat, n: nat)
    requires b > 1 && n > 0
    ensures Written(b, n) == Written(b, n / b) + [n % b]
  {
  }

  lemma Extend(b: nat, s: seq<nat>, r: nat)
    ensures Value(b, s + [r]) == b * Value(b, s) + r
  {
    assert (s + [r])[..|s|] == s;
  }

  /** Digits without a leading zero are the ones written for their value. */
  lemma {:induction false} ValueWritten(b: nat, s: seq<nat>)
    requires b > 1 && AreDigits(b, s) && (s == [] || s[0] != 0)
    ensures Written(b, Value(b, s)) == s
    ensures s != [] ==> Value(b, s) > 0
  {
    if s != [] {
      var k := |s| - 1;
      var v := Value(b, s[..k]);
      ValueWritten(b, s[..k]);
      ModUnique(b * v + s[k], b, v, s[k]);
      if k > 0 {
        Scale(b, v);
      }
    }
  }

  lemma {:induction false} LeadingZeros(b: nat, z: nat, s: seq<nat>)
    ensures Value(b, Zeros(z) + s) == Value(b, s)
  {
    if s != [] {
      LeadingZeros(b, z, s[..|s| - 1]);
      assert (Zeros(z) + s)[..z + |s| - 1] == Zeros(z) + s[..|s| - 1];
    } else {
      assert Zeros(z) + s == Zeros(z);
      OnlyZeros(b, z);
    }
  }

  lemma {:induction false} OnlyZeros(b: nat, z: nat)
    ensures Value(b, Zeros(z)) == 0
  {
    if z != 0 {
      OnlyZeros(b, z - 1);
      assert Zeros(z)[..z - 1] == Zeros(z - 1);
    }
  }

  /** How many zeros s starts with. */
  function Leading(s: seq<nat>): (z: nat)
    ensures z <= |s|
  {
    if s == [] || s[0] != 0 then 0 else 1 + Leading(s[1..])
  }

  /** Every list of digits is its leading zeros and what is written for its value. */
  lemma {:induction false} Parts(b: nat, s: seq<nat>)
    requires b > 1 && AreDigits(b, s)
    ensures s == Zeros(Leading(s)) + Written(b, Value(b, s))
  {
    var z := Leading(s);
    LeadingPart(s);
    LeadingZeros(b, z, s[z..]);
    ValueWritten(b, s[z..]);
  }

  lemma {:induction false} LeadingPart(s: seq<nat>)
    ensures s == Zeros(Leading(s)) + s[Leading(s)..]
    ensures Leading(s) < |s| ==> s[Leading(s)] != 0
  {
    if s != [] && s[0] == 0 {
      LeadingPart(s[1..]);
      assert s == [0] + s[1..];
      assert Zeros(Leading(s)) == [0] + Zeros(Leading(s) - 1);
    }
  }

  lemma {:induction false} LeadingIs(z: nat, s: seq<nat>)
    requires s == [] || s[0] != 0
    ensures Leading(Zeros(z) + s) == z
  {
    if z != 0 {
      LeadingIs(z - 1, s);
      assert (Zeros(z) + s)[1..] == Zeros(z - 1) + s;
    } else {
      assert Zeros(0) + s == s;
    }
  }

  /** Leading zeros carried over, and the rest written in the other base. */
  function Convert(from: nat, to: nat, s: seq<nat>): seq<nat>
    requires to > 1
  {
    Zeros(Leading(s)) + Written(to, Value(from, s))
  }

  /** Converting there and back gives the same digits. */
  lemma ConvertBack(from: nat, to: nat, s: seq<nat>)
    requires from > 1 && to > 1 && AreDigits(from, s)
    ensures AreDigits(to, Convert(from, to, s)) && Convert(to, from, Convert(from, to, s)) == s
  {
    var z, n := Leading(s), Value(from, s);
    WrittenFacts(to, n);
    assert n == 0 ==> Written(to, n) == [];
    LeadingIs(z, Written(to, n));
    LeadingZeros(to, z, Written(to, n));
    Parts(from, s);
  }

  // ---------- Sizes ----------

  function Power(b: nat, k: nat): nat {
    if k == 0 then 1 else b * Power(b, k - 1)
  }

  lemma {:induction false} ValueBelow(b: nat, s: seq<nat>)
    requires b > 0 && AreDigits(b, s)
    ensures Value(b, s) < Power(b, |s|)
  {
    if s != [] {
      var k := |s| - 1;
      ValueBelow(b, s[..k]);
      Scale(b, Power(b, k) - Value(b, s[..k]));
      assert b * (Power(b, k) - Value(b, s[..k])) == b * Power(b, k) - b * Value(b, s[..k]);
    }
  }

  lemma {:induction false} WrittenLength(b: nat, n: nat, k: nat)
    requires b > 1 && n < Power(b, k)
    ensures |Written(b, n)| <= k
  {
    if n > 0 {
      Smaller(b, n);
      QuotientBelow(b, n, Power(b, k - 1));
      WrittenLength(b, n / b, k - 1);
    }
  }

  lemma QuotientBelow(b: nat, n: nat, p: nat)
    requires b > 0 && n < b * p
    ensures n / b < p
  {
    var q := n / b;
    assert n == b * q + n % b;
    Scale(b, p - q);
    assert b * (p - q) == b * p - b * q;
  }
}
