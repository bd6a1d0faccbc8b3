/** The Luhn checksum of Annex B of ISO/IEC 7812-1 and what it detects. */
module Luhn {

  type Digit = d: int | 0 <= d <= 9

  /** Doubled digits count with the sum of the decimal digits of the double. */
  function Weighted(d: Digit, doubled: bool): (w: Digit)
  {
    if doubled then 2 * d / 10 + 2 * d % 10 else d
  }

  /** Counting from the right, every second digit is doubled. */
  function LuhnSum(ds: seq<Digit>): nat {
    if ds == [] then 0 else Weighted(ds[0], |ds| % 2 == 0) + LuhnSum(ds[1..])
  }

  predicate Valid(ds: seq<Digit>) {
    ds != [] && LuhnSum(ds) % 10 == 0
  }

  predicate AllDigits(s: string) {
    forall i :: 0 <= i < |s| ==> '0' <= s[i] <= '9'
  }

  function Digits(s: string): (ds: seq<Digit>)
    requires AllDigits(s)
    ensures |ds| == |s| && forall i :: 0 <= i < |s| ==> ds[i] == s[i] as int - '0' as int
  {
    seq(|s|, i requires 0 <= i < |s| => s[i] as int - '0' as int)
  }

  /** One more digit on the left adds its weight. */
  lemma {:induction false} SumOneMore(s: string, i: nat)
    requires i < |s| && AllDigits(s[i + 1..]) && '0' <= s[i] <= '9'
    ensures AllDigits(s[i..])
    ensures var d: int := s[i] as int - '0' as int;
      LuhnSum(Digits(s[i..])) == Weighted(d, (|s| - i) % 2 == 0) + LuhnSum(Digits(s[i + 1..]))
  {
    var rest := s[i..];
    assert rest[0] == s[i] && rest[1..] == s[i + 1..];
    assert AllDigits(rest) by {
      assert forall j :: 1 <= j < |rest| ==> rest[j] == s[i + 1..][j - 1];
    }
    assert Digits(rest)[1..] == Digits(s[i + 1..]);
  }

  method IsValidLuhn(s: string) returns (valid: bool)
    ensures valid <==> AllDigits(s) && Valid(Digits(s))
  {
    if s == [] {
      return false;
    }
    var sum, doubleDigit := 0, false;
    var i := |s| - 1;
    while i >= 0
      invariant -1 <= i < |s| && SummedFrom(s, i + 1, sum)
      invariant doubleDigit <==> (|s| - (i + 1)) % 2 == 1
    {
      var n := s[i] as int - '0' as int;
      if n < 0 || n > 9 {
        return false;
      }
      ghost var d: Digit := n;
      if doubleDigit {
        n := n * 2;
        if n > 9 {
          n := n - 9;
        }
      }
      WeightIs(d, doubleDigit, n);
      SummedMore(s, i, sum, d, doubleDigit);
      sum := sum + n;
      doubleDigit := !doubleDigit;
      i := i - 1;
    }
    assert s[0..] == s;
    return sum % 10 == 0;
  }

  /** The characters from `i` on are digits with this sum. */
  ghost predicate SummedFrom(s: string, i: int, sum: int) {
    0 <= i <= |s| && forall x :: x == s[i..] ==> AllDigits(x) && sum == LuhnSum(Digits(x))
  }

  lemma {:induction false} SummedMore(s: string, i: nat, sum: int, d: Digit, doubled: bool)
    requires i < |s| && SummedFrom(s, i + 1, sum) && d == s[i] as int - '0' as int
    requires doubled <==> (|s| - (i + 1)) % 2 == 1
    ensures SummedFrom(s, i, sum + Weighted(d, doubled))
  {
    var rest, more := s[i + 1..], s[i..];
    assert AllDigits(rest) && sum == LuhnSum(Digits(rest));
    SumOneMore(s, i);
    assert AllDigits(more) && LuhnSum(Digits(more)) == sum + Weighted(d, doubled);
  }

  /** Subtracting nine from a double of two digits adds its digits up. */
  lemma {:induction false} WeightIs(d: Digit, doubled: bool, n: int)
    requires n == if doubled then (if 2 * d > 9 then 2 * d - 9 else 2 * d) else d
    ensures n == Weighted(d, doubled)
  {
  }

  /** Replacing the digit at `i` changes the sum by the difference of the weighted digits. */
  lemma {:induction false} SumAfterChange(ds: seq<Digit>, i: nat, d: Digit)
    requires i < |ds|
    ensures var doubled := (|ds| - i) % 2 == 0;
      LuhnSum(ds[i := d]) == LuhnSum(ds) - Weighted(ds[i], doubled) + Weighted(d, doubled)
    decreases |ds|
  {
    if i == 0 {
      assert ds[0 := d][1..] == ds[1..];
    } else {
      SumAfterChange(ds[1..], i - 1, d);
      assert ds[i := d][1..] == ds[1..][i - 1 := d];
    }
  }

  /** Below ten, a difference is a multiple of ten only when it is zero. */
  lemma {:induction false} StaysMultiple(sum: int, changed: int, d: int)
    requires sum % 10 == 0 && changed == sum + d && -20 < d < 20
    ensures changed % 10 == 0 <==> d == -10 || d == 0 || d == 10
  {
  }

  lemma {:induction false} WeightedInjective(a: Digit, b: Digit, doubled: bool)
    ensures Weighted(a, doubled) == Weighted(b, doubled) <==> a == b
  {
    WeightedGain(a);
    WeightedGain(b);
  }

  /** A single wrong digit is always detected. */
  lemma {:induction false} DetectsSingleError(ds: seq<Digit>, i: nat, d: Digit)
    requires Valid(ds) && i < |ds| && d != ds[i]
    ensures !Valid(ds[i := d])
  {
    SumAfterChange(ds, i, d);
    var doubled := (|ds| - i) % 2 == 0;
    WeightedInjective(d, ds[i], doubled);
    var w: int, v: int := Weighted(d, doubled), Weighted(ds[i], doubled);
    StaysMultiple(LuhnSum(ds), LuhnSum(ds[i := d]), w - v);
  }

  /** What a digit's weight gains by being doubled: the digit itself, or nine less. */
  function Gain(d: Digit): int {
    if d <= 4 then d else d - 9
  }

  lemma {:induction false} WeightedGain(d: Digit)
    ensures Weighted(d, true) == Weighted(d, false) + Gain(d)
  {
  }

  /** A swap of neighbours goes undetected exactly for equal digits and for 0 with 9. */
  lemma {:induction false} DetectsSwapIff(ds: seq<Digit>, i: nat)
    requires Valid(ds) && i + 1 < |ds|
    ensures var a, b := ds[i], ds[i + 1];
      Valid(ds[i := b][i + 1 := a]) <==> a == b || (a == 0 && b == 9) || (a == 9 && b == 0)
  {
    var a, b := ds[i], ds[i + 1];
    var d := SwapSum(ds, i);
    GainsDiffer(a, b);
    StaysMultiple(LuhnSum(ds), LuhnSum(ds[i := b][i + 1 := a]), d);
  }

  /** A swap of neighbours changes the sum by the difference of their gains. */
  lemma {:induction false} SwapSum(ds: seq<Digit>, i: nat) returns (d: int)
    requires i + 1 < |ds|
    ensures d == Gain(ds[i + 1]) - Gain(ds[i]) || d == Gain(ds[i]) - Gain(ds[i + 1])
    ensures LuhnSum(ds[i := ds[i + 1]][i + 1 := ds[i]]) == LuhnSum(ds) + d
  {
    var a, b := ds[i], ds[i + 1];
    var doubled := (|ds| - i) % 2 == 0;
    NeighbourDiffers(|ds| - i);
    SumAfterChange(ds, i, b);
    SumAfterChange(ds[i := b], i + 1, a);
    d := Weighted(b, doubled) - Weighted(a, doubled) + Weighted(a, !doubled) - Weighted(b, !doubled);
    WeightedGain(a);
    WeightedGain(b);
  }

  lemma {:induction false} NeighbourDiffers(n: nat)
    requires n > 0
    ensures n % 2 == 0 <==> (n - 1) % 2 != 0
  {
  }

  lemma {:induction false} GainsDiffer(a: Digit, b: Digit)
    ensures -10 < Gain(a) - Gain(b) < 10
    ensures Gain(a) == Gain(b) <==> a == b || (a == 0 && b == 9) || (a == 9 && b == 0)
  {
  }

  /** The sum of a prefix whose digits stand one place further left. */
  function ShiftedSum(ds: seq<Digit>): nat {
    if ds == [] then 0 else Weighted(ds[0], |ds| % 2 == 1) + ShiftedSum(ds[1..])
  }

  lemma {:induction false} SumOfExtended(ds: seq<Digit>, c: Digit)
    ensures LuhnSum(ds + [c]) == ShiftedSum(ds) + c
    decreases |ds|
  {
    if ds == [] {
      assert ds + [c] == [c] && [c][1..] == [];
    } else {
      SumOfExtended(ds[1..], c);
      assert (ds + [c])[1..] == ds[1..] + [c] && (ds + [c])[0] == ds[0];
      NeighbourDiffers(|ds + [c]|);
    }
  }

  lemma {:induction false} ShiftedOfExtended(ds: seq<Digit>, c: Digit)
    ensures ShiftedSum(ds + [c]) == LuhnSum(ds) + Weighted(c, true)
    decreases |ds|
  {
    if ds == [] {
      assert ds + [c] == [c] && [c][1..] == [];
    } else {
      ShiftedOfExtended(ds[1..], c);
      assert (ds + [c])[1..] == ds[1..] + [c] && (ds + [c])[0] == ds[0];
      NeighbourDiffers(|ds + [c]|);
    }
  }

  function DecimalDigits(n: nat): nat {
    if n < 10 then n else DecimalDigits(n / 10) + n % 10
  }

  /** From the right as the standard has it, adding up decimal digits: those of the last digit, those of
      the double of the one before, and so on in turn. */
  function FromRight(ds: seq<Digit>, doubled: bool): nat {
    if ds == [] then 0
    else
      var n := |ds| - 1;
      var last: nat := ds[n];
      DecimalDigits(if doubled then 2 * last else last) + FromRight(ds[..n], !doubled)
  }

  lemma {:induction false} WeightedIsDigits(d: Digit)
    ensures var n: nat := d; Weighted(d, true) == DecimalDigits(2 * n) && d == DecimalDigits(n)
  {
    var n: nat := d;
    assert DecimalDigits(2 * n / 10) == 2 * n / 10;
  }

  lemma {:induction false} BothFromRight(ds: seq<Digit>)
    ensures FromRight(ds, false) == LuhnSum(ds) && FromRight(ds, true) == ShiftedSum(ds)
    decreases |ds|
  {
    if ds != [] {
      var n := |ds| - 1;
      BothFromRight(ds[..n]);
      assert ds == ds[..n] + [ds[n]];
      SumOfExtended(ds[..n], ds[n]);
      ShiftedOfExtended(ds[..n], ds[n]);
      WeightedIsDigits(ds[n]);
    }
  }

  /** A valid number is one whose sum from the right is a multiple of ten. */
  lemma {:induction false} ValidIffFromRight(ds: seq<Digit>)
    ensures Valid(ds) <==> ds != [] && FromRight(ds, false) % 10 == 0
  {
    BothFromRight(ds);
  }

  /** Every prefix has exactly one valid check digit. */
  lemma {:induction false} UniqueCheckDigit(ds: seq<Digit>) returns (check: Digit)
    ensures forall c: Digit :: Valid(ds + [c]) <==> c == check
  {
    check := (10 - ShiftedSum(ds) % 10) % 10;
    forall c: Digit
      ensures Valid(ds + [c]) <==> c == check
    {
      SumOfExtended(ds, c);
      CompletesTen(ShiftedSum(ds), c);
    }
  }

  lemma {:induction false} CompletesTen(sum: nat, c: Digit)
    ensures (sum + c) % 10 == 0 <==> c == (10 - sum % 10) % 10
  {
  }
}
