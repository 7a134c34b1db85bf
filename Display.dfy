/** What one label/bar pair of the monitor shows: the integer a progress bar
    receives for a sampled percentage, and the decimal resource names
    ("Core 3", "RAM Stick 0") written into the labels. */
module Display {

  /** Python's `int(x)` on a float: the integer part of `x`, rounding toward
      zero (so it is the floor for non-negative `x` and the ceiling for
      negative `x`). */
  function Truncate(x: real): (r: int)
    ensures 0.0 <= x ==> r as real <= x < r as real + 1.0
    ensures x < 0.0 ==> r as real - 1.0 < x <= r as real
  {
    if x >= 0.0 then x.Floor else -((-x).Floor)
  }

  /** A percentage in [0, 100]: what psutil reports, and the values whose
      truncation a bar with Qt's default range 0..100 takes. */
  predicate IsPercent(x: real) { 0.0 <= x <= 100.0 }

  /** A percentage in [0, 100] gives a bar value in [0, 100], and that value
      never exceeds the percentage: the bar truncates, it does not round. */
  lemma TruncatePercent(x: real)
    requires IsPercent(x)
    ensures 0 <= Truncate(x) <= 100
    ensures Truncate(x) as real <= x
    ensures Truncate(x) == x.Floor
  {
  }

  /** 42.6 is shown on the bar as 42, not 43. */
  lemma TruncateDoesNotRound()
    ensures Truncate(42.6) == 42
    ensures Truncate(42.36) == 42
    ensures Truncate(-2.5) == -2
  {
  }

  function DigitChar(d: nat): (c: char)
    requires d < 10
    ensures '0' <= c <= '9'
  {
    ('0' as int + d) as char
  }

  function DigitValue(c: char): (d: nat)
    requires '0' <= c <= '9'
    ensures d < 10 && DigitChar(d) == c
  {
    c as int - '0' as int
  }

  ghost predicate AllDigits(s: string)
  {
    forall k :: 0 <= k < |s| ==> '0' <= s[k] <= '9'
  }

  /** The decimal text of a natural number, as Python's f-string `{i}` writes
      it: at least one digit, and no leading zero unless the number is 0. */
  function Decimal(n: nat): (s: string)
    ensures |s| >= 1 && AllDigits(s)
    ensures s[0] == '0' ==> n == 0
    decreases n
  {
    if n < 10 then [DigitChar(n)] else Decimal(n / 10) + [DigitChar(n % 10)]
  }

  /** Reads a string of digits back as a natural number. */
  function ParseDecimal(s: string): nat
    requires AllDigits(s)
    decreases |s|
  {
    if s == [] then 0
    else ParseDecimal(s[..|s| - 1]) * 10 + DigitValue(s[|s| - 1])
  }

  lemma {:induction false} DecimalRoundTrip(n: nat)
    ensures ParseDecimal(Decimal(n)) == n
    decreases n
  {
    if n < 10 {
      assert Decimal(n)[..0] == [];
    } else {
      var s := Decimal(n);
      assert s[..|s| - 1] == Decimal(n / 10);
      DecimalRoundTrip(n / 10);
    }
  }

  /** The resource name a row is written with: the section's prefix, a
      space and the row's index in decimal ("Core 3", "RAM Stick 0"). */
  function ResourceName(prefix: string, i: nat): string
  {
    prefix + " " + Decimal(i)
  }

  /** Two rows of one section carry the same name only if they have the same
      index, so every row's label tells which core or stick it shows. */
  lemma ResourceNameInjective(prefix: string, i: nat, j: nat)
    ensures ResourceName(prefix, i) == ResourceName(prefix, j) <==> i == j
  {
    if ResourceName(prefix, i) == ResourceName(prefix, j) {
      assert ResourceName(prefix, i)[|prefix| + 1..] == Decimal(i);
      assert ResourceName(prefix, j)[|prefix| + 1..] == Decimal(j);
      DecimalRoundTrip(i);
      DecimalRoundTrip(j);
    }
  }
}
