/** The synthetic partition of memory into fixed-size "sticks" shown on the
    Memory tab. Nothing here reads real memory modules: the total is cut into
    chunks of `stickSize` bytes and the used bytes are poured into them from
    the left. Byte counts are naturals; the percentages are exact reals,
    since the source divides with Python's true division. */
module Sticks {
  import opened Basics
  import opened Display

  const GiB: nat := 1024 * 1024 * 1024

  /** The chunk size the monitor uses: 8 GiB. */
  const StickSize: nat := 8 * GiB

  /** The quotient of the total by the stick size, plus one more stick when
      the division leaves a remainder: the least number of whole sticks that
      hold `total` bytes. */
  function StickCount(total: nat, stickSize: nat): (n: nat)
    requires stickSize > 0
    ensures total <= n * stickSize
    ensures n > 0 ==> (n - 1) * stickSize < total
    ensures n == 0 <==> total == 0
  {
    var q, m := total / stickSize, total % stickSize;
    assert total == q * stickSize + m;
    if m != 0 then
      assert (q + 1) * stickSize == q * stickSize + stickSize;
      q + 1
    else
      assert q > 0 ==> (q - 1) * stickSize == q * stickSize - stickSize;
      q
  }

  /** The ceiling is the only count with the two properties above. */
  lemma StickCountUnique(total: nat, stickSize: nat, n: nat)
    requires stickSize > 0
    requires total <= n * stickSize
    requires n > 0 ==> (n - 1) * stickSize < total
    ensures n == StickCount(total, stickSize)
  {
    var c := StickCount(total, stickSize);
    if n < c {
      MulMonotone(n, c - 1, stickSize);
    } else if c < n {
      MulMonotone(c, n - 1, stickSize);
    }
  }

  lemma MulMonotone(a: nat, b: nat, s: nat)
    requires a <= b
    ensures a * s <= b * s
  {
    assert b * s == a * s + (b - a) * s;
  }

  /** An exact multiple of the stick size has no remainder stick. */
  lemma {:induction false} StickCountOfMultiple(k: nat, stickSize: nat)
    requires stickSize > 0
    ensures StickCount(k * stickSize, stickSize) == k
  {
    if k > 0 {
      assert (k - 1) * stickSize == k * stickSize - stickSize;
    }
    StickCountUnique(k * stickSize, stickSize, k);
  }

  lemma StickCountExamples()
    ensures StickCount(16 * GiB, StickSize) == 2
    ensures StickCount(20 * GiB, StickSize) == 3
    ensures StickCount(8 * GiB + 1, StickSize) == 2
  {
    StickCountOfMultiple(2, StickSize);
  }

  /** The running counter of used bytes before stick `i`: the used bytes not
      yet poured into sticks 0 .. i-1. */
  function Remaining(used: nat, stickSize: nat, i: nat): (r: nat)
    ensures r <= used
    ensures r == 0 <==> used <= i * stickSize
    ensures r > 0 ==> r + i * stickSize == used
  {
    if used - i * stickSize > 0 then used - i * stickSize else 0
  }

  /** Taking one stick's worth off the counter, but never going below 0,
      takes it from stick `i` to stick `i + 1`. It never goes negative and
      never grows; it drops by exactly one stick while it holds at least one,
      and otherwise becomes 0. */
  lemma RemainingStep(used: nat, stickSize: nat, i: nat)
    ensures Remaining(used, stickSize, 0) == used
    ensures Remaining(used, stickSize, i + 1) == Max(0, Remaining(used, stickSize, i) - stickSize)
    ensures 0 <= Remaining(used, stickSize, i + 1) <= Remaining(used, stickSize, i)
    ensures Remaining(used, stickSize, i) >= stickSize ==>
              Remaining(used, stickSize, i + 1) == Remaining(used, stickSize, i) - stickSize
    ensures Remaining(used, stickSize, i) < stickSize ==> Remaining(used, stickSize, i + 1) == 0
  {
    assert (i + 1) * stickSize == i * stickSize + stickSize;
  }

  lemma RemainingAntitone(used: nat, stickSize: nat, i: nat, j: nat)
    requires i <= j
    ensures Remaining(used, stickSize, j) <= Remaining(used, stickSize, i)
  {
    MulMonotone(i, j, stickSize);
  }

  /** The counter over the stick size, as a percentage capped at 100: the
      share of one stick that `remaining` bytes fill. It is 100 times the bytes the
      stick takes (at most one stick's worth) over the stick size. */
  function StickUsage(remaining: nat, stickSize: nat): (u: real)
    requires stickSize > 0
    ensures u * stickSize as real == 100.0 * Min(remaining, stickSize) as real
    ensures 0.0 <= u <= 100.0
    ensures u == 100.0 <==> remaining >= stickSize
    ensures u == 0.0 <==> remaining == 0
  {
    var x := (remaining as real / stickSize as real) * 100.0;
    Percentage(remaining as real, stickSize as real);
    if 100.0 <= x then 100.0 else x
  }

  /** Facts about `(r / s) * 100` for a positive divisor. */
  lemma Percentage(r: real, s: real)
    requires r >= 0.0 && s > 0.0
    ensures (r / s) * 100.0 * s == 100.0 * r
    ensures 0.0 <= (r / s) * 100.0
    ensures 100.0 <= (r / s) * 100.0 <==> s <= r
    ensures (r / s) * 100.0 == 0.0 <==> r == 0.0
  {
    var q := r / s;
    assert q * s == r;
    assert q * 100.0 * s == 100.0 * (q * s);
    if q < 1.0 {
      ScaleStrict(q, 1.0, s);
      assert q * s < 1.0 * s;
    }
    if 1.0 < q {
      ScaleStrict(1.0, q, s);
      assert 1.0 * s < q * s;
    }
    if 0.0 < q {
      ScaleStrict(0.0, q, s);
    }
    if q < 0.0 {
      ScaleStrict(q, 0.0, s);
    }
  }

  /** More bytes left never give a smaller percentage. */
  lemma StickUsageMonotone(r1: nat, r2: nat, stickSize: nat)
    requires stickSize > 0
    requires r1 <= r2
    ensures StickUsage(r1, stickSize) <= StickUsage(r2, stickSize)
  {
    if r2 < stickSize {
      DivMonotone(r1 as real, r2 as real, stickSize as real);
    }
  }

  /** Dividing by a positive number keeps the order. */
  lemma DivMonotone(a: real, b: real, s: real)
    requires s > 0.0 && a <= b
    ensures a / s <= b / s
  {
    ScaleStrict(b / s, a / s, s);
    assert (a / s) * s == a && (b / s) * s == b;
  }

  /** Multiplying by a positive number keeps a strict order. */
  lemma ScaleStrict(a: real, b: real, s: real)
    requires s > 0.0
    ensures a < b ==> a * s < b * s
  {
    if a < b {
      assert b * s - a * s == (b - a) * s;
    }
  }

  /** The percentages of the first `n` sticks, left to right. */
  function UsagesUpTo(used: nat, stickSize: nat, n: nat): (us: seq<real>)
    requires stickSize > 0
    ensures |us| == n
    ensures forall i :: 0 <= i < n ==> IsPercent(us[i])
  {
    seq(n, i requires 0 <= i < n => StickUsage(Remaining(used, stickSize, i), stickSize))
  }

  /** The percentage of every stick the Memory tab shows. */
  function StickUsages(total: nat, used: nat, stickSize: nat): (us: seq<real>)
    requires stickSize > 0
    ensures |us| == StickCount(total, stickSize)
    ensures forall i :: 0 <= i < |us| ==> IsPercent(us[i])
  {
    UsagesUpTo(used, stickSize, StickCount(total, stickSize))
  }

  /** A partially filled stick: strictly between 0 and 100 percent. */
  predicate Partial(u: real) { 0.0 < u < 100.0 }

  /** The fill pattern stick by stick: sticks wholly below the used bytes are
      full, sticks wholly above them are empty, and only the stick the used
      bytes end in is partial, at the exact fraction of it they cover. */
  lemma StickShape(total: nat, used: nat, stickSize: nat, i: nat)
    requires stickSize > 0
    requires i < StickCount(total, stickSize)
    ensures |StickUsages(total, used, stickSize)| == StickCount(total, stickSize)
    ensures (i + 1) * stickSize <= used ==> StickUsages(total, used, stickSize)[i] == 100.0
    ensures used <= i * stickSize ==> StickUsages(total, used, stickSize)[i] == 0.0
    ensures i * stickSize < used < (i + 1) * stickSize ==>
              Partial(StickUsages(total, used, stickSize)[i]) &&
              StickUsages(total, used, stickSize)[i] * stickSize as real
                == 100.0 * (used - i * stickSize) as real
    ensures Partial(StickUsages(total, used, stickSize)[i])
            <==> i * stickSize < used < (i + 1) * stickSize
  {
    assert (i + 1) * stickSize == i * stickSize + stickSize;
  }

  /** Usages never increase from left to right. */
  lemma UsagesNonIncreasing(total: nat, used: nat, stickSize: nat, i: nat, j: nat)
    requires stickSize > 0
    requires i <= j < StickCount(total, stickSize)
    ensures StickUsages(total, used, stickSize)[j] <= StickUsages(total, used, stickSize)[i]
  {
    RemainingAntitone(used, stickSize, i, j);
    StickUsageMonotone(Remaining(used, stickSize, j), Remaining(used, stickSize, i), stickSize);
  }

  /** At most one stick is partially filled. */
  lemma AtMostOnePartial(total: nat, used: nat, stickSize: nat, i: nat, j: nat)
    requires stickSize > 0
    requires i < StickCount(total, stickSize) && j < StickCount(total, stickSize)
    requires Partial(StickUsages(total, used, stickSize)[i])
    requires Partial(StickUsages(total, used, stickSize)[j])
    ensures i == j
  {
    StickShape(total, used, stickSize, i);
    StickShape(total, used, stickSize, j);
    if i < j {
      MulMonotone(i + 1, j, stickSize);
    } else if j < i {
      MulMonotone(j + 1, i, stickSize);
    }
  }

  /** The bytes a stick at percentage `u` stands for. */
  function StickBytes(u: real, stickSize: nat): real
  {
    u * stickSize as real / 100.0
  }

  /** The bytes the sticks show: each stick's percentage of one stick. */
  function ShownBytes(us: seq<real>, stickSize: nat): real
    decreases |us|
  {
    if us == [] then 0.0
    else ShownBytes(us[..|us| - 1], stickSize) + StickBytes(us[|us| - 1], stickSize)
  }

  /** Stick `i` shows, in bytes, what it takes from the running counter. */
  ghost predicate ShowsFills(us: seq<real>, used: nat, stickSize: nat)
  {
    forall i :: 0 <= i < |us| ==>
      StickBytes(us[i], stickSize) == Min(Remaining(used, stickSize, i), stickSize) as real
  }

  lemma {:induction false} ShownBytesOfFills(us: seq<real>, used: nat, stickSize: nat)
    requires ShowsFills(us, used, stickSize)
    ensures ShownBytes(us, stickSize) == Min(used, |us| * stickSize) as real
    decreases |us|
  {
    if us != [] {
      var k := |us| - 1;
      var init := us[..k];
      assert ShowsFills(init, used, stickSize) by {
        forall i | 0 <= i < |init| ensures init[i] == us[i] { }
      }
      ShownBytesOfFills(init, used, stickSize);
      FillSplit(used, stickSize, k);
      assert StickBytes(us[k], stickSize) == Min(Remaining(used, stickSize, k), stickSize) as real;
    }
  }

  /** The bytes one stick shows are the bytes it takes from the counter. */
  lemma StickShownBytes(remaining: nat, stickSize: nat)
    requires stickSize > 0
    ensures StickBytes(StickUsage(remaining, stickSize), stickSize)
            == Min(remaining, stickSize) as real
  {
  }

  /** Pouring `used` bytes into `k + 1` sticks: the first `k` take what they
      can, the last takes the rest up to one stick. */
  lemma FillSplit(used: nat, stickSize: nat, k: nat)
    ensures Min(used, (k + 1) * stickSize)
            == Min(used, k * stickSize) + Min(Remaining(used, stickSize, k), stickSize)
    ensures Min(used, (k + 1) * stickSize) as real
            == Min(used, k * stickSize) as real
               + Min(Remaining(used, stickSize, k), stickSize) as real
  {
    assert (k + 1) * stickSize == k * stickSize + stickSize;
  }

  /** The sticks together show exactly the used memory whenever it does not
      exceed the total: partitioning loses and invents no bytes. */
  lemma SticksShowAllUsed(total: nat, used: nat, stickSize: nat)
    requires stickSize > 0
    requires used <= total
    ensures ShownBytes(StickUsages(total, used, stickSize), stickSize) == used as real
  {
    var us := StickUsages(total, used, stickSize);
    forall i | 0 <= i < |us|
      ensures StickBytes(us[i], stickSize) == Min(Remaining(used, stickSize, i), stickSize) as real
    {
      StickShownBytes(Remaining(used, stickSize, i), stickSize);
    }
    ShownBytesOfFills(us, used, stickSize);
  }

  /** 20 GiB of memory with 10 GiB in use shows as three sticks at 100, 25
      and 0 percent. */
  lemma StickUsagesExample()
    ensures StickUsages(20 * GiB, 10 * GiB, StickSize) == [100.0, 25.0, 0.0]
  {
    StickCountExamples();
    var us := StickUsages(20 * GiB, 10 * GiB, StickSize);
    assert Remaining(10 * GiB, StickSize, 1) == 2 * GiB;
    assert Remaining(10 * GiB, StickSize, 2) == 0;
    assert us[0] == 100.0;
    assert us[1] * StickSize as real == 100.0 * (2 * GiB) as real;
    assert us[1] == 25.0;
    assert us[2] == 0.0;
  }
}
