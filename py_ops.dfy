/**
 * The Python and numpy primitives the detector's index arithmetic relies on,
 * with their exact Python meaning: `int()` of a float, `//`, slicing of a
 * one-dimensional array, `range(0, stop, step)`, `str.lower()` and `in` on strings.
 */
module PyOps {

  /** `int(x)` for a float `x`: truncation toward zero (not rounding, not flooring). */
  function Trunc(x: real): int
  {
    if x >= 0.0 then x.Floor else -((-x).Floor)
  }

  /** `int(x)` is the integer next to `x` on the side of zero. */
  lemma TruncTowardZero(x: real)
    ensures 0.0 <= x ==> Trunc(x) as real <= x < Trunc(x) as real + 1.0
    ensures x < 0.0 ==> Trunc(x) as real - 1.0 < x <= Trunc(x) as real
  {
  }

  /** Python's `a // b`: the floor of the quotient, also for a negative divisor. */
  function FloorDiv(a: int, b: int): int
    requires b != 0
  {
    if b > 0 then a / b else (-a) / (-b)
  }

  /** `a // b` is the floor of `a / b`: `q*b <= a < q*b + b` for `b > 0`, mirrored for `b < 0`. */
  lemma FloorDivBounds(a: int, b: int)
    requires b != 0
    ensures b > 0 ==> FloorDiv(a, b) * b <= a < FloorDiv(a, b) * b + b
    ensures b < 0 ==> FloorDiv(a, b) * b + b < a <= FloorDiv(a, b) * b
  {
  }

  /** How a slice bound `i` of `s[lo:hi]` is normalised against a length `n`. */
  function SliceBound(i: int, n: nat): (r: nat)
    ensures r <= n
    ensures 0 <= i <= n ==> r == i
  {
    if i < 0 then (if i + n < 0 then 0 else i + n) else if i > n then n else i
  }

  /** `s[lo:hi]` on a list or a one-dimensional numpy array. */
  function Slice<T>(s: seq<T>, lo: int, hi: int): (r: seq<T>)
    ensures |r| <= |s|
    ensures 0 <= lo <= hi <= |s| ==> r == s[lo..hi]
  {
    var a, b := SliceBound(lo, |s|), SliceBound(hi, |s|);
    if a < b then s[a..b] else []
  }

  /** Whether `i` is still produced by a range stepping by `step` toward `stop`. */
  predicate InRange(i: int, stop: int, step: int)
  {
    (step > 0 && i < stop) || (step < 0 && i > stop)
  }

  /**
   * `list(range(i, stop, step))`: the k-th value is `i + k*step`, every value is
   * in range, and the value after the last one is not.
   */
  function RangeFrom(i: int, stop: int, step: int): (r: seq<int>)
    requires step != 0
    ensures forall k :: 0 <= k < |r| ==> r[k] == i + k * step && InRange(r[k], stop, step)
    ensures !InRange(i + |r| * step, stop, step)
    decreases if step > 0 then stop - i else i - stop
  {
    if InRange(i, stop, step) then
      var rest := RangeFrom(i + step, stop, step);
      RangeCons(i, step, rest);
      [i] + rest
    else []
  }

  /** Prepending `i` to the values `i + step + k*step` gives the values `i + k*step`. */
  lemma RangeCons(i: int, step: int, rest: seq<int>)
    requires forall k :: 0 <= k < |rest| ==> rest[k] == i + step + k * step
    ensures forall k :: 0 <= k < |rest| + 1 ==> ([i] + rest)[k] == i + k * step
    ensures i + step + |rest| * step == i + (|rest| + 1) * step
  {
    forall k | 0 <= k < |rest| + 1
      ensures ([i] + rest)[k] == i + k * step
    {
      if k > 0 {
        assert ([i] + rest)[k] == rest[k - 1];
        assert (k - 1) * step + step == k * step;
      }
    }
    assert |rest| * step + step == (|rest| + 1) * step;
  }

  /** `range(0, stop, step)`, the loop of the file analysis. */
  function Range(stop: int, step: int): seq<int>
    requires step != 0
  {
    RangeFrom(0, stop, step)
  }

  /**
   * Stepping through a range: the first value is `i` when there is one, each
   * value is the previous one plus `step`, and one step past the last value
   * is out of range.
   */
  lemma RangeStep(i: int, stop: int, step: int, k: nat)
    requires step != 0
    ensures var r := RangeFrom(i, stop, step);
      && (|r| > 0 <==> InRange(i, stop, step))
      && (|r| > 0 ==> r[0] == i)
      && (k + 1 < |r| ==> r[k + 1] == r[k] + step)
      && (k + 1 == |r| ==> !InRange(r[k] + step, stop, step))
  {
    var r := RangeFrom(i, stop, step);
    if k + 1 <= |r| {
      assert (k + 1) * step == k * step + step;
    }
  }

  /** The ceiling of `a / b` for positive `a` and `b`. */
  function CeilDiv(a: nat, b: nat): nat
    requires b > 0
  {
    (a + b - 1) / b
  }

  /** A positive multiple of a positive `b` is at least `b`. */
  lemma {:induction false} MulAtLeast(x: int, b: int)
    requires x >= 1 && b > 0
    ensures x * b >= b
  {
    if x > 1 {
      MulAtLeast(x - 1, b);
      assert x * b == (x - 1) * b + b;
    }
  }

  /** `a / b == q` whenever `a == q*b + r` with `0 <= r < b`. */
  lemma DivUnique(a: int, b: int, q: int, r: int)
    requires b > 0 && 0 <= r < b && a == q * b + r
    ensures a / b == q
  {
    var q', r' := a / b, a % b;
    assert a == q' * b + r';
    assert (q - q') * b == r' - r;
    if q' < q {
      MulAtLeast(q - q', b);
    } else if q' > q {
      MulAtLeast(q' - q, b);
    }
  }

  /**
   * With a positive step the range holds `ceil((stop - i)/step)` values when
   * `stop > i` and none otherwise.
   */
  lemma RangeLength(i: int, stop: int, step: int)
    requires step > 0
    ensures |RangeFrom(i, stop, step)| == if stop > i then CeilDiv(stop - i, step) else 0
  {
    var r := RangeFrom(i, stop, step);
    var n := |r|;
    if stop > i {
      assert n > 0;
      assert r[n - 1] == i + (n - 1) * step && InRange(r[n - 1], stop, step);
      assert stop <= i + n * step;
      var rem := stop - i + step - 1 - n * step;
      assert n * step == (n - 1) * step + step;
      assert 0 <= rem < step;
      DivUnique(stop - i + step - 1, step, n, rem);
    }
  }

  /** `c.lower()` for one character (ASCII letters only). */
  function LowerChar(c: char): char
  {
    if 'A' <= c <= 'Z' then (c as int + 32) as char else c
  }

  /** `s.lower()` (ASCII letters only). */
  function Lower(s: string): string
  {
    seq(|s|, k requires 0 <= k < |s| => LowerChar(s[k]))
  }

  /** `sub in s` for strings: `sub` occurs at some position of `s`. */
  predicate HasSubstring(s: string, sub: string)
    decreases |s|
  {
    |sub| <= |s| && (s[..|sub|] == sub || HasSubstring(s[1..], sub))
  }
}
