/**
 * The spectral analysis of one window, shared by the file analyser and the
 * live detector: the rfft bin frequencies, the band mask `freqs >= cutoff`,
 * the band-limited RMS and the peak-magnitude frequency.
 *
 * The floating-point numerics (the magnitudes `abs(rfft(window))` and the
 * square root) are not modelled: they are values of type `Numerics` that
 * every operation takes as a parameter. The mean of squares is exact.
 */
module Spectral {

  /**
   * `magnitude(window, k)` stands for `abs(numpy.fft.rfft(window)[k])`, and
   * `sqrt` for `numpy.sqrt`.
   */
  datatype Numerics = Numerics(magnitude: (seq<real>, nat) -> real, sqrt: real -> real)

  /** The frequency of rfft bin `k` of an `n`-point transform at rate `fs`: `k*fs/n`. */
  function BinFreq(k: nat, n: nat, fs: nat): real
    requires n > 0
  {
    k as real * fs as real / n as real
  }

  /** `numpy.fft.rfftfreq(n, 1/fs)`: bin `k` sits at `k*fs/n`, for `k` in `0..n//2`. */
  function BinFreqs(n: nat, fs: nat): (freqs: seq<real>)
    requires n > 0
    ensures |freqs| == n / 2 + 1
  {
    seq(n / 2 + 1, k requires 0 <= k <= n / 2 => BinFreq(k, n, fs))
  }

  /** The frequency of the highest rfft bin, `(n//2)*fs/n`. */
  function TopBinFreq(n: nat, fs: nat): real
    requires n > 0
  {
    BinFreq(n / 2, n, fs)
  }

  /** `freqs >= cutoff`, elementwise. */
  function Mask(freqs: seq<real>, cutoff: real): (mask: seq<bool>)
    ensures |mask| == |freqs|
  {
    seq(|freqs|, k requires 0 <= k < |freqs| => freqs[k] >= cutoff)
  }

  /** `xs[keep]` for a boolean index array: the kept elements, in order. */
  function Select<T>(xs: seq<T>, keep: seq<bool>): (r: seq<T>)
    requires |xs| == |keep|
    ensures |r| <= |xs|
    ensures r == [] <==> forall k :: 0 <= k < |keep| ==> !keep[k]
  {
    if |xs| == 0 then []
    else (if keep[0] then [xs[0]] else []) + Select(xs[1..], keep[1..])
  }

  /** The number of set entries of a boolean index array. */
  function CountKept(keep: seq<bool>): (n: nat)
    ensures n <= |keep|
    ensures n == 0 <==> forall k :: 0 <= k < |keep| ==> !keep[k]
  {
    if |keep| == 0 then 0
    else (if keep[0] then 1 else 0) + CountKept(keep[1..])
  }

  /** `xs[keep]` has one element per set entry of `keep`. */
  lemma {:induction false} SelectLength<T>(xs: seq<T>, keep: seq<bool>)
    requires |xs| == |keep|
    ensures |Select(xs, keep)| == CountKept(keep)
  {
    if |xs| > 0 {
      SelectLength(xs[1..], keep[1..]);
    }
  }

  /**
   * In order: the element kept from position `k` sits at the number of set
   * entries before `k`.
   */
  lemma {:induction false} SelectAt<T>(xs: seq<T>, keep: seq<bool>, k: nat)
    requires |xs| == |keep| && k < |xs| && keep[k]
    ensures CountKept(keep[..k]) < |Select(xs, keep)|
    ensures Select(xs, keep)[CountKept(keep[..k])] == xs[k]
  {
    SelectLength(xs, keep);
    if k > 0 {
      assert keep[..k][1..] == keep[1..][..k - 1];
      SelectAt(xs[1..], keep[1..], k - 1);
    }
  }

  /** `xs[keep]` holds exactly the elements of `xs` at set positions. */
  lemma {:induction false} SelectMembers<T>(xs: seq<T>, keep: seq<bool>)
    requires |xs| == |keep|
    ensures forall x :: x in Select(xs, keep) ==> exists k :: 0 <= k < |xs| && keep[k] && xs[k] == x
    ensures forall k :: 0 <= k < |xs| && keep[k] ==> xs[k] in Select(xs, keep)
  {
    if |xs| > 0 {
      var rest, restKeep := xs[1..], keep[1..];
      SelectMembers(rest, restKeep);
      forall x | x in Select(xs, keep)
        ensures exists k :: 0 <= k < |xs| && keep[k] && xs[k] == x
      {
        if !(keep[0] && x == xs[0]) {
          assert x in Select(rest, restKeep);
          var k :| 0 <= k < |rest| && restKeep[k] && rest[k] == x;
          assert keep[k + 1] && xs[k + 1] == x;
        }
      }
    }
    forall k | 0 <= k < |xs| && keep[k]
      ensures xs[k] in Select(xs, keep)
    {
      SelectAt(xs, keep, k);
    }
  }

  /** The spectrum of one window: the bin frequencies and their magnitudes. */
  datatype WindowSpectrum = WindowSpectrum(freqs: seq<real>, mags: seq<real>)

  function SpectrumOf(num: Numerics, window: seq<real>, fs: nat): (sp: WindowSpectrum)
    requires |window| > 0
    ensures |sp.freqs| == |sp.mags| == |window| / 2 + 1
  {
    WindowSpectrum(
      BinFreqs(|window|, fs),
      seq(|window| / 2 + 1, k requires 0 <= k <= |window| / 2 => num.magnitude(window, k)))
  }

  /** The band: the bins whose frequency is at least the cutoff. */
  function BandMask(sp: WindowSpectrum, cutoff: real): seq<bool>
  {
    Mask(sp.freqs, cutoff)
  }

  /** `abs(fft[mask])`: the magnitudes of the band bins. */
  function BandMags(sp: WindowSpectrum, cutoff: real): seq<real>
    requires |sp.freqs| == |sp.mags|
  {
    Select(sp.mags, BandMask(sp, cutoff))
  }

  /** `freqs[mask]`: the frequencies of the band bins. */
  function BandFreqs(sp: WindowSpectrum, cutoff: real): seq<real>
  {
    Select(sp.freqs, BandMask(sp, cutoff))
  }

  /**
   * The band frequencies are exactly the bin frequencies at or above the
   * cutoff: every listed frequency reaches the cutoff, and every bin that
   * reaches it is listed.
   */
  lemma BandFreqsAboveCutoff(sp: WindowSpectrum, cutoff: real)
    ensures forall f :: f in BandFreqs(sp, cutoff) ==> f >= cutoff
    ensures forall k :: 0 <= k < |sp.freqs| && sp.freqs[k] >= cutoff ==> sp.freqs[k] in BandFreqs(sp, cutoff)
  {
    SelectMembers(sp.freqs, BandMask(sp, cutoff));
  }

  /**
   * `numpy.argmax`: the index of the largest element, the first one when the
   * largest value occurs more than once.
   */
  function ArgMax(xs: seq<real>): (r: nat)
    requires |xs| > 0
    ensures r < |xs|
    ensures forall j :: 0 <= j < |xs| ==> xs[j] <= xs[r]
    ensures forall j :: 0 <= j < r ==> xs[j] < xs[r]
  {
    if |xs| == 1 then 0
    else
      var m := ArgMax(xs[..|xs| - 1]);
      if xs[|xs| - 1] > xs[m] then |xs| - 1 else m
  }

  /** `freqs[argmax(abs(fft))]`: the peak is taken over the full spectrum, not the band. */
  function PeakFreq(sp: WindowSpectrum): real
    requires |sp.freqs| == |sp.mags| > 0
  {
    sp.freqs[ArgMax(sp.mags)]
  }

  function SumSquares(xs: seq<real>): (r: real)
    ensures r >= 0.0
  {
    if |xs| == 0 then 0.0
    else SumSquares(xs[..|xs| - 1]) + xs[|xs| - 1] * xs[|xs| - 1]
  }

  /** `mean(abs(band)**2)`. */
  function MeanSquare(band: seq<real>): real
    requires |band| > 0
  {
    SumSquares(band) / |band| as real
  }

  /** `sqrt(mean(abs(band)**2))`. */
  function Rms(num: Numerics, band: seq<real>): real
    requires |band| > 0
  {
    num.sqrt(MeanSquare(band))
  }

  /**
   * The RMS of a band: `Rms` of its magnitudes, or 0.0 when no bin reaches
   * the cutoff. File mode skips an empty band before taking the RMS
   * (USV.py:194), so there the 0.0 is never compared nor recorded. Live mode
   * sets it to 0.0, displays it and compares it with the threshold
   * (USV_detector.py:182, 190, 192), so a negative threshold pulses on an
   * empty band.
   */
  function BandRms(num: Numerics, band: seq<real>): real
  {
    if |band| > 0 then Rms(num, band) else 0.0
  }

  /** Bin frequencies never decrease with the bin index. */
  lemma BinFreqsMonotone(n: nat, fs: nat, k: nat, j: nat)
    requires n > 0 && k <= j <= n / 2
    ensures BinFreqs(n, fs)[k] <= BinFreqs(n, fs)[j]
  {
    var f := BinFreqs(n, fs);
    assert (j - k) as real * fs as real >= 0.0;
    assert j as real * fs as real - k as real * fs as real == (j - k) as real * fs as real;
    assert k as real * fs as real <= j as real * fs as real;
    DivMonotone(k as real * fs as real, j as real * fs as real, n as real);
  }

  lemma DivMonotone(a: real, b: real, d: real)
    requires a <= b && d > 0.0
    ensures a / d <= b / d
  {
    assert b / d - a / d == (b - a) / d;
  }

  /**
   * The band mask is upward-closed: when bin `k` is in the band, so is every
   * higher bin.
   */
  lemma MaskUpwardClosed(n: nat, fs: nat, cutoff: real, k: nat, j: nat)
    requires n > 0 && k <= j <= n / 2
    requires Mask(BinFreqs(n, fs), cutoff)[k]
    ensures Mask(BinFreqs(n, fs), cutoff)[j]
  {
    BinFreqsMonotone(n, fs, k, j);
  }

  /**
   * The band is empty exactly when the cutoff lies above the top bin
   * `(n//2)*fs/n`, that is, above the Nyquist bin.
   */
  lemma BandEmptyIff(n: nat, fs: nat, cutoff: real)
    requires n > 0
    ensures Select(BinFreqs(n, fs), Mask(BinFreqs(n, fs), cutoff)) == [] <==> cutoff > TopBinFreq(n, fs)
  {
    var freqs := BinFreqs(n, fs);
    var mask := Mask(freqs, cutoff);
    assert mask[n / 2] <==> cutoff <= TopBinFreq(n, fs);
    if cutoff > TopBinFreq(n, fs) {
      forall k | 0 <= k < |mask|
        ensures !mask[k]
      {
        if mask[k] {
          MaskUpwardClosed(n, fs, cutoff, k, n / 2);
        }
      }
    }
  }

  /** A spectrum's band magnitudes are empty exactly when its band frequencies are. */
  lemma BandMagsEmptyIff(num: Numerics, window: seq<real>, fs: nat, cutoff: real)
    requires |window| > 0
    ensures var sp := SpectrumOf(num, window, fs);
      BandMags(sp, cutoff) == [] <==> cutoff > TopBinFreq(|window|, fs)
  {
    BandEmptyIff(|window|, fs, cutoff);
  }

  /** Silent bins contribute nothing: a sum of squares of zeros is zero. */
  lemma {:induction false} SilentSumSquares(xs: seq<real>)
    requires forall k :: 0 <= k < |xs| ==> xs[k] == 0.0
    ensures SumSquares(xs) == 0.0
  {
    if |xs| > 0 {
      SilentSumSquares(xs[..|xs| - 1]);
    }
  }

  /**
   * A band of silent bins has zero RMS when the square root of zero is zero:
   * it never exceeds a non-negative threshold.
   */
  lemma SilentBandIsQuiet(num: Numerics, band: seq<real>, threshold: real)
    requires |band| > 0 && forall k :: 0 <= k < |band| ==> band[k] == 0.0
    requires num.sqrt(0.0) == 0.0 && threshold >= 0.0
    ensures !(Rms(num, band) > threshold)
  {
    SilentSumSquares(band);
  }
}
