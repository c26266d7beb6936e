/** The log-mel front end of MelSpec.kt (`MelSpec`): the triangular filterbank
    built from integer bin edges, and `logMel`, which normalises the PCM buffer
    to 30 s, frames and windows it, takes the power spectrum of each frame with
    the 512-point FFT, projects it onto the filterbank and writes a band-major
    nMels x 3000 matrix of log energies.

    Sample and weight values are exact reals. The Hann window values, the bin
    edges (which come out of `hzToMel`/`melToHz`, floor and `toInt`), the
    natural logarithm and the twiddle table are parameters. */
module Mel {
  import opened Arith
  import Fft

  /** `nFft / 2 + 1` spectrum bins, with the FFT size fixed at 512. */
  const NFreqs: nat := Fft.N / 2 + 1
  /** Columns of the output matrix (`melT`). */
  const MelT: nat := 3000
  /** Added to every band energy before the logarithm (`logEps`). */
  const LogEps: real := 0.0000000001
  /** The value of every output cell no frame writes. */
  const Floor: real := -11.0

  /** The integer constructor parameters of `MelSpec` that the computation
      depends on (the FFT size is fixed at 512; `fMin`/`fMax` only shape the bin
      edges, which are inputs here). */
  datatype MelParams = MelParams(sampleRate: nat, winLength: nat, hopLength: nat, nMels: nat)

  /** The constructor's defaults: 16 kHz, 25 ms window, 10 ms hop, 80 bands. */
  const Defaults: MelParams := MelParams(16000, 400, 160, 80)

  /** What the code needs to run without an exception: a non-zero hop (it is a
      divisor), a window that fits the 512-sample buffer, and a non-negative
      frame count (the spectrum is allocated with `nFrames` rows). */
  predicate Runnable(p: MelParams)
  {
    p.hopLength > 0 && p.winLength <= Fft.N && FrameCount(30 * p.sampleRate, p.winLength, p.hopLength) >= 0
  }

  // ---------------------------------------------------------------------------
  // Length normalisation and framing

  /** `x` of `logMel`: the first `target` samples of `pcm`, or all of `pcm`
      followed by zeros. */
  function Normalize(pcm: seq<real>, target: nat): (x: seq<real>)
    ensures |x| == target
    ensures |pcm| >= target ==> x == pcm[..target]
    ensures |pcm| < target ==> x[..|pcm|] == pcm && forall i :: |pcm| <= i < target ==> x[i] == 0.0
  {
    if |pcm| >= target then pcm[..target] else pcm + seq(target - |pcm|, _ => 0.0)
  }

  /** Integer division rounding toward zero, as Kotlin's `/` on `Int`: the
      remainder `a - q * b` has the sign of `a` and is smaller than `b`. */
  function TruncDiv(a: int, b: nat): (q: int)
    requires b > 0
    ensures a >= 0 ==> 0 <= a - q * b < b
    ensures a < 0 ==> -(b as int) < a - q * b <= 0
  {
    if a >= 0 then a / b
    else
      var p := (-a) / b;
      assert -a == p * b + (-a) % b;
      -p
  }

  /** `nFrames = 1 + (x.size - winLength) / hopLength`. */
  function FrameCount(size: nat, win: nat, hop: nat): int
    requires hop > 0
  {
    1 + TruncDiv(size - win, hop)
  }

  /** When the buffer holds at least one window, the frame count is exactly the
      number of frames `f` whose window `[f*hop, f*hop + win)` fits. */
  lemma FrameCountExact(size: nat, win: nat, hop: nat)
    requires hop > 0 && win <= size
    ensures var n := FrameCount(size, win, hop);
      n >= 1 && (n - 1) * hop + win <= size && n * hop + win > size
  {
    var q := (size - win) / hop;
    assert size - win == q * hop + (size - win) % hop;
    assert (q + 1) * hop == q * hop + hop;
  }

  /** Every frame below `f` fits when frame `f` does. */
  lemma FrameFits(f: nat, g: nat, win: nat, hop: nat, size: nat)
    requires g <= f && f * hop + win <= size
    ensures g * hop + win <= size
  {
    MulMonoLe(g, f, hop);
  }

  /** With the defaults the buffer has 480000 samples and 2998 frames. */
  lemma DefaultFrames()
    ensures 30 * Defaults.sampleRate == 480000
    ensures FrameCount(480000, Defaults.winLength, Defaults.hopLength) == 2998
    ensures Runnable(Defaults)
  {
    assert 479600 / 160 == 2997;
  }

  // ---------------------------------------------------------------------------
  // Filterbank

  /** `coerceIn(0, nFreqs - 1)` on a bin edge. */
  function ClampBin(b: int): (r: nat)
    ensures r < NFreqs
    ensures 0 <= b < NFreqs ==> r == b
    ensures b < 0 ==> r == 0
    ensures b >= NFreqs ==> r == NFreqs - 1
  {
    if b < 0 then 0 else if b >= NFreqs then NFreqs - 1 else b
  }

  /** `coerceAtLeast(1)`. */
  function AtLeastOne(d: int): (r: int)
    ensures r >= 1 && r >= d
    ensures d >= 1 ==> r == d
    ensures d < 1 ==> r == 1
  {
    if d < 1 then 1 else d
  }

  /** The weight at bin `k` of the filter with edges `(left, center, right)`:
      the rising ramp on `[left, center)`, the falling ramp on `[center, right)`,
      zero elsewhere. */
  function Weight(left: int, center: int, right: int, k: int): real
  {
    if left <= k < center then (k - left) as real / AtLeastOne(center - left) as real
    else if center <= k < right then (right - k) as real / AtLeastOne(right - center) as real
    else 0.0
  }

  /** A quotient of a non-negative number by a larger one lies in [0, 1]. */
  lemma UnitQuotient(a: real, b: real)
    requires 0.0 <= a <= b && b > 0.0
    ensures 0.0 <= a / b <= 1.0
  {
    assert a / b * b == a;
  }

  /** Every filter weight lies in [0, 1]. */
  lemma WeightBounds(left: int, center: int, right: int, k: int)
    ensures 0.0 <= Weight(left, center, right, k) <= 1.0
  {
    if left <= k < center {
      UnitQuotient((k - left) as real, AtLeastOne(center - left) as real);
    } else if center <= k < right {
      UnitQuotient((right - k) as real, AtLeastOne(right - center) as real);
    }
  }

  /** A filter is non-zero only strictly inside its rising ramp or on its
      falling ramp; with ordered edges, only on `[left, right)`. */
  lemma WeightSupport(left: int, center: int, right: int, k: int)
    requires Weight(left, center, right, k) != 0.0
    ensures left < k < center || center <= k < right
    ensures left <= center <= right ==> left <= k < right
  {
  }

  /** On `[center, right)` the falling ramp of one filter and the rising ramp of
      the next, which shares those two edges, add up to one. */
  lemma AdjacentFiltersSum(left: int, center: int, right: int, next: int, k: int)
    requires center <= k < right
    ensures Weight(left, center, right, k) + Weight(center, right, next, k) == 1.0
  {
    var d := (right - center) as real;
    assert AtLeastOne(right - center) as real == d && d > 0.0;
    assert (right - k) as real / d + (k - center) as real / d == ((right - k) as real + (k - center) as real) / d;
  }

  /** The filter row with edges `(left, center, right)` over the `nFreqs` bins. */
  function TriangleRow(left: nat, center: nat, right: nat): (f: seq<real>)
    ensures |f| == NFreqs
  {
    seq(NFreqs, k => Weight(left, center, right, k))
  }

  /** The edges of filter `m`: clamped raw bins `m`, `m + 1`, `m + 2`. */
  function Edges(rawBins: seq<int>, m: nat): (nat, nat, nat)
    requires m + 2 < |rawBins|
  {
    (ClampBin(rawBins[m]), ClampBin(rawBins[m + 1]), ClampBin(rawBins[m + 2]))
  }

  /** `melFilter`, given the unclamped integer bin edges (`nMels + 2` of them). */
  function MelFilterbank(rawBins: seq<int>): (fb: seq<seq<real>>)
    requires |rawBins| >= 2
    ensures |fb| == |rawBins| - 2
    ensures forall m :: 0 <= m < |fb| ==> |fb[m]| == NFreqs
  {
    seq(|rawBins| - 2, m requires 0 <= m < |rawBins| - 2 =>
      var e := Edges(rawBins, m); TriangleRow(e.0, e.1, e.2))
  }

  /** The filterbank's weights lie in [0, 1] and vanish outside each filter's
      clamped `[left, right)` when the bin edges are non-decreasing. */
  lemma FilterbankShape(rawBins: seq<int>, m: nat, k: nat)
    requires |rawBins| >= 2 && m < |rawBins| - 2 && k < NFreqs
    ensures 0.0 <= MelFilterbank(rawBins)[m][k] <= 1.0
    ensures rawBins[m] <= rawBins[m + 1] <= rawBins[m + 2] && MelFilterbank(rawBins)[m][k] != 0.0 ==>
              ClampBin(rawBins[m]) <= k < ClampBin(rawBins[m + 2])
  {
    var e := Edges(rawBins, m);
    WeightBounds(e.0, e.1, e.2, k);
    if MelFilterbank(rawBins)[m][k] != 0.0 {
      WeightSupport(e.0, e.1, e.2, k);
    }
  }

  /** Neighbouring filters cross-fade: on the clamped `[bins[m+1], bins[m+2])`
      filters `m` and `m + 1` add up to one. */
  lemma FilterbankCrossFade(rawBins: seq<int>, m: nat, k: nat)
    requires m + 3 < |rawBins| && ClampBin(rawBins[m + 1]) <= k < ClampBin(rawBins[m + 2])
    ensures MelFilterbank(rawBins)[m][k] + MelFilterbank(rawBins)[m + 1][k] == 1.0
  {
    var e := Edges(rawBins, m);
    AdjacentFiltersSum(e.0, e.1, e.2, ClampBin(rawBins[m + 3]), k);
  }

  /** One filter row: a zeroed `DoubleArray(nFreqs)`, then the rising loop over
      `left until center` and the falling loop over `center until right`. */
  method BuildFilterRow(left: nat, center: nat, right: nat) returns (f: array<real>)
    requires left < NFreqs && center < NFreqs && right < NFreqs
    ensures fresh(f) && f[..] == TriangleRow(left, center, right)
  {
    ghost var row := TriangleRow(left, center, right);
    f := new real[NFreqs](_ => 0.0);
    var k := left;
    while k < center
      invariant left <= k && (k <= center || k == left)
      invariant forall i :: 0 <= i < NFreqs ==> f[i] == (if left <= i < k then row[i] else 0.0)
      decreases center - k
    {
      f[k] := (k - left) as real / AtLeastOne(center - left) as real;
      k := k + 1;
    }
    k := center;
    while k < right
      invariant center <= k && (k <= right || k == center)
      invariant forall i :: 0 <= i < NFreqs ==>
                  f[i] == (if left <= i < center || center <= i < k then row[i] else 0.0)
      decreases right - k
    {
      f[k] := (right - k) as real / AtLeastOne(right - center) as real;
      k := k + 1;
    }
    assert f[..] == row;
  }

  /** `Array(nMels) { m -> ... }`: one row per filter. */
  method BuildMelFilter(rawBins: seq<int>) returns (fb: seq<seq<real>>)
    requires |rawBins| >= 2
    ensures fb == MelFilterbank(rawBins)
  {
    fb := [];
    var m := 0;
    while m < |rawBins| - 2
      invariant 0 <= m <= |rawBins| - 2
      invariant fb == MelFilterbank(rawBins)[..m]
    {
      var e := Edges(rawBins, m);
      var row := BuildFilterRow(e.0, e.1, e.2);
      fb := fb + [row[..]];
      m := m + 1;
    }
  }

  // ---------------------------------------------------------------------------
  // Frames, power spectra and the output matrix

  /** `winPad` for the frame at `offset`: windowed samples, then zeros up to 512. */
  function Frame(x: seq<real>, offset: nat, hann: seq<real>): (w: seq<real>)
    requires |hann| <= Fft.N && offset + |hann| <= |x|
    ensures |w| == Fft.N
    ensures forall i :: 0 <= i < |hann| ==> w[i] == x[offset + i] * hann[i]
    ensures forall i :: |hann| <= i < Fft.N ==> w[i] == 0.0
  {
    seq(Fft.N, i requires 0 <= i < Fft.N => if i < |hann| then x[offset + i] * hann[i] else 0.0)
  }

  /** The squared magnitudes of bins `0 .. nFft/2`. */
  function Power(re: seq<real>, im: seq<real>): (p: seq<real>)
    requires |re| == Fft.N && |im| == Fft.N
    ensures |p| == NFreqs
  {
    seq(NFreqs, k requires 0 <= k < NFreqs => re[k] * re[k] + im[k] * im[k])
  }

  /** Row `f` of `spec` after the framing loop: the power spectrum of frame `f`
      when its window fits in `x`, otherwise the zeros it was allocated with. */
  function SpecRow(x: seq<real>, p: MelParams, hann: seq<real>, tw: Fft.Twiddles, f: nat): (r: seq<real>)
    requires |hann| == p.winLength <= Fft.N && Fft.ValidTwiddles(tw)
    ensures |r| == NFreqs
  {
    if f * p.hopLength + p.winLength <= |x| then
      var spectrum := Fft.Fft(Frame(x, f * p.hopLength, hann), tw);
      Power(spectrum.0, spectrum.1)
    else
      seq(NFreqs, _ => 0.0)
  }

  /** The weighted sum of the first `n` products `w[k] * s[k]`. */
  function Dot(w: seq<real>, s: seq<real>, n: nat): real
    requires n <= |w| && n <= |s|
  {
    if n == 0 then 0.0 else Dot(w, s, n - 1) + w[n - 1] * s[n - 1]
  }

  /** The rows of `spec` after the framing loop, one per frame. */
  function SpecRows(x: seq<real>, p: MelParams, hann: seq<real>, tw: Fft.Twiddles): (rows: seq<seq<real>>)
    requires p.hopLength > 0 && |hann| == p.winLength <= Fft.N && Fft.ValidTwiddles(tw)
    requires FrameCount(|x|, p.winLength, p.hopLength) >= 0
    ensures |rows| == FrameCount(|x|, p.winLength, p.hopLength)
    ensures forall f :: 0 <= f < |rows| ==> rows[f] == SpecRow(x, p, hann, tw, f)
  {
    seq(FrameCount(|x|, p.winLength, p.hopLength), f requires 0 <= f => SpecRow(x, p, hann, tw, f))
  }

  /** Every row holds `nFreqs` values. */
  predicate RowShape(rows: seq<seq<real>>)
  {
    forall f :: 0 <= f < |rows| ==> |rows[f]| == NFreqs
  }

  /** The filter bank `fb` has `nMels` rows of `nFreqs` weights. */
  predicate FilterShape(fb: seq<seq<real>>, nMels: nat)
  {
    |fb| == nMels && forall m :: 0 <= m < |fb| ==> |fb[m]| == NFreqs
  }

  /** Cell `(m, t)` of the output: the log band energy of row `t` for the
      first `min(3000, nFrames)` columns, the floor value after them. */
  function Cell(rows: seq<seq<real>>, fb: seq<seq<real>>, ln: real -> real, m: nat, t: nat): real
    requires RowShape(rows) && m < |fb| && |fb[m]| == NFreqs
  {
    if t < Min(MelT, |rows|) then ln(Dot(fb[m], rows[t], NFreqs) + LogEps) else Floor
  }

  /** The flattened output matrix: cell `(m, t)` at index `m * 3000 + t`. */
  function Matrix(rows: seq<seq<real>>, fb: seq<seq<real>>, ln: real -> real): (out: seq<real>)
    requires RowShape(rows) && FilterShape(fb, |fb|)
    ensures |out| == |fb| * MelT
  {
    seq(|fb| * MelT, q requires 0 <= q < |fb| * MelT =>
      CellIndex(q, |fb|);
      Cell(rows, fb, ln, q / MelT, q % MelT))
  }

  /** The output of `logMel` for the normalised buffer `x`. */
  function LogMelOf(x: seq<real>, p: MelParams, hann: seq<real>, fb: seq<seq<real>>,
                    ln: real -> real, tw: Fft.Twiddles): (out: seq<real>)
    requires p.hopLength > 0 && |hann| == p.winLength <= Fft.N && Fft.ValidTwiddles(tw)
    requires FrameCount(|x|, p.winLength, p.hopLength) >= 0 && FilterShape(fb, p.nMels)
    ensures |out| == p.nMels * MelT
  {
    Matrix(SpecRows(x, p, hann, tw), fb, ln)
  }

  /** Index `q` of the flat matrix is cell `(q / 3000, q % 3000)`. */
  lemma CellIndex(q: nat, nMels: nat)
    requires q < nMels * MelT
    ensures q / MelT < nMels && q % MelT < MelT
  {
    var m := q / MelT;
    if m >= nMels {
      MulMonoLe(nMels, m, MelT);
    }
  }

  /** Cell `(m, t)` is stored at index `m * 3000 + t`. */
  lemma MatrixLayout(rows: seq<seq<real>>, fb: seq<seq<real>>, ln: real -> real, m: nat, t: nat)
    requires RowShape(rows) && FilterShape(fb, |fb|) && m < |fb| && t < MelT
    ensures m * MelT + t < |fb| * MelT
    ensures Matrix(rows, fb, ln)[m * MelT + t] == Cell(rows, fb, ln, m, t)
  {
    MulMonoLe(m + 1, |fb|, MelT);
    DivModUnique(m * MelT + t, MelT, m, t);
  }

  /** In the output of `logMel`, cell `(m, t)` is the log energy of frame `t`
      under filter `m` when `t < min(3000, nFrames)`, and -11 otherwise. */
  lemma LogMelCells(x: seq<real>, p: MelParams, hann: seq<real>, fb: seq<seq<real>>,
                    ln: real -> real, tw: Fft.Twiddles, m: nat, t: nat)
    requires p.hopLength > 0 && |hann| == p.winLength <= Fft.N && Fft.ValidTwiddles(tw)
    requires FrameCount(|x|, p.winLength, p.hopLength) >= 0 && FilterShape(fb, p.nMels)
    requires m < p.nMels && t < MelT
    ensures m * MelT + t < p.nMels * MelT
    ensures var out, q := LogMelOf(x, p, hann, fb, ln, tw), m * MelT + t;
      if t < FrameCount(|x|, p.winLength, p.hopLength)
      then out[q] == ln(Dot(fb[m], SpecRow(x, p, hann, tw, t), NFreqs) + LogEps)
      else out[q] == Floor
  {
    var rows := SpecRows(x, p, hann, tw);
    MatrixLayout(rows, fb, ln, m, t);
    var cell := Matrix(rows, fb, ln)[m * MelT + t];
    assert LogMelOf(x, p, hann, fb, ln, tw)[m * MelT + t] == cell;
    if t < |rows| {
      assert cell == ln(Dot(fb[m], rows[t], NFreqs) + LogEps);
    } else {
      assert cell == Floor;
    }
  }

  /** Only the first `target` samples matter, and zeros appended to a short
      buffer change nothing: `logMel` pads with zeros itself. */
  lemma NormalizePadding(pcm: seq<real>, target: nat)
    ensures |pcm| < target ==> Normalize(pcm + [0.0], target) == Normalize(pcm, target)
    ensures |pcm| >= target ==> Normalize(pcm[..target], target) == Normalize(pcm, target)
  {
    if |pcm| < target {
      var a, b := Normalize(pcm + [0.0], target), Normalize(pcm, target);
      forall i | 0 <= i < target
        ensures a[i] == b[i]
      {
        if i < |pcm| {
          assert a[..|pcm| + 1][i] == (pcm + [0.0])[i];
          assert b[..|pcm|][i] == pcm[i];
        } else if i == |pcm| {
          assert a[..|pcm| + 1][i] == (pcm + [0.0])[i];
        }
      }
    }
  }

  /** `for (i in 0 until winLength) winPad[i] = x[offset + i] * hann[i]`, then
      `for (i in winLength until nFft) winPad[i] = 0f`. */
  method FillWindow(winPad: array<real>, x: seq<real>, offset: nat, hann: seq<real>)
    requires winPad.Length == Fft.N && |hann| <= Fft.N && offset + |hann| <= |x|
    modifies winPad
    ensures winPad[..] == Frame(x, offset, hann)
  {
    for i := 0 to |hann|
      invariant forall j :: 0 <= j < i ==> winPad[j] == x[offset + j] * hann[j]
    {
      winPad[i] := x[offset + i] * hann[i];
    }
    for i := |hann| to Fft.N
      invariant forall j :: 0 <= j < |hann| ==> winPad[j] == x[offset + j] * hann[j]
      invariant forall j :: |hann| <= j < i ==> winPad[j] == 0.0
    {
      winPad[i] := 0.0;
    }
    assert winPad[..] == Frame(x, offset, hann);
  }

  /** `row[k] = rr * rr + ii * ii` for `k in 0..(nFft / 2)` on row `frame`. */
  method StorePower(spec: array2<real>, frame: nat, re: array<real>, im: array<real>)
    requires spec.Length1 == NFreqs && frame < spec.Length0 && re.Length == Fft.N && im.Length == Fft.N
    modifies spec
    ensures forall f, k :: 0 <= f < spec.Length0 && 0 <= k < NFreqs ==>
              spec[f, k] == (if f == frame then Power(re[..], im[..])[k] else old(spec[f, k]))
  {
    for k := 0 to NFreqs
      invariant forall f, j :: 0 <= f < spec.Length0 && 0 <= j < NFreqs ==>
                  spec[f, j] == (if f == frame && j < k then Power(re[..], im[..])[j] else old(spec[f, j]))
    {
      var rr := re[k];
      var ii := im[k];
      spec[frame, k] := rr * rr + ii * ii;
    }
  }

  /** Row `t` of the spectrum matrix. */
  function Row(spec: array2<real>, t: nat): (r: seq<real>)
    requires t < spec.Length0
    reads spec
    ensures |r| == spec.Length1
  {
    seq(spec.Length1, k requires 0 <= k < spec.Length1 reads spec => spec[t, k])
  }

  /** `for (k in f.indices) if (f[k] != 0.0) e += f[k] * p[k]`: skipping the
      zero weights leaves the dot product unchanged. */
  method BandEnergy(w: seq<real>, spec: array2<real>, t: nat) returns (e: real)
    requires |w| == spec.Length1 && t < spec.Length0
    ensures e == Dot(w, Row(spec, t), |w|)
  {
    e := 0.0;
    for k := 0 to |w|
      invariant e == Dot(w, Row(spec, t), k)
    {
      if w[k] != 0.0 {
        e := e + w[k] * spec[t, k];
      }
    }
  }

  /** Frames from `frame` on do not fit once frame `frame` does not. */
  lemma LaterFramesEmpty(x: seq<real>, p: MelParams, hann: seq<real>, tw: Fft.Twiddles, frame: nat)
    requires |hann| == p.winLength <= Fft.N && Fft.ValidTwiddles(tw)
    requires frame * p.hopLength + p.winLength > |x|
    ensures forall f :: f >= frame ==> SpecRow(x, p, hann, tw, f) == seq(NFreqs, _ => 0.0)
  {
    forall f | f >= frame
      ensures f * p.hopLength + p.winLength > |x|
    {
      if f * p.hopLength + p.winLength <= |x| {
        FrameFits(f, frame, p.winLength, p.hopLength, |x|);
      }
    }
  }

  /** A `MelSpec` instance: its parameters, Hann window and filter bank are
      fixed at construction. */
  class MelSpec {
    const params: MelParams
    const hann: seq<real>
    const melFilter: seq<seq<real>>

    predicate Valid()
    {
      |hann| == params.winLength && FilterShape(melFilter, params.nMels)
    }

    /** The window values and the unclamped bin edges are given; the filter
        bank is built from the edges as in the `melFilter` initialiser. */
    constructor(params: MelParams, hann: seq<real>, rawBins: seq<int>)
      requires |hann| == params.winLength && |rawBins| == params.nMels + 2
      ensures this.params == params && this.hann == hann && melFilter == MelFilterbank(rawBins)
      ensures Valid()
    {
      this.params := params;
      this.hann := hann;
      var fb := BuildMelFilter(rawBins);
      melFilter := fb;
    }

    /** `logMel`: the nMels x 3000 log-mel matrix of `pcm`, flattened band-major. */
    method LogMel(pcm: seq<real>, ln: real -> real, tw: Fft.Twiddles) returns (result: seq<real>)
      requires Valid() && Runnable(params) && Fft.ValidTwiddles(tw)
      ensures result == LogMelOf(Normalize(pcm, 30 * params.sampleRate), params, hann, melFilter, ln, tw)
    {
      var x := Normalize(pcm, 30 * params.sampleRate);
      var spec := Spectrogram(x, params, hann, tw);
      result := Project(spec, SpecRows(x, params, hann, tw), melFilter, ln);
    }
  }

  /** The framing loop of `logMel`: `spec` has `nFrames` rows, row `f` holding
      the power spectrum of the frame at `f * hopLength`. */
  method Spectrogram(x: seq<real>, p: MelParams, hann: seq<real>, tw: Fft.Twiddles) returns (spec: array2<real>)
    requires p.hopLength > 0 && |hann| == p.winLength <= Fft.N && Fft.ValidTwiddles(tw)
    requires FrameCount(|x|, p.winLength, p.hopLength) >= 0
    ensures fresh(spec) && spec.Length0 == FrameCount(|x|, p.winLength, p.hopLength) && spec.Length1 == NFreqs
    ensures forall f, k :: 0 <= f < spec.Length0 && 0 <= k < NFreqs ==> spec[f, k] == SpecRow(x, p, hann, tw, f)[k]
  {
    var win, hop := p.winLength, p.hopLength;
    var nFrames := FrameCount(|x|, win, hop);
    spec := new real[nFrames, NFreqs]((_, _) => 0.0);
    var winPad := new real[Fft.N](_ => 0.0);
    var re := new real[Fft.N](_ => 0.0);
    var im := new real[Fft.N](_ => 0.0);
    var frame := 0;
    var offset := 0;
    while offset + win <= |x| && frame < nFrames
      invariant 0 <= frame <= nFrames && offset == frame * hop
      invariant forall f, k :: 0 <= f < nFrames && 0 <= k < NFreqs ==>
                  spec[f, k] == (if f < frame then SpecRow(x, p, hann, tw, f)[k] else 0.0)
      decreases nFrames - frame
    {
      FillWindow(winPad, x, offset, hann);
      Fft.FftReal(winPad, 0, re, im, tw);
      assert winPad[0..0 + Fft.N] == winPad[..];
      StorePower(spec, frame, re, im);
      MulSucc(frame, hop);
      frame := frame + 1;
      offset := offset + hop;
    }
    if frame < nFrames {
      LaterFramesEmpty(x, p, hann, tw, frame);
    }
  }

  /** The projection loops of `logMel`: `out` starts filled with -11, and
      column `t < min(3000, nFrames)` receives the log band energies of row `t`. */
  method Project(spec: array2<real>, ghost rows: seq<seq<real>>, fb: seq<seq<real>>, ln: real -> real)
    returns (result: seq<real>)
    requires spec.Length0 == |rows| && spec.Length1 == NFreqs && RowShape(rows) && FilterShape(fb, |fb|)
    requires forall f, k :: 0 <= f < spec.Length0 && 0 <= k < NFreqs ==> spec[f, k] == rows[f][k]
    ensures result == Matrix(rows, fb, ln)
  {
    ghost var cells := Matrix(rows, fb, ln);
    var out := new real[|fb| * MelT](_ => Floor);
    var T := Min(MelT, spec.Length0);
    for t := 0 to T
      invariant Written(out[..], cells, t, 0)
    {
      assert Row(spec, t) == rows[t];
      ProjectFrame(out, spec, rows, fb, ln, t, cells);
    }
    FloorCells(rows, fb, ln, cells);
    result := out[..];
    assert forall q :: 0 <= q < |result| ==> result[q] == cells[q];
  }

  /** `out` holds `cells` on the columns before `t` and on the first `m` rows
      of column `t`, and -11 everywhere else. */
  predicate Written(out: seq<real>, cells: seq<real>, t: nat, m: nat)
    requires |out| == |cells|
  {
    forall q :: 0 <= q < |out| ==>
      out[q] == (if q % MelT < t || (q % MelT == t && q / MelT < m) then cells[q] else Floor)
  }

  /** Storing cell `(m, t)` at `m * 3000 + t` extends the written part by one row. */
  lemma WriteStep(out: seq<real>, cells: seq<real>, nMels: nat, t: nat, m: nat)
    requires |out| == |cells| == nMels * MelT && m < nMels && t < MelT
    requires Written(out, cells, t, m)
    ensures m * MelT + t < |out|
    ensures Written(out[m * MelT + t := cells[m * MelT + t]], cells, t, m + 1)
  {
    MulMonoLe(m + 1, nMels, MelT);
    DivModUnique(m * MelT + t, MelT, m, t);
  }

  /** Column `t` written for every row is the same as columns before `t + 1`. */
  lemma ColumnDone(out: seq<real>, cells: seq<real>, nMels: nat, t: nat)
    requires |out| == |cells| == nMels * MelT
    requires Written(out, cells, t, nMels)
    ensures Written(out, cells, t + 1, 0)
  {
    forall q | 0 <= q < |out| && q % MelT == t
      ensures q / MelT < nMels
    {
      CellIndex(q, nMels);
    }
  }

  /** The inner `for (m in 0 until nMels)` loop for column `t`: band energy of
      row `t` under each filter, its logarithm stored at `m * 3000 + t`. */
  method ProjectFrame(out: array<real>, spec: array2<real>, ghost rows: seq<seq<real>>, fb: seq<seq<real>>,
                      ln: real -> real, t: nat, ghost cells: seq<real>)
    requires RowShape(rows) && FilterShape(fb, |fb|) && cells == Matrix(rows, fb, ln)
    requires t < Min(MelT, |rows|) && spec.Length0 == |rows| && spec.Length1 == NFreqs
    requires Row(spec, t) == rows[t]
    requires out.Length == |fb| * MelT && Written(out[..], cells, t, 0)
    modifies out
    ensures Written(out[..], cells, t + 1, 0)
  {
    for m := 0 to |fb|
      invariant Written(out[..], cells, t, m)
    {
      var e := BandEnergy(fb[m], spec, t);
      MatrixLayout(rows, fb, ln, m, t);
      assert ln(e + LogEps) == cells[m * MelT + t];
      ghost var before := out[..];
      WriteStep(before, cells, |fb|, t, m);
      out[m * MelT + t] := ln(e + LogEps);
      assert out[..] == before[m * MelT + t := cells[m * MelT + t]];
    }
    ColumnDone(out[..], cells, |fb|, t);
  }

  /** The cells of the columns no row reaches hold the floor value. */
  lemma FloorCells(rows: seq<seq<real>>, fb: seq<seq<real>>, ln: real -> real, cells: seq<real>)
    requires RowShape(rows) && FilterShape(fb, |fb|) && cells == Matrix(rows, fb, ln)
    ensures forall q :: 0 <= q < |cells| && q % MelT >= Min(MelT, |rows|) ==> cells[q] == Floor
  {
    forall q | 0 <= q < |cells| && q % MelT >= Min(MelT, |rows|)
      ensures cells[q] == Floor
    {
      CellIndex(q, |fb|);
    }
  }
}
