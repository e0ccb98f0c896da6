/** The two MFCC front ends over the reals: ml/features (mel_spectrogram.py, audio_features.py)
    and the firmware's feature_extractor.cpp. Cosine, sine, logarithm, square root and pi are
    parameters; of them only cos(0) = 1 and the square root's own law are ever used. */
module FrontEnd {
  import opened Words
  import opened Pcm

  datatype Maths = Maths(
    cos: real -> real,
    sin: real -> real,
    log: real -> real,
    sqrt: real -> real,
    pi: real)

  /** Any configuration with no more coefficients than filters; Python raises on others. */
  datatype Spec = Spec(
    frameLength: nat,
    hop: nat,
    numFrames: nat,
    nFft: nat,
    nMels: nat,
    nMfcc: nat,
    preEmphasis: real)
  {
    predicate Valid() {
      frameLength >= 2 && nFft >= 1 && numFrames >= 1 && 1 <= nMels && nMfcc <= nMels
    }

    function Bins(): nat {
      nFft / 2 + 1
    }

    function Required(): nat
      requires numFrames >= 1
    {
      frameLength + (numFrames - 1) * hop
    }
  }

  /** The constants both sides ship. */
  const SHIPPED := Spec(512, 320, 50, 256, 40, 13, 0.98)

  const LOG_FLOOR := 0.0000000001

  // ------------------------------------------------------- shared arithmetic

  function HannAngle(m: Maths, length: nat, i: nat): real
    requires length >= 2
  {
    2.0 * m.pi * i as real / (length - 1) as real
  }

  /** The Hann window both sides use. */
  function Hann(m: Maths, length: nat, i: nat): real
    requires length >= 2
  {
    0.5 - 0.5 * m.cos(HannAngle(m, length, i))
  }

  function Angle(m: Maths, nFft: nat, k: nat, n: nat): real
    requires nFft >= 1
  {
    -2.0 * m.pi * (k * n) as real / nFft as real
  }

  /** Sums of x[i] * f(angle) over the first n samples. */
  function CosSum(m: Maths, x: seq<real>, nFft: nat, k: nat, n: nat): real
    requires nFft >= 1 && n <= |x|
  {
    if n == 0 then 0.0
    else CosSum(m, x, nFft, k, n - 1) + x[n - 1] * m.cos(Angle(m, nFft, k, n - 1))
  }

  function SinSum(m: Maths, x: seq<real>, nFft: nat, k: nat, n: nat): real
    requires nFft >= 1 && n <= |x|
  {
    if n == 0 then 0.0
    else SinSum(m, x, nFft, k, n - 1) + x[n - 1] * m.sin(Angle(m, nFft, k, n - 1))
  }

  function Magnitude(re: real, im: real, nFft: nat): real
    requires nFft >= 1
  {
    (re * re + im * im) / nFft as real
  }

  /** |rfft(x, n)[k]|^2 / n: the frame is cut at n samples. */
  function Power(m: Maths, x: seq<real>, nFft: nat, k: nat): real
    requires nFft >= 1
  {
    var n := Min(|x|, nFft);
    Magnitude(CosSum(m, x, nFft, k, n), SinSum(m, x, nFft, k, n), nFft)
  }

  /** A float32 cell: a number, or the NaN that 0 / 0 gives. */
  datatype Cell = Num(value: real) | NaN

  function Quotient(a: int, b: int): Cell {
    if b == 0 then NaN else Num(a as real / b as real)
  }

  function Plus(a: Cell, b: Cell): Cell {
    if a.Num? && b.Num? then Num(a.value + b.value) else NaN
  }

  function Times(a: real, b: Cell): Cell {
    if b.Num? then Num(a * b.value) else NaN
  }

  // ------------------------------------------------------------- filterbanks

  /** The centre and right edge of a filter once they are pushed apart. */
  function Center(left: int, center: int): int {
    if center <= left then left + 1 else center
  }

  function Right(left: int, center: int, right: int): int {
    if right <= Center(left, center) then Center(left, center) + 1 else right
  }

  /** Python's weight at bin k of the filter with these edges. */
  function PythonWeight(left: int, center: int, right: int, bins: nat, k: nat): real {
    var (c, r) := (Center(left, center), Right(left, center, right));
    if left <= k < Min(c, bins) then (k - left) as real / (c - left) as real
    else if c <= k < Min(r, bins) then (r - k) as real / (r - c) as real
    else 0.0
  }

  /** The firmware's: it also pulls the right edge back to the last bin, and includes it. */
  function FirmwareWeight(left: int, center: int, right: int, bins: nat, k: nat): Cell {
    var c := Center(left, center);
    var r := Min(Right(left, center, right), bins - 1);
    if left <= k < c && k < bins then Quotient(k - left, c - left)
    else if c <= k <= r && k < bins then Quotient(r - k, r - c)
    else Num(0.0)
  }

  /** The two filters are the same exactly when the adjusted centre is not the last bin; if it
      is, the firmware divides zero by zero where Python has weight 1. */
  lemma FiltersAgree(left: int, center: int, right: int, bins: nat)
    requires 0 <= left < bins && 0 <= center < bins && 0 <= right < bins
    ensures (forall k: nat :: k < bins ==>
               FirmwareWeight(left, center, right, bins, k)
               == Num(PythonWeight(left, center, right, bins, k)))
            <==> Center(left, center) != bins - 1
    ensures Center(left, center) == bins - 1 ==>
              && FirmwareWeight(left, center, right, bins, bins - 1) == NaN
              && PythonWeight(left, center, right, bins, bins - 1) == 1.0
  {
    if Center(left, center) == bins - 1 {
      assert FirmwareWeight(left, center, right, bins, bins - 1) == NaN;
    }
  }

  function PythonRow(points: seq<int>, spec: Spec, i: nat): (w: seq<real>)
    requires |points| == spec.nMels + 2 && i < spec.nMels
    ensures |w| == spec.Bins()
  {
    seq(spec.Bins(), k requires 0 <= k < spec.Bins() =>
      PythonWeight(points[i], points[i + 1], points[i + 2], spec.Bins(), k))
  }

  function FirmwareRow(points: seq<int>, spec: Spec, i: nat): (w: seq<Cell>)
    requires |points| == spec.nMels + 2 && i < spec.nMels
    ensures |w| == spec.Bins()
  {
    seq(spec.Bins(), k requires 0 <= k < spec.Bins() =>
      FirmwareWeight(points[i], points[i + 1], points[i + 2], spec.Bins(), k))
  }

  /** bin_points: one more at either end than there are filters, clipped to the bins. */
  ghost predicate ValidPoints(points: seq<int>, spec: Spec) {
    |points| == spec.nMels + 2 && forall i :: 0 <= i < |points| ==> 0 <= points[i] < spec.Bins()
  }

  ghost predicate NoCentreAtLastBin(points: seq<int>, spec: Spec)
    requires |points| == spec.nMels + 2
  {
    forall m :: 1 <= m <= spec.nMels ==> Center(points[m - 1], points[m]) != spec.Bins() - 1
  }

  method FillPythonRow(bank: array2<real>, row: nat, left: int, center0: int, right0: int)
    requires row < bank.Length0 && 0 <= left < bank.Length1
    requires forall k :: 0 <= k < bank.Length1 ==> bank[row, k] == 0.0
    modifies bank
    ensures forall k :: 0 <= k < bank.Length1 ==>
      bank[row, k] == PythonWeight(left, center0, right0, bank.Length1, k)
    ensures forall i, k :: 0 <= i < bank.Length0 && 0 <= k < bank.Length1 && i != row ==>
      bank[i, k] == old(bank[i, k])
  {
    var bins := bank.Length1;
    var center, right := center0, right0;
    if center <= left { center := left + 1; }
    if right <= center { right := center + 1; }
    for k := left to Min(center, bins)
      invariant forall j :: 0 <= j < bins ==>
        bank[row, j] == (if left <= j < k then (j - left) as real / (center - left) as real else 0.0)
      invariant forall i, j :: 0 <= i < bank.Length0 && 0 <= j < bins && i != row ==>
        bank[i, j] == old(bank[i, j])
    {
      bank[row, k] := (k - left) as real / (center - left) as real;
    }
    for k := center to Max(center, Min(right, bins))
      invariant forall j :: 0 <= j < bins ==>
        bank[row, j] == (if left <= j < Min(center, bins) then (j - left) as real / (center - left) as real
         else if center <= j < k then (right - j) as real / (right - center) as real
         else 0.0)
      invariant forall i, j :: 0 <= i < bank.Length0 && 0 <= j < bins && i != row ==>
        bank[i, j] == old(bank[i, j])
    {
      bank[row, k] := (right - k) as real / (right - center) as real;
    }
  }

  /** build_mel_filterbank from the clipped bin points on. */
  method BuildPythonFilterbank(points: seq<int>, spec: Spec) returns (bank: array2<real>)
    requires ValidPoints(points, spec)
    ensures fresh(bank) && bank.Length0 == spec.nMels && bank.Length1 == spec.Bins()
    ensures forall m, k :: 0 <= m < spec.nMels && 0 <= k < spec.Bins() ==>
      bank[m, k] == PythonWeight(points[m], points[m + 1], points[m + 2], spec.Bins(), k)
  {
    hide PythonWeight;
    bank := new real[spec.nMels, spec.Bins()]((_, _) => 0.0);
    for m := 1 to spec.nMels + 1
      invariant forall i, k :: 0 <= i < m - 1 && 0 <= k < spec.Bins() ==>
        bank[i, k] == PythonWeight(points[i], points[i + 1], points[i + 2], spec.Bins(), k)
      invariant forall i, k :: m - 1 <= i < spec.nMels && 0 <= k < spec.Bins() ==> bank[i, k] == 0.0
    {
      FillPythonRow(bank, m - 1, points[m - 1], points[m], points[m + 1]);
    }
  }

  // ----------------------------------------------------------- Python, as values

  /** pre_emphasis, over the whole signal. */
  function PreEmphasis(audio: seq<real>, coefficient: real): (e: seq<real>)
    ensures |e| == |audio|
  {
    seq(|audio|, i requires 0 <= i < |audio| =>
      if i == 0 then audio[0] else audio[i] - coefficient * audio[i - 1])
  }

  /** frame_signal pads a short signal with zeros and cuts a long one; then rows of indices. */
  function Fitted(audio: seq<real>, required: nat): (s: seq<real>)
    ensures |s| == required
  {
    if |audio| < required then audio + seq(required - |audio|, _ => 0.0) else audio[..required]
  }

  /** Where frame t begins. */
  function FrameStart(spec: Spec, t: nat): nat {
    t * spec.hop
  }

  lemma ProductGrows(a: nat, b: nat, c: nat)
    requires a <= b
    ensures a * c <= b * c
  {
    assert b * c == a * c + (b - a) * c;
  }

  lemma FrameFits(spec: Spec, t: nat)
    requires spec.Valid() && t < spec.numFrames
    ensures FrameStart(spec, t) + spec.frameLength <= spec.Required()
  {
    ProductGrows(t, spec.numFrames - 1, spec.hop);
  }

  function Frame(audio: seq<real>, spec: Spec, t: nat): (f: seq<real>)
    requires spec.Valid() && t < spec.numFrames
    ensures |f| == spec.frameLength
  {
    FrameFits(spec, t);
    Fitted(audio, spec.Required())[FrameStart(spec, t)..FrameStart(spec, t) + spec.frameLength]
  }

  function Windowed(m: Maths, frame: seq<real>): (w: seq<real>)
    requires |frame| >= 2
    ensures |w| == |frame|
  {
    seq(|frame|, i requires 0 <= i < |frame| => frame[i] * Hann(m, |frame|, i))
  }

  function PowerRow(m: Maths, frame: seq<real>, spec: Spec): (p: seq<real>)
    requires spec.nFft >= 1
    ensures |p| == spec.Bins()
  {
    seq(spec.Bins(), k requires 0 <= k < spec.Bins() => Power(m, frame, spec.nFft, k))
  }

  /** The scalar product of the first n entries. */
  function Energy(power: seq<real>, weights: seq<real>, n: nat): real
    requires n <= |power| && n <= |weights|
  {
    if n == 0 then 0.0 else Energy(power, weights, n - 1) + power[n - 1] * weights[n - 1]
  }

  /** Row t, filter i of log_mel_spectrogram on pcm16_to_float's output. */
  function PythonLogMel(m: Maths, pcm: seq<Sample>, spec: Spec, points: seq<int>, t: nat, i: nat): real
    requires spec.Valid() && |points| == spec.nMels + 2 && t < spec.numFrames && i < spec.nMels
  {
    var frame := Windowed(m, Frame(PreEmphasis(Scaled(pcm), spec.preEmphasis), spec, t));
    var energy := Energy(PowerRow(m, frame, spec), PythonRow(points, spec, i), spec.Bins());
    m.log(if energy < LOG_FLOOR then LOG_FLOOR else energy)
  }

  function PythonLogMels(m: Maths, pcm: seq<Sample>, spec: Spec, points: seq<int>, t: nat): (row: seq<real>)
    requires spec.Valid() && |points| == spec.nMels + 2 && t < spec.numFrames
    ensures |row| == spec.nMels
  {
    seq(spec.nMels, i requires 0 <= i < spec.nMels => PythonLogMel(m, pcm, spec, points, t, i))
  }

  /** scipy's dct of type 2 with norm="ortho", as its documentation defines it. */
  function PythonAngle(m: Maths, nMels: nat, k: nat, n: nat): real
    requires nMels >= 1
  {
    m.pi * (k * (2 * n + 1)) as real / (2 * nMels) as real
  }

  function DctSum(m: Maths, row: seq<real>, k: nat, n: nat): real
    requires |row| >= 1 && n <= |row|
  {
    if n == 0 then 0.0
    else DctSum(m, row, k, n - 1) + m.cos(PythonAngle(m, |row|, k, n - 1)) * row[n - 1]
  }

  function PythonScale(m: Maths, nMels: nat, k: nat): real
    requires nMels >= 1
  {
    2.0 * m.sqrt(1.0 / (if k == 0 then 4 * nMels else 2 * nMels) as real)
  }

  /** Coefficient k of row t of extract_features on pcm16_to_float's output. */
  function PythonMfcc(m: Maths, pcm: seq<Sample>, spec: Spec, points: seq<int>, t: nat, k: nat): real
    requires spec.Valid() && |points| == spec.nMels + 2 && t < spec.numFrames
  {
    PythonScale(m, spec.nMels, k) * DctSum(m, PythonLogMels(m, pcm, spec, points, t), k, spec.nMels)
  }

  // -------------------------------------------------------------- firmware code

  /** The energy of a filter as the firmware adds it up, NaN cells included. */
  function CellEnergy(power: seq<real>, weights: seq<Cell>, n: nat): Cell
    requires n <= |power| && n <= |weights|
  {
    if n == 0 then Num(0.0)
    else Plus(CellEnergy(power, weights, n - 1), Times(power[n - 1], weights[n - 1]))
  }

  /** A frame pre-emphasised on its own: its first sample has no predecessor. */
  function FrameEmphasis(pcm: seq<Sample>, at: nat, length: nat, coefficient: real): (f: seq<real>)
    requires at + length <= |pcm|
    ensures |f| == length
  {
    PreEmphasis(Scaled(pcm[at..at + length]), coefficient)
  }

  lemma EmphasisAt(pcm: seq<Sample>, at: nat, length: nat, coefficient: real, i: nat)
    requires at + length <= |pcm| && i < length
    ensures FrameEmphasis(pcm, at, length, coefficient)[i] ==
            if i == 0 then pcm[at] as real / 32768.0
            else pcm[at + i] as real / 32768.0 - coefficient * (pcm[at + i - 1] as real / 32768.0)
  {
  }

  /** What ComputeFrame writes for one filter: log of the floored energy; comparing NaN with
      the floor is false, so NaN goes through. */
  function LogCell(m: Maths, energy: Cell): Cell {
    if energy.NaN? then NaN
    else Num(m.log(if energy.value < LOG_FLOOR then LOG_FLOOR else energy.value))
  }

  /** What the firmware computes for one filter of the frame at a given sample. */
  function FirmwareLogMel(m: Maths, pcm: seq<Sample>, spec: Spec, points: seq<int>, at: nat, i: nat): Cell
    requires spec.Valid() && |points| == spec.nMels + 2 && i < spec.nMels
    requires at + spec.frameLength <= |pcm|
  {
    var frame := Windowed(m, FrameEmphasis(pcm, at, spec.frameLength, spec.preEmphasis));
    LogCell(m, CellEnergy(PowerRow(m, frame, spec), FirmwareRow(points, spec, i), spec.Bins()))
  }

  function FirmwareLogMels(m: Maths, pcm: seq<Sample>, spec: Spec, points: seq<int>, at: nat): (row: seq<Cell>)
    requires spec.Valid() && |points| == spec.nMels + 2
    requires at + spec.frameLength <= |pcm|
    ensures |row| == spec.nMels
  {
    seq(spec.nMels, i requires 0 <= i < spec.nMels => FirmwareLogMel(m, pcm, spec, points, at, i))
  }

  /** ComputeDct: the angle, the sum and the one scale the firmware has for every k. */
  function FirmwareAngle(m: Maths, nMels: nat, k: nat, n: nat): real
    requires nMels >= 1
  {
    m.pi * k as real * (n as real + 0.5) / nMels as real
  }

  function CellDct(m: Maths, row: seq<Cell>, k: nat, n: nat): Cell
    requires |row| >= 1 && n <= |row|
  {
    if n == 0 then Num(0.0)
    else Plus(CellDct(m, row, k, n - 1), Times(m.cos(FirmwareAngle(m, |row|, k, n - 1)), row[n - 1]))
  }

  function FirmwareScale(m: Maths, nMels: nat): real
    requires nMels >= 1
  {
    m.sqrt(2.0 / nMels as real)
  }

  /** Coefficient k of the frame at a given sample, as the firmware computes it. */
  function FirmwareMfcc(m: Maths, pcm: seq<Sample>, spec: Spec, points: seq<int>, at: nat, k: nat): Cell
    requires spec.Valid() && |points| == spec.nMels + 2
    requires at + spec.frameLength <= |pcm|
  {
    Times(FirmwareScale(m, spec.nMels),
          CellDct(m, FirmwareLogMels(m, pcm, spec, points, at), k, spec.nMels))
  }

  /** Where the coefficients of frame t begin in the output. */
  function FeatureStart(spec: Spec, t: nat): nat {
    t * spec.nMfcc
  }

  lemma FeaturesFit(spec: Spec, t: nat, n: nat)
    requires t < n
    ensures FeatureStart(spec, t + 1) == FeatureStart(spec, t) + spec.nMfcc <= FeatureStart(spec, n)
  {
    ProductGrows(t + 1, n, spec.nMfcc);
  }

  function FrameFeatures(m: Maths, pcm: seq<Sample>, spec: Spec, points: seq<int>, at: nat): (f: seq<Cell>)
    requires spec.Valid() && |points| == spec.nMels + 2
    requires at + spec.frameLength <= |pcm|
    ensures |f| == spec.nMfcc
  {
    seq(spec.nMfcc, k requires 0 <= k < spec.nMfcc => FirmwareMfcc(m, pcm, spec, points, at, k))
  }

  /** What Compute writes: the coefficients of the first n frames, frame after frame. */
  function FirmwareFeatures(m: Maths, pcm: seq<Sample>, spec: Spec, points: seq<int>, n: nat): (f: seq<Cell>)
    requires spec.Valid() && |points| == spec.nMels + 2
    requires n <= spec.numFrames && |pcm| >= spec.Required()
    ensures |f| == FeatureStart(spec, n)
  {
    if n == 0 then []
    else
      FrameFits(spec, n - 1);
      FirmwareFeatures(m, pcm, spec, points, n - 1) +
      FrameFeatures(m, pcm, spec, points, FrameStart(spec, n - 1))
  }

  ghost predicate IsRow(m: Maths, pcm: seq<Sample>, spec: Spec, points: seq<int>, at: nat, row: seq<Cell>)
    requires spec.Valid() && |points| == spec.nMels + 2
  {
    at + spec.frameLength <= |pcm| && row == FirmwareLogMels(m, pcm, spec, points, at)
  }

  lemma NoFeatures(m: Maths, pcm: seq<Sample>, spec: Spec, points: seq<int>)
    requires spec.Valid() && |points| == spec.nMels + 2 && |pcm| >= spec.Required()
    ensures FeatureStart(spec, 0) == 0 && FirmwareFeatures(m, pcm, spec, points, 0) == []
  {
  }

  lemma NextFeatures(m: Maths, pcm: seq<Sample>, spec: Spec, points: seq<int>, t: nat)
    requires spec.Valid() && |points| == spec.nMels + 2 && |pcm| >= spec.Required()
    requires t < spec.numFrames
    ensures FrameStart(spec, t) + spec.frameLength <= |pcm|
    ensures FirmwareFeatures(m, pcm, spec, points, t + 1) ==
            FirmwareFeatures(m, pcm, spec, points, t)
            + FrameFeatures(m, pcm, spec, points, FrameStart(spec, t))
  {
    hide FrameFeatures;
    FrameFits(spec, t);
  }

  method CopyInto(cells: seq<Cell>, out: array<Cell>, at: nat)
    requires at + |cells| <= out.Length
    modifies out
    ensures out[..] == old(out[..at]) + cells + old(out[at + |cells|..])
  {
    for i := 0 to |cells|
      invariant forall j :: 0 <= j < out.Length ==>
        out[j] == if at <= j < at + i then cells[j - at] else old(out[j])
    {
      out[at + i] := cells[i];
    }
  }

  class FeatureExtractor {
    const maths: Maths
    const spec: Spec
    const window: array<real>
    const filterbank: array2<Cell>

    constructor (maths: Maths, spec: Spec, points: seq<int>)
      requires spec.Valid() && ValidPoints(points, spec)
      ensures this.maths == maths && this.spec == spec && Valid(points)
    {
      this.maths, this.spec := maths, spec;
      window := new real[spec.frameLength](i requires 0 <= i < spec.frameLength => Hann(maths, spec.frameLength, i));
      filterbank := new Cell[spec.nMels, spec.Bins()]((_, _) => Num(0.0));
      new;
      BuildMelFilterbank(points);
    }

    ghost predicate Valid(points: seq<int>)
      reads this, window, filterbank
    {
      && spec.Valid() && ValidPoints(points, spec)
      && window.Length == spec.frameLength
      && filterbank.Length0 == spec.nMels && filterbank.Length1 == spec.Bins()
      && (forall i :: 0 <= i < window.Length ==> window[i] == Hann(maths, spec.frameLength, i))
      && (forall i, k :: 0 <= i < spec.nMels && 0 <= k < spec.Bins() ==>
          filterbank[i, k] == FirmwareWeight(points[i], points[i + 1], points[i + 2], spec.Bins(), k))
    }

    method BuildMelFilterbank(points: seq<int>)
      requires ValidPoints(points, spec)
      requires filterbank.Length0 == spec.nMels && filterbank.Length1 == spec.Bins()
      requires forall i, k :: 0 <= i < spec.nMels && 0 <= k < spec.Bins() ==> filterbank[i, k] == Num(0.0)
      modifies filterbank
      ensures forall i, k :: 0 <= i < spec.nMels && 0 <= k < spec.Bins() ==>
        filterbank[i, k] == FirmwareWeight(points[i], points[i + 1], points[i + 2], spec.Bins(), k)
    {
      hide FirmwareWeight;
      for m := 1 to spec.nMels + 1
        invariant forall i, k :: 0 <= i < m - 1 && 0 <= k < spec.Bins() ==>
          filterbank[i, k] == FirmwareWeight(points[i], points[i + 1], points[i + 2], spec.Bins(), k)
        invariant forall i, k :: m - 1 <= i < spec.nMels && 0 <= k < spec.Bins() ==>
          filterbank[i, k] == Num(0.0)
      {
        FillRow(m - 1, points[m - 1], points[m], points[m + 1]);
      }
    }

    method FillRow(row: nat, left: int, center0: int, right0: int)
      requires row < filterbank.Length0 && 0 <= left < filterbank.Length1
      requires forall k :: 0 <= k < filterbank.Length1 ==> filterbank[row, k] == Num(0.0)
      modifies filterbank
      ensures forall k :: 0 <= k < filterbank.Length1 ==>
        filterbank[row, k] == FirmwareWeight(left, center0, right0, filterbank.Length1, k)
      ensures forall i, k :: 0 <= i < filterbank.Length0 && 0 <= k < filterbank.Length1 && i != row ==>
        filterbank[i, k] == old(filterbank[i, k])
    {
      var bins := filterbank.Length1;
      var center, right := center0, right0;
      if center <= left { center := left + 1; }
      if right <= center { right := center + 1; }
      if right >= bins { right := bins - 1; }
      var k := left;
      while k < center && k < bins
        invariant left <= k <= center && k <= bins
        invariant forall j :: 0 <= j < bins ==>
          filterbank[row, j] == (if left <= j < k then Quotient(j - left, center - left) else Num(0.0))
        invariant forall i, j :: 0 <= i < filterbank.Length0 && 0 <= j < bins && i != row ==>
          filterbank[i, j] == old(filterbank[i, j])
      {
        filterbank[row, k] := Quotient(k - left, center - left);
        k := k + 1;
      }
      k := center;
      while k <= right && k < bins
        invariant center <= k
        invariant forall j :: 0 <= j < bins ==>
          filterbank[row, j] == (if left <= j < center then Quotient(j - left, center - left)
           else if center <= j < k && j <= right then Quotient(right - j, right - center)
           else Num(0.0))
        invariant forall i, j :: 0 <= i < filterbank.Length0 && 0 <= j < bins && i != row ==>
          filterbank[i, j] == old(filterbank[i, j])
        decreases bins - k
      {
        filterbank[row, k] := Quotient(right - k, right - center);
        k := k + 1;
      }
    }

    /** The pre-emphasis and window loop of ComputeFrame. */
    method WindowFrame(pcm: seq<Sample>, at: nat, ghost points: seq<int>) returns (windowed: array<real>)
      requires Valid(points) && at + spec.frameLength <= |pcm|
      ensures fresh(windowed)
      ensures windowed[..] ==
              Windowed(maths, FrameEmphasis(pcm, at, spec.frameLength, spec.preEmphasis))
    {
      hide FrameEmphasis, Hann;
      windowed := new real[spec.frameLength];
      ghost var want := Windowed(maths, FrameEmphasis(pcm, at, spec.frameLength, spec.preEmphasis));
      var previous := 0.0;
      for i := 0 to spec.frameLength
        invariant forall j :: 0 <= j < i ==> windowed[j] == want[j]
        invariant i > 0 ==> previous == pcm[at + i - 1] as real / 32768.0
      {
        var sample := pcm[at + i] as real / 32768.0;
        var emphasized;
        if i == 0 {
          emphasized := sample;
        } else {
          emphasized := sample - spec.preEmphasis * previous;
        }
        previous := sample;
        EmphasisAt(pcm, at, spec.frameLength, spec.preEmphasis, i);
        windowed[i] := emphasized * window[i];
      }
    }

    /** The DFT loops of ComputeFrame for one bin. */
    method PowerAt(windowed: array<real>, k: nat) returns (power: real)
      requires spec.nFft >= 1
      ensures power == Power(maths, windowed[..], spec.nFft, k)
    {
      hide Angle, Magnitude;
      var re, im := 0.0, 0.0;
      var n := 0;
      while n < windowed.Length && n < spec.nFft
        invariant n <= Min(windowed.Length, spec.nFft)
        invariant re == CosSum(maths, windowed[..], spec.nFft, k, n)
        invariant im == SinSum(maths, windowed[..], spec.nFft, k, n)
      {
        var angle := Angle(maths, spec.nFft, k, n);
        re := re + windowed[n] * maths.cos(angle);
        im := im + windowed[n] * maths.sin(angle);
        n := n + 1;
      }
      power := Magnitude(re, im, spec.nFft);
    }

    /** ComputeFrame: one row of log-mel values. */
    method ComputeFrame(pcm: seq<Sample>, at: nat, ghost points: seq<int>) returns (row: seq<Cell>)
      requires Valid(points) && at + spec.frameLength <= |pcm|
      ensures IsRow(maths, pcm, spec, points, at, row)
    {
      hide Power, FirmwareWeight, Windowed, FrameEmphasis, LogCell;
      var windowed := WindowFrame(pcm, at, points);
      ghost var frame := windowed[..];
      var bins := spec.Bins();
      var power := new real[bins];
      for k := 0 to bins
        invariant windowed[..] == frame
        invariant forall j :: 0 <= j < k ==> power[j] == Power(maths, frame, spec.nFft, j)
      {
        power[k] := PowerAt(windowed, k);
      }
      assert power[..] == PowerRow(maths, frame, spec);
      row := [];
      for i := 0 to spec.nMels
        invariant |row| == i
        invariant power[..] == PowerRow(maths, frame, spec)
        invariant forall j :: 0 <= j < i ==> row[j] == FirmwareLogMel(maths, pcm, spec, points, at, j)
      {
        var energy := Num(0.0);
        for k := 0 to bins
          invariant energy == CellEnergy(PowerRow(maths, frame, spec), FirmwareRow(points, spec, i), k)
        {
          assert FirmwareRow(points, spec, i)[k] == filterbank[i, k];
          energy := Plus(energy, Times(power[k], filterbank[i, k]));
        }
        row := row + [LogCell(maths, energy)];
      }
    }

    /** ComputeDct: the first coefficients of the row. */
    method ComputeDct(row: seq<Cell>, ghost pcm: seq<Sample>, ghost at: nat, ghost points: seq<int>)
      returns (mfcc: seq<Cell>)
      requires spec.Valid() && |points| == spec.nMels + 2 && IsRow(maths, pcm, spec, points, at, row)
      ensures mfcc == FrameFeatures(maths, pcm, spec, points, at)
    {
      hide FirmwareAngle, FirmwareScale, FirmwareLogMels;
      var scale := FirmwareScale(maths, spec.nMels);
      mfcc := [];
      for k := 0 to spec.nMfcc
        invariant |mfcc| == k
        invariant forall j :: 0 <= j < k ==> mfcc[j] == FirmwareMfcc(maths, pcm, spec, points, at, j)
      {
        var sum := Num(0.0);
        for n := 0 to spec.nMels
          invariant sum == CellDct(maths, row, k, n)
        {
          var angle := FirmwareAngle(maths, spec.nMels, k, n);
          sum := Plus(sum, Times(maths.cos(angle), row[n]));
        }
        mfcc := mfcc + [Times(scale, sum)];
      }
    }

    /** Compute: refused on a null pointer or a short input, which leaves the output alone;
        otherwise it fills one run of coefficients per hop, and nothing behind the last. */
    method Compute(pcm: array?<Sample>, numSamples: nat, out: array?<Cell>, ghost points: seq<int>)
      returns (ok: bool)
      requires Valid(points)
      requires pcm != null ==> numSamples <= pcm.Length
      requires out != null ==> spec.numFrames * spec.nMfcc <= out.Length
      modifies if out == null then {} else {out}
      ensures ok <==> pcm != null && out != null
                      && numSamples >= spec.frameLength + (spec.numFrames - 1) * spec.hop
      ensures !ok && out != null ==> out[..] == old(out[..])
      ensures ok ==>
                out[..] == FirmwareFeatures(maths, pcm[..numSamples], spec, points, spec.numFrames)
                           + old(out[spec.numFrames * spec.nMfcc..])
    {
      assert FeatureStart(spec, spec.numFrames) == spec.numFrames * spec.nMfcc;
      hide FrameFeatures, FrameStart, FeatureStart, FirmwareFeatures, IsRow;
      if pcm == null || out == null {
        return false;
      }
      if numSamples < spec.Required() {
        return false;
      }
      ghost var samples := pcm[..numSamples];
      NoFeatures(maths, samples, spec, points);
      for t := 0 to spec.numFrames
        invariant Valid(points)
        invariant FeatureStart(spec, t) <= out.Length
        invariant out[..] == FirmwareFeatures(maths, samples, spec, points, t)
                             + old(out[FeatureStart(spec, t)..])
      {
        FrameFits(spec, t);
        FeaturesFit(spec, t, spec.numFrames);
        NextFeatures(maths, samples, spec, points, t);
        var row := ComputeFrame(pcm[..numSamples], FrameStart(spec, t), points);
        var mfcc := ComputeDct(row, samples, FrameStart(spec, t), points);
        CopyInto(mfcc, out, FeatureStart(spec, t));
      }
      return true;
    }
  }

  // ---------------------------------------------------------------- equivalence

  lemma HannStart(m: Maths, length: nat)
    requires length >= 2 && m.cos(0.0) == 1.0
    ensures Hann(m, length, 0) == 0.0
  {
  }

  lemma WholeEmphasisAt(pcm: seq<Sample>, coefficient: real, k: nat)
    requires 1 <= k < |pcm|
    ensures PreEmphasis(Scaled(pcm), coefficient)[k] ==
            pcm[k] as real / 32768.0 - coefficient * (pcm[k - 1] as real / 32768.0)
  {
  }

  lemma PythonFrameAt(pcm: seq<Sample>, spec: Spec, t: nat, i: nat)
    requires spec.Valid() && t < spec.numFrames && |pcm| >= spec.Required() && i < spec.frameLength
    ensures FrameStart(spec, t) + spec.frameLength <= |pcm|
    ensures i > 0 ==>
              Frame(PreEmphasis(Scaled(pcm), spec.preEmphasis), spec, t)[i] ==
              var at := FrameStart(spec, t);
              pcm[at + i] as real / 32768.0 - spec.preEmphasis * (pcm[at + i - 1] as real / 32768.0)
  {
    hide FrameStart, PreEmphasis;
    FrameFits(spec, t);
    var e := PreEmphasis(Scaled(pcm), spec.preEmphasis);
    assert Frame(e, spec, t)[i] == e[FrameStart(spec, t) + i];
    if i > 0 { WholeEmphasisAt(pcm, spec.preEmphasis, FrameStart(spec, t) + i); }
  }

  /** The window is zero at index 0, the only place where restarting the pre-emphasis in each
      frame makes a difference: the windowed frames are identical. */
  lemma WindowedFramesAgree(m: Maths, pcm: seq<Sample>, spec: Spec, t: nat)
    requires m.cos(0.0) == 1.0
    requires spec.Valid() && t < spec.numFrames && |pcm| >= spec.Required()
    ensures FrameStart(spec, t) + spec.frameLength <= |pcm|
    ensures Windowed(m, Frame(PreEmphasis(Scaled(pcm), spec.preEmphasis), spec, t)) ==
            Windowed(m, FrameEmphasis(pcm, FrameStart(spec, t), spec.frameLength, spec.preEmphasis))
  {
    hide PreEmphasis, FrameEmphasis, Frame, Hann, FrameStart;
    FrameFits(spec, t);
    var at, n := FrameStart(spec, t), spec.frameLength;
    var python := Frame(PreEmphasis(Scaled(pcm), spec.preEmphasis), spec, t);
    var firmware := FrameEmphasis(pcm, at, n, spec.preEmphasis);
    HannStart(m, n);
    forall i | 0 <= i < n ensures Windowed(m, python)[i] == Windowed(m, firmware)[i] {
      PythonFrameAt(pcm, spec, t, i);
      EmphasisAt(pcm, at, n, spec.preEmphasis, i);
    }
  }

  lemma {:induction false} EnergiesAgree(p: seq<real>, v: seq<real>, w: seq<Cell>, n: nat)
    requires |p| == |v| == |w| && n <= |p|
    requires forall k :: 0 <= k < n ==> w[k] == Num(v[k])
    ensures CellEnergy(p, w, n) == Num(Energy(p, v, n))
  {
    if n > 0 { EnergiesAgree(p, v, w, n - 1); }
  }

  lemma {:induction false} NaNSpreads(p: seq<real>, w: seq<Cell>, k: nat, n: nat)
    requires |p| == |w| && k < n <= |p| && w[k] == NaN
    ensures CellEnergy(p, w, n) == NaN
  {
    if k < n - 1 { NaNSpreads(p, w, k, n - 1); }
  }

  /** A filter centred on the last bin makes the firmware's value NaN. */
  lemma LastBinCentreIsNaN(m: Maths, pcm: seq<Sample>, spec: Spec, points: seq<int>, at: nat, i: nat)
    requires spec.Valid() && ValidPoints(points, spec) && i < spec.nMels
    requires Center(points[i], points[i + 1]) == spec.Bins() - 1
    requires at + spec.frameLength <= |pcm|
    ensures FirmwareLogMel(m, pcm, spec, points, at, i) == NaN
  {
    hide PowerRow, FirmwareWeight, Windowed, FrameEmphasis, Center;
    FiltersAgree(points[i], points[i + 1], points[i + 2], spec.Bins());
    var frame := Windowed(m, FrameEmphasis(pcm, at, spec.frameLength, spec.preEmphasis));
    NaNSpreads(PowerRow(m, frame, spec), FirmwareRow(points, spec, i), spec.Bins() - 1, spec.Bins());
  }

  /** For every signal with enough samples, a log-mel value of the firmware is Python's number
      if and only if that filter's own adjusted centre is not the last bin; else it is NaN. */
  lemma LogMelAgree(m: Maths, pcm: seq<Sample>, spec: Spec, points: seq<int>, t: nat, i: nat)
    requires m.cos(0.0) == 1.0
    requires spec.Valid() && ValidPoints(points, spec)
    requires t < spec.numFrames && i < spec.nMels && |pcm| >= spec.Required()
    ensures FrameStart(spec, t) + spec.frameLength <= |pcm|
    ensures var firmware := FirmwareLogMel(m, pcm, spec, points, FrameStart(spec, t), i);
            && (firmware == Num(PythonLogMel(m, pcm, spec, points, t, i))
                <==> Center(points[i], points[i + 1]) != spec.Bins() - 1)
            && (firmware == NaN <==> Center(points[i], points[i + 1]) == spec.Bins() - 1)
  {
    hide PowerRow, FirmwareWeight, PythonWeight, Windowed, FrameEmphasis, Frame, PreEmphasis, Center,
         FrameStart;
    WindowedFramesAgree(m, pcm, spec, t);
    if Center(points[i], points[i + 1]) == spec.Bins() - 1 {
      LastBinCentreIsNaN(m, pcm, spec, points, FrameStart(spec, t), i);
    } else {
      var frame := Windowed(m, FrameEmphasis(pcm, FrameStart(spec, t), spec.frameLength, spec.preEmphasis));
      FiltersAgree(points[i], points[i + 1], points[i + 2], spec.Bins());
      EnergiesAgree(PowerRow(m, frame, spec), PythonRow(points, spec, i), FirmwareRow(points, spec, i),
                    spec.Bins());
    }
  }

  // ---------------------------------------------------------------------- MFCC

  /** sqrt is the square root. */
  ghost predicate Roots(m: Maths) {
    forall x :: x >= 0.0 ==> m.sqrt(x) >= 0.0 && m.sqrt(x) * m.sqrt(x) == x
  }

  lemma Halve(x: real, d: real)
    requires d > 0.0
    ensures 2.0 * x / (2.0 * d) == x / d
  {
    assert (x / d) * (2.0 * d) == 2.0 * x;
  }

  lemma AnglesAgree(m: Maths, nMels: nat, k: nat, n: nat)
    requires nMels >= 1
    ensures FirmwareAngle(m, nMels, k, n) == PythonAngle(m, nMels, k, n)
  {
    var (x, d) := (m.pi * k as real, nMels as real);
    assert (k * (2 * n + 1)) as real == k as real * (2.0 * n as real + 1.0);
    assert m.pi * (k as real * (2.0 * n as real + 1.0)) == 2.0 * (x * (n as real + 0.5));
    Halve(x * (n as real + 0.5), d);
  }

  lemma SquareGrows(a: real, b: real)
    requires 0.0 <= a < b
    ensures a * a < b * b
  {
    var d := b - a;
    assert a * d >= 0.0 && d * d > 0.0;
    assert b * b == a * a + 2.0 * (a * d) + d * d;
  }

  lemma SameRoot(a: real, b: real)
    requires a >= 0.0 && b >= 0.0 && a * a == b * b
    ensures a == b
  {
    if a < b { SquareGrows(a, b); }
    if b < a { SquareGrows(b, a); }
  }

  lemma Quarter(d: real)
    requires d > 0.0
    ensures 8.0 * (1.0 / (4.0 * d)) == 2.0 / d
    ensures 4.0 * (1.0 / (2.0 * d)) == 2.0 / d
  {
    Halve(1.0, 2.0 * d);
    Halve(1.0, d);
  }

  lemma SquareOfProduct(f: real, r: real)
    ensures (f * (2.0 * r)) * (f * (2.0 * r)) == 4.0 * (f * f) * (r * r)
  {
  }

  lemma RootScaled(m: Maths, u: real, v: real, factor: real)
    requires Roots(m) && u >= 0.0 && v >= 0.0 && factor >= 0.0
    requires v == 4.0 * (factor * factor) * u
    ensures m.sqrt(v) == factor * (2.0 * m.sqrt(u))
  {
    var root := m.sqrt(u);
    assert root >= 0.0 && root * root == u;
    SquareOfProduct(factor, root);
    SameRoot(m.sqrt(v), factor * (2.0 * root));
  }

  /** The scales are the same except for coefficient 0, where the firmware's is sqrt(2) times
      the orthonormal one. */
  lemma ScalesAgree(m: Maths, nMels: nat, k: nat)
    requires Roots(m) && nMels >= 1
    ensures FirmwareScale(m, nMels) == (if k == 0 then m.sqrt(2.0) else 1.0) * PythonScale(m, nMels, k)
  {
    var d := nMels as real;
    assert (4 * nMels) as real == 4.0 * d && (2 * nMels) as real == 2.0 * d;
    Quarter(d);
    if k == 0 {
      assert m.sqrt(2.0) >= 0.0 && m.sqrt(2.0) * m.sqrt(2.0) == 2.0;
      RootScaled(m, 1.0 / (4.0 * d), 2.0 / d, m.sqrt(2.0));
    } else {
      RootScaled(m, 1.0 / (2.0 * d), 2.0 / d, 1.0);
    }
  }

  lemma {:induction false} DctsAgree(m: Maths, v: seq<real>, w: seq<Cell>, k: nat, n: nat)
    requires |v| == |w| >= 1 && n <= |v|
    requires forall i :: 0 <= i < n ==> w[i] == Num(v[i])
    ensures CellDct(m, w, k, n) == Num(DctSum(m, v, k, n))
  {
    hide FirmwareAngle, PythonAngle;
    if n > 0 {
      DctsAgree(m, v, w, k, n - 1);
      AnglesAgree(m, |v|, k, n - 1);
    }
  }

  lemma {:induction false} NaNSpreadsInDct(m: Maths, w: seq<Cell>, k: nat, i: nat, n: nat)
    requires i < n <= |w| && w[i] == NaN
    ensures CellDct(m, w, k, n) == NaN
  {
    if i < n - 1 { NaNSpreadsInDct(m, w, k, i, n - 1); }
  }

  /** One such filter is enough to make every coefficient of the firmware NaN. */
  lemma LastBinCentreSpreads(m: Maths, pcm: seq<Sample>, spec: Spec, points: seq<int>, at: nat, k: nat)
    requires spec.Valid() && ValidPoints(points, spec) && !NoCentreAtLastBin(points, spec)
    requires at + spec.frameLength <= |pcm|
    ensures FirmwareMfcc(m, pcm, spec, points, at, k) == NaN
  {
    hide FirmwareLogMel, Center;
    var c :| 1 <= c <= spec.nMels && Center(points[c - 1], points[c]) == spec.Bins() - 1;
    LastBinCentreIsNaN(m, pcm, spec, points, at, c - 1);
    NaNSpreadsInDct(m, FirmwareLogMels(m, pcm, spec, points, at), k, c - 1, spec.nMels);
  }

  /** The features, for every signal with enough samples: if no filter is centred on the last
      bin, coefficient k of the firmware is Python's for k >= 1 and sqrt(2) times Python's for
      k = 0; if one is, every coefficient of the firmware is NaN. */
  lemma MfccAgree(m: Maths, pcm: seq<Sample>, spec: Spec, points: seq<int>, t: nat, k: nat)
    requires m.cos(0.0) == 1.0 && Roots(m)
    requires spec.Valid() && ValidPoints(points, spec)
    requires t < spec.numFrames && |pcm| >= spec.Required()
    ensures FrameStart(spec, t) + spec.frameLength <= |pcm|
    ensures FirmwareMfcc(m, pcm, spec, points, FrameStart(spec, t), k) ==
            if NoCentreAtLastBin(points, spec)
            then Num((if k == 0 then m.sqrt(2.0) else 1.0) * PythonMfcc(m, pcm, spec, points, t, k))
            else NaN
  {
    hide FrameStart, FirmwareLogMel, PythonLogMel, Center, FirmwareScale, PythonScale, CellDct, DctSum,
         Roots;
    FrameFits(spec, t);
    var v := PythonLogMels(m, pcm, spec, points, t);
    var w := FirmwareLogMels(m, pcm, spec, points, FrameStart(spec, t));
    if NoCentreAtLastBin(points, spec) {
      forall i | 0 <= i < spec.nMels ensures w[i] == Num(v[i]) {
        assert Center(points[(i + 1) - 1], points[i + 1]) != spec.Bins() - 1;
        LogMelAgree(m, pcm, spec, points, t, i);
      }
      DctsAgree(m, v, w, k, spec.nMels);
      ScalesAgree(m, spec.nMels, k);
    } else {
      LastBinCentreSpreads(m, pcm, spec, points, FrameStart(spec, t), k);
    }
  }

  lemma {:induction false} FeaturesHold(m: Maths, pcm: seq<Sample>, spec: Spec, points: seq<int>, n: nat,
                                        t: nat, k: nat)
    requires spec.Valid() && |points| == spec.nMels + 2
    requires t < n <= spec.numFrames && |pcm| >= spec.Required() && k < spec.nMfcc
    ensures FrameStart(spec, t) + spec.frameLength <= |pcm|
    ensures FeatureStart(spec, t) + k < FeatureStart(spec, n)
    ensures FirmwareFeatures(m, pcm, spec, points, n)[FeatureStart(spec, t) + k] ==
            FirmwareMfcc(m, pcm, spec, points, FrameStart(spec, t), k)
  {
    hide FirmwareMfcc, FrameStart, FeatureStart;
    FrameFits(spec, t);
    FeaturesFit(spec, t, n);
    FeaturesFit(spec, n - 1, n);
    if t < n - 1 { FeaturesHold(m, pcm, spec, points, n - 1, t, k); }
  }

  /** Where Compute puts coefficient k of frame t, and which samples that frame is. */
  lemma FeatureAt(m: Maths, pcm: seq<Sample>, spec: Spec, points: seq<int>, t: nat, k: nat)
    requires spec.Valid() && |points| == spec.nMels + 2
    requires t < spec.numFrames && k < spec.nMfcc
    requires |pcm| >= spec.frameLength + (spec.numFrames - 1) * spec.hop
    ensures t * spec.hop + spec.frameLength <= |pcm|
    ensures |FirmwareFeatures(m, pcm, spec, points, spec.numFrames)| == spec.numFrames * spec.nMfcc
    ensures t * spec.nMfcc + k < spec.numFrames * spec.nMfcc
    ensures FirmwareFeatures(m, pcm, spec, points, spec.numFrames)[t * spec.nMfcc + k] ==
            FirmwareMfcc(m, pcm, spec, points, t * spec.hop, k)
  {
    hide FirmwareFeatures, FirmwareMfcc;
    FeaturesHold(m, pcm, spec, points, spec.numFrames, t, k);
  }

  lemma SameFrame(m: Maths, p: seq<Sample>, q: seq<Sample>, spec: Spec, points: seq<int>,
                  at: nat, k: nat)
    requires spec.Valid() && |points| == spec.nMels + 2
    requires at + spec.frameLength <= |p| && at + spec.frameLength <= |q|
    requires p[at..at + spec.frameLength] == q[at..at + spec.frameLength]
    ensures FirmwareMfcc(m, p, spec, points, at, k) == FirmwareMfcc(m, q, spec, points, at, k)
  {
    hide Windowed, LogCell, PowerRow, FirmwareRow, CellDct, CellEnergy;
    assert FirmwareLogMels(m, p, spec, points, at) == FirmwareLogMels(m, q, spec, points, at);
  }

  /** A frame's coefficients depend on its own samples only. */
  lemma FeaturesLocal(m: Maths, p: seq<Sample>, q: seq<Sample>, spec: Spec, points: seq<int>,
                      t: nat, k: nat, at: nat)
    requires spec.Valid() && |points| == spec.nMels + 2
    requires t < spec.numFrames && k < spec.nMfcc && at == t * spec.hop
    requires |p| >= spec.frameLength + (spec.numFrames - 1) * spec.hop
    requires |q| >= spec.frameLength + (spec.numFrames - 1) * spec.hop
    requires && at + spec.frameLength <= |p| && at + spec.frameLength <= |q|
             && p[at..at + spec.frameLength] == q[at..at + spec.frameLength]
    ensures t * spec.nMfcc + k < spec.numFrames * spec.nMfcc
    ensures |FirmwareFeatures(m, p, spec, points, spec.numFrames)| == spec.numFrames * spec.nMfcc
    ensures |FirmwareFeatures(m, q, spec, points, spec.numFrames)| == spec.numFrames * spec.nMfcc
    ensures FirmwareFeatures(m, p, spec, points, spec.numFrames)[t * spec.nMfcc + k] ==
            FirmwareFeatures(m, q, spec, points, spec.numFrames)[t * spec.nMfcc + k]
  {
    hide FirmwareFeatures, FirmwareMfcc, FeatureStart, FrameStart;
    FeatureAt(m, p, spec, points, t, k);
    FeatureAt(m, q, spec, points, t, k);
    SameFrame(m, p, q, spec, points, at, k);
  }

  // ------------------------------------------------------- the formulas, written out

  function Total(xs: seq<real>): real {
    if xs == [] then 0.0 else Total(xs[..|xs| - 1]) + xs[|xs| - 1]
  }

  lemma TotalExtend(xs: seq<real>, x: real)
    ensures Total(xs + [x]) == Total(xs) + x
  {
    assert (xs + [x])[..|xs|] == xs;
  }

  lemma FirstEmphasis(pcm: seq<Sample>, coefficient: real)
    requires |pcm| > 0
    ensures PreEmphasis(Scaled(pcm), coefficient)[0] == pcm[0] as real / 32768.0
  {
  }

  lemma FittedAt(audio: seq<real>, required: nat, j: nat)
    requires j < required
    ensures Fitted(audio, required)[j] == if j < |audio| then audio[j] else 0.0
  {
  }

  lemma PythonSample(pcm: seq<Sample>, spec: Spec, t: nat, i: nat)
    requires spec.Valid() && t < spec.numFrames && i < spec.frameLength
    ensures var j := t * spec.hop + i;
            Frame(PreEmphasis(Scaled(pcm), spec.preEmphasis), spec, t)[i] ==
            if j >= |pcm| then 0.0
            else if j == 0 then pcm[0] as real / 32768.0
            else pcm[j] as real / 32768.0 - spec.preEmphasis * (pcm[j - 1] as real / 32768.0)
  {
    hide PreEmphasis;
    FrameFits(spec, t);
    var (e, j) := (PreEmphasis(Scaled(pcm), spec.preEmphasis), t * spec.hop + i);
    assert Frame(e, spec, t)[i] == Fitted(e, spec.Required())[j];
    FittedAt(e, spec.Required(), j);
    if 1 <= j < |pcm| { WholeEmphasisAt(pcm, spec.preEmphasis, j); }
    if j == 0 && |pcm| > 0 { FirstEmphasis(pcm, spec.preEmphasis); }
  }

  lemma HannAngleIs(m: Maths, length: nat, i: nat)
    requires length >= 2
    ensures HannAngle(m, length, i) == 2.0 * m.pi * i as real / (length - 1) as real
  {
  }

  /** The window under a frame. */
  lemma WindowedAt(m: Maths, frame: seq<real>, i: nat, angle: real)
    requires |frame| >= 2 && i < |frame|
    requires angle == 2.0 * m.pi * i as real / (|frame| - 1) as real
    ensures Windowed(m, frame)[i] == frame[i] * (0.5 - 0.5 * m.cos(angle))
  {
    HannAngleIs(m, |frame|, i);
    hide HannAngle;
  }

  /** Cell i of Python's windowed frame t, for signals of any length: sample t * hop + i less c
      times the one before it, zero past the end, under the Hann window. */
  lemma PythonCell(m: Maths, pcm: seq<Sample>, spec: Spec, t: nat, i: nat, angle: real)
    requires spec.Valid() && t < spec.numFrames && i < spec.frameLength
    requires angle == 2.0 * m.pi * i as real / (spec.frameLength - 1) as real
    ensures var j := t * spec.hop + i;
            Windowed(m, Frame(PreEmphasis(Scaled(pcm), spec.preEmphasis), spec, t))[i] ==
            (if j >= |pcm| then 0.0
             else if j == 0 then pcm[0] as real / 32768.0
             else pcm[j] as real / 32768.0 - spec.preEmphasis * (pcm[j - 1] as real / 32768.0))
            * (0.5 - 0.5 * m.cos(angle))
  {
    hide Frame, PreEmphasis, Scaled;
    PythonSample(pcm, spec, t, i);
    WindowedAt(m, Frame(PreEmphasis(Scaled(pcm), spec.preEmphasis), spec, t), i, angle);
  }

  /** Cell i of the firmware's windowed frame at a sample. */
  lemma FirmwareCell(m: Maths, pcm: seq<Sample>, spec: Spec, at: nat, i: nat, angle: real)
    requires spec.Valid() && at + spec.frameLength <= |pcm| && i < spec.frameLength
    requires angle == 2.0 * m.pi * i as real / (spec.frameLength - 1) as real
    ensures Windowed(m, FrameEmphasis(pcm, at, spec.frameLength, spec.preEmphasis))[i] ==
            (if i == 0 then pcm[at] as real / 32768.0
             else pcm[at + i] as real / 32768.0
                  - spec.preEmphasis * (pcm[at + i - 1] as real / 32768.0))
            * (0.5 - 0.5 * m.cos(angle))
  {
    hide FrameEmphasis;
    EmphasisAt(pcm, at, spec.frameLength, spec.preEmphasis, i);
    WindowedAt(m, FrameEmphasis(pcm, at, spec.frameLength, spec.preEmphasis), i, angle);
  }

  lemma {:induction false} SumsAreTotals(m: Maths, x: seq<real>, nFft: nat, k: nat, n: nat,
                                         cs: seq<real>, ss: seq<real>)
    requires nFft >= 1 && n <= |x| && |cs| == |ss| == n
    requires forall i :: 0 <= i < n ==> cs[i] == x[i] * m.cos(Angle(m, nFft, k, i))
    requires forall i :: 0 <= i < n ==> ss[i] == x[i] * m.sin(Angle(m, nFft, k, i))
    ensures CosSum(m, x, nFft, k, n) == Total(cs) && SinSum(m, x, nFft, k, n) == Total(ss)
  {
    hide Angle;
    if n > 0 {
      SumsAreTotals(m, x, nFft, k, n - 1, cs[..n - 1], ss[..n - 1]);
    }
  }

  lemma AngleIs(m: Maths, nFft: nat, k: nat, i: nat)
    requires nFft >= 1
    ensures Angle(m, nFft, k, i) == -2.0 * m.pi * (k * i) as real / nFft as real
  {
  }

  lemma TermsAre(m: Maths, x: real, nFft: nat, k: nat, i: nat, c: real, s: real)
    requires nFft >= 1
    requires c == x * m.cos(-2.0 * m.pi * (k * i) as real / nFft as real)
    requires s == x * m.sin(-2.0 * m.pi * (k * i) as real / nFft as real)
    ensures c == x * m.cos(Angle(m, nFft, k, i)) && s == x * m.sin(Angle(m, nFft, k, i))
  {
    hide Angle;
    AngleIs(m, nFft, k, i);
    var angle := -2.0 * m.pi * (k * i) as real / nFft as real;
    assert angle == Angle(m, nFft, k, i);
  }

  lemma SquaredModulus(re: real, im: real, nFft: nat)
    requires nFft >= 1
    ensures Magnitude(re, im, nFft) == (re * re + im * im) / nFft as real
  {
  }

  /** The power of bin k: the squared modulus of the discrete Fourier sum over the first nFft
      samples, whose terms are cs and ss, divided by nFft. */
  lemma PowerWrittenOut(m: Maths, x: seq<real>, nFft: nat, k: nat, cs: seq<real>, ss: seq<real>,
                        re: real, im: real)
    requires re == Total(cs) && im == Total(ss)
    requires nFft >= 1 && |cs| == |ss| == if |x| < nFft then |x| else nFft
    requires forall i :: 0 <= i < |cs| ==>
      cs[i] == x[i] * m.cos(-2.0 * m.pi * (k * i) as real / nFft as real)
    requires forall i :: 0 <= i < |ss| ==>
      ss[i] == x[i] * m.sin(-2.0 * m.pi * (k * i) as real / nFft as real)
    ensures Power(m, x, nFft, k) == (re * re + im * im) / nFft as real
  {
    hide CosSum, SinSum, Angle, Total, Magnitude;
    forall i | 0 <= i < |cs|
      ensures cs[i] == x[i] * m.cos(Angle(m, nFft, k, i)) && ss[i] == x[i] * m.sin(Angle(m, nFft, k, i))
    {
      TermsAre(m, x[i], nFft, k, i, cs[i], ss[i]);
    }
    SumsAreTotals(m, x, nFft, k, |cs|, cs, ss);
    SquaredModulus(re, im, nFft);
  }

  lemma OneOverItself(d: real)
    requires d > 0.0
    ensures d / d == 1.0
  {
  }

  /** The triangle of a filter: zero at its left edge, rising to 1 at its centre, falling to
      zero at its right edge and zero elsewhere, centre and right edge pushed one bin on where
      they do not follow the edge before. */
  lemma TriangleWrittenOut(left: int, center: int, right: int, bins: nat, k: nat)
    requires 0 <= left && k < bins
    ensures var c := if center <= left then left + 1 else center;
            var r := if right <= c then c + 1 else right;
            PythonWeight(left, center, right, bins, k) ==
            if k <= left || k >= r then 0.0
            else if k <= c then (k - left) as real / (c - left) as real
            else (r - k) as real / (r - c) as real
  {
    var c := if center <= left then left + 1 else center;
    var r := if right <= c then c + 1 else right;
    OneOverItself((c - left) as real);
    OneOverItself((r - c) as real);
  }

  lemma {:induction false} EnergyIsTotal(p: seq<real>, w: seq<real>, n: nat, terms: seq<real>)
    requires n <= |p| && n <= |w| && |terms| == n
    requires forall k :: 0 <= k < n ==> terms[k] == p[k] * w[k]
    ensures Energy(p, w, n) == Total(terms)
  {
    if n > 0 { EnergyIsTotal(p, w, n - 1, terms[..n - 1]); }
  }

  /** A log-mel value: the logarithm of the filter's share of the power, at least 1e-10. */
  lemma LogMelWrittenOut(m: Maths, pcm: seq<Sample>, spec: Spec, points: seq<int>, t: nat, i: nat,
                         terms: seq<real>)
    requires spec.Valid() && |points| == spec.nMels + 2 && t < spec.numFrames && i < spec.nMels
    requires |terms| == spec.nFft / 2 + 1
    requires var frame := Windowed(m, Frame(PreEmphasis(Scaled(pcm), spec.preEmphasis), spec, t));
             forall k :: 0 <= k < |terms| ==>
               terms[k] == Power(m, frame, spec.nFft, k)
                           * PythonWeight(points[i], points[i + 1], points[i + 2], |terms|, k)
    ensures PythonLogMel(m, pcm, spec, points, t, i) ==
            m.log(if Total(terms) < 0.0000000001 then 0.0000000001 else Total(terms))
  {
    hide Power, PythonWeight, Windowed, Frame, PreEmphasis, Energy, Total;
    var frame := Windowed(m, Frame(PreEmphasis(Scaled(pcm), spec.preEmphasis), spec, t));
    EnergyIsTotal(PowerRow(m, frame, spec), PythonRow(points, spec, i), |terms|, terms);
  }

  lemma {:induction false} DctIsTotal(m: Maths, row: seq<real>, k: nat, n: nat, terms: seq<real>)
    requires |row| >= 1 && n <= |row| && |terms| == n
    requires forall i :: 0 <= i < n ==> terms[i] == m.cos(PythonAngle(m, |row|, k, i)) * row[i]
    ensures DctSum(m, row, k, n) == Total(terms)
  {
    hide PythonAngle;
    if n > 0 { DctIsTotal(m, row, k, n - 1, terms[..n - 1]); }
  }

  lemma PythonAngleIs(m: Maths, nMels: nat, k: nat, i: nat)
    requires nMels >= 1
    ensures PythonAngle(m, nMels, k, i) == m.pi * (k * (2 * i + 1)) as real / (2 * nMels) as real
  {
  }

  /** A coefficient: the orthonormal DCT of type 2 of the log-mel row. */
  lemma MfccWrittenOut(m: Maths, pcm: seq<Sample>, spec: Spec, points: seq<int>, t: nat, k: nat,
                       terms: seq<real>)
    requires spec.Valid() && |points| == spec.nMels + 2 && t < spec.numFrames
    requires |terms| == spec.nMels
    requires forall i :: 0 <= i < |terms| ==>
      terms[i] == m.cos(m.pi * (k * (2 * i + 1)) as real / (2 * spec.nMels) as real)
                  * PythonLogMel(m, pcm, spec, points, t, i)
    ensures PythonMfcc(m, pcm, spec, points, t, k) ==
            2.0 * m.sqrt(1.0 / (if k == 0 then 4 * spec.nMels else 2 * spec.nMels) as real) * Total(terms)
  {
    hide PythonLogMel, DctSum, Total, PythonAngle;
    var row := PythonLogMels(m, pcm, spec, points, t);
    forall i | 0 <= i < |terms| ensures terms[i] == m.cos(PythonAngle(m, |row|, k, i)) * row[i] {
      PythonAngleIs(m, |row|, k, i);
    }
    DctIsTotal(m, row, k, spec.nMels, terms);
  }

  // ----------------------------------------------------------- shipped constants

  /** The bin points of the shipped constants: 300 to 8000 Hz at 16 kHz. */
  const SHIPPED_POINTS: seq<int> :=
    [4, 5, 6, 7, 8, 9, 10, 11, 13, 14, 15, 17, 19, 20, 22, 24, 26, 28, 30, 32, 34, 37, 40, 42, 45, 48,
     52, 55, 59, 62, 66, 71, 75, 80, 85, 90, 96, 101, 108, 114, 121, 128]

  lemma ShippedPoint(i: nat)
    requires i <= SHIPPED.nMels
    ensures |SHIPPED_POINTS| == SHIPPED.nMels + 2
    ensures 0 <= SHIPPED_POINTS[i] < SHIPPED_POINTS[i + 1] < SHIPPED.Bins()
  {
  }

  /** With the shipped constants no filter is centred on the last bin. */
  lemma ShippedPointsFit()
    ensures SHIPPED.Valid() && ValidPoints(SHIPPED_POINTS, SHIPPED)
    ensures SHIPPED.Required() == 16192 && SHIPPED.Bins() == 129 && SHIPPED.nMfcc == 13
    ensures SHIPPED.frameLength == 512 && SHIPPED.hop == 320 && SHIPPED.preEmphasis == 0.98
    ensures NoCentreAtLastBin(SHIPPED_POINTS, SHIPPED)
  {
    hide SHIPPED_POINTS;
    ShippedPoint(0);
    forall i | 0 <= i < |SHIPPED_POINTS| ensures 0 <= SHIPPED_POINTS[i] < SHIPPED.Bins() {
      ShippedPoint(if i == 0 then 0 else i - 1);
    }
    forall m | 1 <= m <= SHIPPED.nMels
      ensures Center(SHIPPED_POINTS[m - 1], SHIPPED_POINTS[m]) != SHIPPED.Bins() - 1
    {
      ShippedPoint(m - 1);
      ShippedPoint(m);
    }
  }

  /** The bin points of the same constants with a 16-point FFT. */
  const COARSE := SHIPPED.(nFft := 16)

  const COARSE_POINTS: seq<int> :=
    [0, 0, 0, 0, 0, 0, 0, 0, 0, 0, 1, 1, 1, 1, 1, 1, 1, 1, 2, 2, 2, 2, 2, 2, 3, 3, 3, 3, 3, 4, 4, 4, 5,
     5, 5, 5, 6, 6, 7, 7, 8, 8]

  /** Their last filter is centred on the last bin: the firmware's features are all NaN. */
  lemma CoarseFeaturesAreNaN(m: Maths, pcm: seq<Sample>, at: nat, k: nat)
    requires at + COARSE.frameLength <= |pcm|
    ensures FirmwareMfcc(m, pcm, COARSE, COARSE_POINTS, at, k) == NaN
  {
    hide FirmwareMfcc;
    assert ValidPoints(COARSE_POINTS, COARSE);
    assert Center(COARSE_POINTS[40 - 1], COARSE_POINTS[40]) == COARSE.Bins() - 1;
    LastBinCentreSpreads(m, pcm, COARSE, COARSE_POINTS, at, k);
  }
}
