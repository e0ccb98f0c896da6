/** The INT8 affine quantiser of the evaluation script (ml/quantization/evaluate_quantized.py)
    over the reals. */
module Quantizer {
  import opened Words

  type Int8 = x: int | -128 <= x <= 127

  /** np.round: to the nearest integer, halves to the even one. */
  function RoundHalfEven(x: real): int {
    var (f, d) := (x.Floor, x - x.Floor as real);
    if d < 0.5 then f
    else if d > 0.5 then f + 1
    else if f % 2 == 0 then f else f + 1
  }

  function Clip(q: int): Int8 {
    Max(-128, Min(127, q))
  }

  function Quantize(x: real, scale: real, zeroPoint: int): Int8
    requires scale > 0.0
  {
    Clip(RoundHalfEven(x / scale + zeroPoint as real))
  }

  /** quantize_input: a scale that is not positive is refused. */
  function QuantizeInput(xs: seq<real>, scale: real, zeroPoint: int): Option<seq<Int8>> {
    if scale <= 0.0 then None
    else Some(seq(|xs|, i requires 0 <= i < |xs| => Quantize(xs[i], scale, zeroPoint)))
  }

  function Dequantize(q: int, scale: real, zeroPoint: int): real {
    (q - zeroPoint) as real * scale
  }

  function DequantizeOutput(qs: seq<Int8>, scale: real, zeroPoint: int): (r: seq<real>)
    ensures |r| == |qs|
  {
    seq(|qs|, i requires 0 <= i < |qs| => Dequantize(qs[i], scale, zeroPoint))
  }

  function Abs(x: real): real {
    if x < 0.0 then -x else x
  }

  lemma RoundNear(x: real)
    ensures Abs(RoundHalfEven(x) as real - x) <= 0.5
  {
  }

  /** Rounding picks a nearest integer. */
  lemma RoundNearest(x: real, k: int)
    ensures Abs(RoundHalfEven(x) as real - x) <= Abs(k as real - x)
  {
    hide RoundHalfEven;
    RoundNear(x);
    var r := RoundHalfEven(x);
    if k < r { assert k as real + 1.0 <= r as real; }
    if k > r { assert k as real - 1.0 >= r as real; }
  }

  lemma RoundMonotone(x: real, y: real)
    requires x <= y
    ensures RoundHalfEven(x) <= RoundHalfEven(y)
  {
  }

  lemma ScaleMonotone(a: real, b: real, s: real)
    requires a <= b && s >= 0.0
    ensures a * s <= b * s
  {
    assert (b - a) * s >= 0.0;
  }

  lemma ScaleStrict(a: real, b: real, s: real)
    requires a < b && s > 0.0
    ensures a * s < b * s
  {
    assert (b - a) * s > 0.0;
  }

  lemma Rescale(x: real, s: real)
    requires s > 0.0
    ensures x / s * s == x
  {
  }

  /** Distances scale with the step: from x to a value q stands for. */
  lemma DequantizeDistance(x: real, q: int, scale: real, zeroPoint: int)
    requires scale > 0.0
    ensures Dequantize(q, scale, zeroPoint) - x == (q as real - (x / scale + zeroPoint as real)) * scale
    ensures Abs(Dequantize(q, scale, zeroPoint) - x) ==
            Abs(q as real - (x / scale + zeroPoint as real)) * scale
  {
    Rescale(x, scale);
    var d := q as real - (x / scale + zeroPoint as real);
    assert (q - zeroPoint) as real == q as real - zeroPoint as real;
    assert d * scale == (q as real - zeroPoint as real) * scale - x / scale * scale;
    if d < 0.0 { ScaleStrict(d, 0.0, scale); } else { ScaleMonotone(0.0, d, scale); }
  }

  lemma DivMonotone(x: real, y: real, s: real)
    requires s > 0.0 && x <= y
    ensures x / s <= y / s
  {
    var a, b := x / s, y / s;
    Rescale(x, s);
    Rescale(y, s);
    if b < a {
      ScaleStrict(b, a, s);
      assert false;
    }
  }

  lemma QuantizeMonotone(x: real, y: real, scale: real, zeroPoint: int)
    requires scale > 0.0 && x <= y
    ensures Quantize(x, scale, zeroPoint) <= Quantize(y, scale, zeroPoint)
  {
    hide RoundHalfEven;
    DivMonotone(x, y, scale);
    RoundMonotone(x / scale + zeroPoint as real, y / scale + zeroPoint as real);
  }

  lemma RangeEnds(u: real)
    ensures u > 127.0 ==> Clip(RoundHalfEven(u)) == 127
    ensures u < -128.0 ==> Clip(RoundHalfEven(u)) == -128
    ensures -128.0 <= u <= 127.0 ==>
              Clip(RoundHalfEven(u)) == RoundHalfEven(u) && Abs(RoundHalfEven(u) as real - u) <= 0.5
  {
    hide RoundHalfEven;
    RoundNear(u);
    var r := RoundHalfEven(u);
    if r >= 128 { assert r as real >= 128.0; }
    if r <= -129 { assert r as real <= -129.0; }
    if r <= 126 { assert r as real <= 126.0; }
    if r >= -127 { assert r as real >= -127.0; }
  }

  lemma ClipNearest(u: real, k: Int8)
    ensures Abs(Clip(RoundHalfEven(u)) as real - u) <= Abs(k as real - u)
  {
    hide RoundHalfEven, Clip;
    RoundNearest(u, k);
    RangeEnds(u);
    assert -128.0 <= k as real <= 127.0;
  }

  /** No int8 value stands for a real closer to x than the one x is quantised to: within half
      a step when x is in the representable range, the nearer end of the range when not. */
  lemma QuantizeIsNearest(x: real, k: Int8, scale: real, zeroPoint: int)
    requires scale > 0.0
    ensures Abs(Dequantize(Quantize(x, scale, zeroPoint), scale, zeroPoint) - x)
            <= Abs(Dequantize(k, scale, zeroPoint) - x)
  {
    hide RoundHalfEven, Clip, Dequantize, Abs;
    var q, u := Quantize(x, scale, zeroPoint), x / scale + zeroPoint as real;
    DequantizeDistance(x, q, scale, zeroPoint);
    DequantizeDistance(x, k, scale, zeroPoint);
    ClipNearest(u, k);
    ScaleMonotone(Abs(q as real - u), Abs(k as real - u), scale);
  }

  lemma Sign(d: real, s: real)
    requires s > 0.0
    ensures d * s > 0.0 <==> d > 0.0
    ensures d * s < 0.0 <==> d < 0.0
  {
  }

  /** Which side of a representable value x lies on, in steps. */
  lemma Side(x: real, k: int, scale: real, zeroPoint: int)
    requires scale > 0.0
    ensures x < Dequantize(k, scale, zeroPoint) <==> x / scale + zeroPoint as real < k as real
    ensures x > Dequantize(k, scale, zeroPoint) <==> x / scale + zeroPoint as real > k as real
  {
    hide Dequantize;
    DequantizeDistance(x, k, scale, zeroPoint);
    Sign(k as real - (x / scale + zeroPoint as real), scale);
  }

  /** Where x lies decides the error: half a step inside the range, saturation outside. */
  lemma QuantizeError(x: real, scale: real, zeroPoint: int)
    requires scale > 0.0
    ensures Dequantize(-128, scale, zeroPoint) <= x <= Dequantize(127, scale, zeroPoint) ==>
              Abs(Dequantize(Quantize(x, scale, zeroPoint), scale, zeroPoint) - x) <= scale / 2.0
    ensures x > Dequantize(127, scale, zeroPoint) ==> Quantize(x, scale, zeroPoint) == 127
    ensures x < Dequantize(-128, scale, zeroPoint) ==> Quantize(x, scale, zeroPoint) == -128
  {
    hide RoundHalfEven, Clip, Dequantize, Abs;
    var q, u := Quantize(x, scale, zeroPoint), x / scale + zeroPoint as real;
    Side(x, 127, scale, zeroPoint);
    Side(x, -128, scale, zeroPoint);
    RangeEnds(u);
    DequantizeDistance(x, q, scale, zeroPoint);
    if -128.0 <= u <= 127.0 {
      ScaleMonotone(Abs(q as real - u), 0.5, scale);
    }
  }

  lemma RoundExact(k: int)
    ensures RoundHalfEven(k as real) == k
  {
  }

  /** Every int8 value survives the round trip. */
  lemma DequantizeQuantize(k: Int8, scale: real, zeroPoint: int)
    requires scale > 0.0
    ensures Quantize(Dequantize(k, scale, zeroPoint), scale, zeroPoint) == k
  {
    hide RoundHalfEven, Dequantize;
    Rescale(Dequantize(k, scale, zeroPoint), scale);
    Side(Dequantize(k, scale, zeroPoint), k, scale, zeroPoint);
    RoundExact(k);
  }

  /** The distance from x of the real that q stands for. */
  function Distance(q: int, x: real, scale: real, zeroPoint: int): real {
    Abs((q - zeroPoint) as real * scale - x)
  }

  lemma NearSame(u: real, k: int, r: int)
    requires Abs(k as real - u) < 0.5 && Abs(r as real - u) < 0.5
    ensures k == r
  {
    assert -1.0 < k as real - r as real < 1.0;
  }

  lemma TieIsEven(u: real, k: int)
    requires k != RoundHalfEven(u) && Abs(k as real - u) == Abs(RoundHalfEven(u) as real - u)
    ensures RoundHalfEven(u) % 2 == 0
  {
    RoundNear(u);
    if Abs(RoundHalfEven(u) as real - u) < 0.5 {
      NearSame(u, k, RoundHalfEven(u));
      assert false;
    }
  }

  lemma ClippedTieIsEven(u: real, k: Int8)
    requires k != Clip(RoundHalfEven(u)) && Abs(k as real - u) == Abs(Clip(RoundHalfEven(u)) as real - u)
    ensures Clip(RoundHalfEven(u)) % 2 == 0
  {
    hide RoundHalfEven;
    RoundNear(u);
    RangeEnds(u);
    if RoundHalfEven(u) == Clip(RoundHalfEven(u)) { TieIsEven(u, k); }
  }

  /** q is an int8 value nearest to x, and an even one if it shares that with another. */
  ghost predicate IsQuantized(q: Int8, x: real, scale: real, zeroPoint: int) {
    forall k: Int8 ::
      && Distance(q, x, scale, zeroPoint) <= Distance(k, x, scale, zeroPoint)
      && (k != q && Distance(k, x, scale, zeroPoint) == Distance(q, x, scale, zeroPoint) ==> q % 2 == 0)
  }

  lemma QuantizeMeaning(x: real, scale: real, zeroPoint: int)
    requires scale > 0.0
    ensures IsQuantized(Quantize(x, scale, zeroPoint), x, scale, zeroPoint)
  {
    hide RoundHalfEven, Clip, Abs;
    var q, u := Quantize(x, scale, zeroPoint), x / scale + zeroPoint as real;
    forall k: Int8
      ensures Distance(q, x, scale, zeroPoint) <= Distance(k, x, scale, zeroPoint)
      ensures k != q && Distance(k, x, scale, zeroPoint) == Distance(q, x, scale, zeroPoint) ==> q % 2 == 0
    {
      QuantizeIsNearest(x, k, scale, zeroPoint);
      DequantizeDistance(x, q, scale, zeroPoint);
      DequantizeDistance(x, k, scale, zeroPoint);
      if k != q && Distance(k, x, scale, zeroPoint) == Distance(q, x, scale, zeroPoint) {
        var a, b := Abs(k as real - u), Abs(q as real - u);
        if a < b { ScaleStrict(a, b, scale); }
        if b < a { ScaleStrict(b, a, scale); }
        ClippedTieIsEven(u, k);
      }
    }
  }

  lemma EvenApart(p: int, q: int)
    requires p % 2 == 0 && q % 2 == 0 && p < q
    ensures p + 1 < q
  {
  }

  lemma DistanceInSteps(q: int, x: real, scale: real, zeroPoint: int)
    requires scale > 0.0
    ensures Distance(q, x, scale, zeroPoint) == Abs(q as real - (x / scale + zeroPoint as real)) * scale
  {
    DequantizeDistance(x, q, scale, zeroPoint);
  }

  /** Two integers at the same distance from u have the ones between them nearer. */
  lemma Between(p: int, q: int, u: real)
    requires p + 1 < q && Abs(p as real - u) == Abs(q as real - u)
    ensures Abs((p + 1) as real - u) < Abs(p as real - u)
  {
    assert p as real + 2.0 <= q as real;
  }

  lemma QuantizedOrdered(p: Int8, q: Int8, x: real, scale: real, zeroPoint: int)
    requires scale > 0.0 && IsQuantized(p, x, scale, zeroPoint) && IsQuantized(q, x, scale, zeroPoint)
    ensures p >= q
  {
    hide Abs;
    if p < q {
      var u := x / scale + zeroPoint as real;
      var m: Int8 := p + 1;
      var (dp, dq, dm) := (Distance(p, x, scale, zeroPoint), Distance(q, x, scale, zeroPoint),
                           Distance(m, x, scale, zeroPoint));
      assert dp == dq && dp <= dm;
      EvenApart(p, q);
      DistanceInSteps(p, x, scale, zeroPoint);
      DistanceInSteps(q, x, scale, zeroPoint);
      DistanceInSteps(m, x, scale, zeroPoint);
      var (a, b, c) := (Abs(p as real - u), Abs(q as real - u), Abs(m as real - u));
      if c < a { ScaleStrict(c, a, scale); }
      if a < b { ScaleStrict(a, b, scale); }
      if b < a { ScaleStrict(b, a, scale); }
      Between(p, q, u);
      assert false;
    }
  }

  /** That pins the value down. */
  lemma QuantizedUnique(p: Int8, q: Int8, x: real, scale: real, zeroPoint: int)
    requires scale > 0.0 && IsQuantized(p, x, scale, zeroPoint) && IsQuantized(q, x, scale, zeroPoint)
    ensures p == q
  {
    hide Abs;
    QuantizedOrdered(p, q, x, scale, zeroPoint);
    QuantizedOrdered(q, p, x, scale, zeroPoint);
  }

  /** quantize_input, cell by cell. */
  ghost predicate IsTensor(qs: seq<Int8>, xs: seq<real>, scale: real, zeroPoint: int) {
    |qs| == |xs| && forall i :: 0 <= i < |xs| ==> IsQuantized(qs[i], xs[i], scale, zeroPoint)
  }

  /** The whole input: refused for a scale that is not positive, otherwise every cell is
      quantised where it stands, and no other tensor is like that. */
  lemma QuantizeInputMeaning(xs: seq<real>, scale: real, zeroPoint: int)
    ensures QuantizeInput(xs, scale, zeroPoint).None? <==> scale <= 0.0
    ensures scale > 0.0 ==>
              && IsTensor(QuantizeInput(xs, scale, zeroPoint).value, xs, scale, zeroPoint)
              && forall qs: seq<Int8> :: IsTensor(qs, xs, scale, zeroPoint) ==>
                   qs == QuantizeInput(xs, scale, zeroPoint).value
  {
    hide Quantize, IsQuantized;
    if scale > 0.0 {
      var tensor := QuantizeInput(xs, scale, zeroPoint).value;
      forall i | 0 <= i < |xs| ensures IsQuantized(tensor[i], xs[i], scale, zeroPoint) {
        QuantizeMeaning(xs[i], scale, zeroPoint);
      }
      forall qs: seq<Int8> | IsTensor(qs, xs, scale, zeroPoint) ensures qs == tensor {
        forall i | 0 <= i < |xs| ensures qs[i] == tensor[i] {
          QuantizedUnique(qs[i], tensor[i], xs[i], scale, zeroPoint);
        }
      }
    }
  }

  /** m is the first index of a largest element. */
  ghost predicate IsArgmax(xs: seq<real>, m: nat) {
    && m < |xs|
    && (forall i :: 0 <= i < |xs| ==> xs[i] <= xs[m])
    && (forall i :: 0 <= i < m ==> xs[i] < xs[m])
  }

  ghost predicate IsIntArgmax(qs: seq<Int8>, m: nat) {
    && m < |qs|
    && (forall i :: 0 <= i < |qs| ==> qs[i] <= qs[m])
    && (forall i :: 0 <= i < m ==> qs[i] < qs[m])
  }

  /** The class predicted from the dequantised scores is the class of the raw ones, the first
      of equals included. */
  lemma ArgmaxOfDequantized(qs: seq<Int8>, scale: real, zeroPoint: int, m: nat)
    requires scale > 0.0
    ensures IsArgmax(DequantizeOutput(qs, scale, zeroPoint), m) <==> IsIntArgmax(qs, m)
  {
    var xs := DequantizeOutput(qs, scale, zeroPoint);
    if m < |qs| {
      forall i | 0 <= i < |qs|
        ensures xs[i] <= xs[m] <==> qs[i] <= qs[m]
        ensures xs[i] < xs[m] <==> qs[i] < qs[m]
      {
        var a, b := (qs[i] - zeroPoint) as real, (qs[m] - zeroPoint) as real;
        if a < b { ScaleStrict(a, b, scale); }
        if b < a { ScaleStrict(b, a, scale); }
      }
    }
  }

  /** np.argmax */
  method Argmax(xs: seq<real>) returns (m: nat)
    requires xs != []
    ensures IsArgmax(xs, m)
  {
    m := 0;
    for i := 1 to |xs|
      invariant IsArgmax(xs[..i], m)
    {
      if xs[i] > xs[m] { m := i; }
    }
    assert xs[..|xs|] == xs;
  }

  /** m is the first index of a largest score, the scores being written out. */
  ghost predicate Predicts(output: seq<Int8>, scale: real, zeroPoint: int, m: nat) {
    && m < |output|
    && (forall i :: 0 <= i < |output| ==>
        (output[i] - zeroPoint) as real * scale <= (output[m] - zeroPoint) as real * scale)
    && (forall i :: 0 <= i < m ==>
        (output[i] - zeroPoint) as real * scale < (output[m] - zeroPoint) as real * scale)
  }

  /** m is predicted for the sample: the interpreter was run on its quantised tensor, whichever
      way that is described, and m is the first of the largest scores; with a positive scale,
      of the raw ones. */
  ghost predicate IsPrediction(sample: seq<real>, inputScale: real, inputZero: int, outputScale: real,
                               outputZero: int, invoke: seq<Int8> -> seq<Int8>, m: nat)
  {
    exists qs: seq<Int8> ::
      && IsTensor(qs, sample, inputScale, inputZero)
      && Predicts(invoke(qs), outputScale, outputZero, m)
      && (outputScale > 0.0 ==> IsIntArgmax(invoke(qs), m))
  }

  lemma PredictionHolds(sample: seq<real>, inputScale: real, inputZero: int, outputScale: real,
                        outputZero: int, invoke: seq<Int8> -> seq<Int8>, m: nat)
    requires inputScale > 0.0 && QuantizeInput(sample, inputScale, inputZero).Some?
    requires var output := invoke(QuantizeInput(sample, inputScale, inputZero).value);
             IsArgmax(DequantizeOutput(output, outputScale, outputZero), m)
    ensures IsPrediction(sample, inputScale, inputZero, outputScale, outputZero, invoke, m)
  {
    hide QuantizeInput, IsTensor;
    var qs := QuantizeInput(sample, inputScale, inputZero).value;
    var output := invoke(qs);
    var scores := DequantizeOutput(output, outputScale, outputZero);
    QuantizeInputMeaning(sample, inputScale, inputZero);
    forall i | 0 <= i < |output| ensures scores[i] == (output[i] - outputZero) as real * outputScale {}
    if outputScale > 0.0 { ArgmaxOfDequantized(output, outputScale, outputZero, m); }
    assert Predicts(output, outputScale, outputZero, m);
  }

  /** evaluate_tflite; invoke is the interpreter. None is the refusal of the input scale. */
  method EvaluateTflite(samples: seq<seq<real>>, inputScale: real, inputZero: int,
                        outputScale: real, outputZero: int, invoke: seq<Int8> -> seq<Int8>)
    returns (predictions: Option<seq<nat>>)
    requires forall q :: invoke(q) != []
    ensures predictions.None? <==> inputScale <= 0.0
    ensures predictions.Some? ==>
              && |predictions.value| == |samples|
              && forall i :: 0 <= i < |samples| ==>
                   IsPrediction(samples[i], inputScale, inputZero, outputScale, outputZero, invoke,
                                predictions.value[i])
  {
    hide QuantizeInput, DequantizeOutput, IsPrediction, IsArgmax;
    QuantizeInputMeaning([], inputScale, inputZero);
    if inputScale <= 0.0 {
      return None;
    }
    var made := [];
    for i := 0 to |samples|
      invariant |made| == i
      invariant forall k :: 0 <= k < i ==>
        IsPrediction(samples[k], inputScale, inputZero, outputScale, outputZero, invoke, made[k])
    {
      QuantizeInputMeaning(samples[i], inputScale, inputZero);
      var output := invoke(QuantizeInput(samples[i], inputScale, inputZero).value);
      var best := Argmax(DequantizeOutput(output, outputScale, outputZero));
      PredictionHolds(samples[i], inputScale, inputZero, outputScale, outputZero, invoke, best);
      made := made + [best];
    }
    return Some(made);
  }
}
