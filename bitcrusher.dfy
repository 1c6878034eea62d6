/** The bitcrusher audio-worklet kernel: every `sampleRateReduction`-th input
    sample is quantised to a grid of spacing `0.5^bitDepth`, and the samples in
    between repeat the output sample written just before them (sample-and-hold).

    Samples are exact reals; the host's IEEE-754 arithmetic is not modelled. */
module Bitcrusher {

  // ---------------------------------------------------------------------------
  // Parameter descriptors (the static `parameterDescriptors` getter)
  // ---------------------------------------------------------------------------

  const MinBitDepth: nat := 1
  const MaxBitDepth: nat := 16
  const DefaultBitDepth: nat := 8

  const MinSampleRateReduction: nat := 1
  const MaxSampleRateReduction: nat := 16
  const DefaultSampleRateReduction: nat := 4

  /** One automatable parameter the processor declares to the host. */
  datatype ParameterDescriptor = ParameterDescriptor(name: string, defaultValue: nat, minValue: nat, maxValue: nat)

  /** The two parameters, in declaration order; each default lies in its range. */
  function ParameterDescriptors(): (ds: seq<ParameterDescriptor>)
    ensures |ds| == 2
    ensures ds[0].name == "bitDepth" && ds[1].name == "sampleRateReduction"
    ensures forall d :: d in ds ==> 1 <= d.minValue <= d.defaultValue <= d.maxValue
  {
    [ ParameterDescriptor("bitDepth", DefaultBitDepth, MinBitDepth, MaxBitDepth),
      ParameterDescriptor("sampleRateReduction", DefaultSampleRateReduction, MinSampleRateReduction, MaxSampleRateReduction) ]
  }

  // ---------------------------------------------------------------------------
  // Quantisation
  // ---------------------------------------------------------------------------

  /** 2^n as an integer; only used to say what `Step` is. */
  function Pow2(n: nat): nat
  {
    if n == 0 then 1 else 2 * Pow2(n - 1)
  }

  /** The quantisation step `0.5^bitDepth`. */
  function Step(bitDepth: nat): (step: real)
    ensures 0.0 < step <= 1.0
    ensures bitDepth >= 1 ==> step <= 0.5
  {
    if bitDepth == 0 then 1.0 else 0.5 * Step(bitDepth - 1)
  }

  /** `0.5^bitDepth` is exactly the reciprocal of `2^bitDepth`. */
  lemma {:induction false} StepIsReciprocalOfPow2(bitDepth: nat)
    ensures Step(bitDepth) * (Pow2(bitDepth) as real) == 1.0
  {
    if bitDepth > 0 {
      StepIsReciprocalOfPow2(bitDepth - 1);
      calc {
        Step(bitDepth) * (Pow2(bitDepth) as real);
        (0.5 * Step(bitDepth - 1)) * (2.0 * (Pow2(bitDepth - 1) as real));
        Step(bitDepth - 1) * (Pow2(bitDepth - 1) as real);
      }
    }
  }

  /** The grid index chosen for `x`: `floor(x / step + 0.5)`. */
  function Level(x: real, step: real): int
    requires step > 0.0
  {
    (x / step + 0.5).Floor
  }

  /** `step * floor(x / step + 0.5)`: the grid point nearest to `x`, ties rounded
      upwards. The result lies in the half-open window (x - step/2, x + step/2]
      around the input. */
  function Quantise(x: real, step: real): (q: real)
    requires step > 0.0
    ensures q == (Level(x, step) as real) * step
    ensures -step / 2.0 < q - x <= step / 2.0
  {
    var k := Level(x, step);
    var d := (k as real) - x / step;
    assert -0.5 < d <= 0.5;
    assert (x / step) * step == x;
    assert (k as real) * step - x == d * step;
    assert (d + 0.5) * step > 0.0;
    assert (0.5 - d) * step >= 0.0;
    (k as real) * step
  }

  /** A value already on the grid is returned unchanged. */
  lemma QuantiseOnGrid(k: int, step: real)
    requires step > 0.0
    ensures Quantise((k as real) * step, step) == (k as real) * step
  {
    var x := (k as real) * step;
    assert x / step == k as real;
    assert Level(x, step) == k;
  }

  /** Quantising twice is the same as quantising once. */
  lemma QuantiseIdempotent(x: real, step: real)
    requires step > 0.0
    ensures Quantise(Quantise(x, step), step) == Quantise(x, step)
  {
    var k := Level(x, step);
    assert Quantise(x, step) == (k as real) * step;
    QuantiseOnGrid(k, step);
  }

  /** Quantisation never reverses the order of two samples. */
  lemma QuantiseMonotone(x: real, y: real, step: real)
    requires step > 0.0 && x <= y
    ensures Quantise(x, step) <= Quantise(y, step)
  {
    assert x / step <= y / step by {
      assert y / step - x / step == (y - x) / step;
    }
    var kx, ky := Level(x, step), Level(y, step);
    assert kx <= ky;
    assert ((ky - kx) as real) * step >= 0.0;
    assert (ky as real) * step - (kx as real) * step == ((ky - kx) as real) * step;
  }

  /** The floor-based rounding sends an exact half step up, on both sides of
      zero: -step/2 goes to 0 (not to -step, as rounding away from zero would). */
  lemma QuantiseHalfStepRoundsUp(step: real)
    requires step > 0.0
    ensures Quantise(step / 2.0, step) == step
    ensures Quantise(-step / 2.0, step) == 0.0
  {
    assert (step / 2.0) / step == 0.5;
    assert Level(step / 2.0, step) == 1;
    assert (-step / 2.0) / step == -0.5;
    assert Level(-step / 2.0, step) == 0;
  }

  // ---------------------------------------------------------------------------
  // Sample-and-hold over one channel
  // ---------------------------------------------------------------------------

  /** The output the kernel writes for input `xs`, defined the way the loop
      computes it: the last sample is quantised when its index is a multiple of
      `r` and otherwise repeats the output sample just before it. Index 0 is
      always a multiple of `r`, so the hold never reaches before the start. */
  function Crushed(xs: seq<real>, step: real, r: nat): (ys: seq<real>)
    requires step > 0.0 && r >= 1
    ensures |ys| == |xs|
    decreases |xs|
  {
    if xs == [] then []
    else
      var i := |xs| - 1;
      var held := Crushed(xs[..i], step, r);
      held + [if i % r == 0 then Quantise(xs[i], step) else held[i - 1]]
  }

  /** The first index of the hold group that contains `i`. */
  function GroupStart(i: nat, r: nat): (g: nat)
    requires r >= 1
    ensures g <= i && g % r == 0 && g / r == i / r
  {
    var g := i - i % r;
    assert g == (i / r) * r;
    DivModUnique(g, r, i / r, 0);
    g
  }

  /** Euclidean division is determined by quotient and remainder. */
  lemma DivModUnique(n: int, r: int, q: int, m: int)
    requires r > 0 && 0 <= m < r && n == q * r + m
    ensures n / r == q && n % r == m
  {
    var d := q - n / r;
    assert d * r == n % r - m;
    MulGrows(d, r);
  }

  /** A non-zero multiple of a positive `r` is at least `r` away from zero. */
  lemma {:induction false} MulGrows(a: int, r: int)
    requires r > 0
    ensures a >= 1 ==> a * r >= r
    ensures a <= -1 ==> a * r <= -r
    decreases if a < 0 then -a else a
  {
    if a > 1 {
      MulGrows(a - 1, r);
      assert a * r == (a - 1) * r + r;
    } else if a < -1 {
      MulGrows(a + 1, r);
      assert a * r == (a + 1) * r - r;
    }
  }

  /** Closed form of `Crushed`: every output sample is the quantised input sample
      at the start of its hold group. */
  lemma {:induction false} CrushedAt(xs: seq<real>, step: real, r: nat, i: nat)
    requires step > 0.0 && r >= 1 && i < |xs|
    ensures Crushed(xs, step, r)[i] == Quantise(xs[GroupStart(i, r)], step)
    decreases |xs|
  {
    var n := |xs| - 1;
    var prefix := xs[..n];
    if i < n {
      CrushedAt(prefix, step, r, i);
    } else if i % r != 0 {
      CrushedAt(prefix, step, r, i - 1);
      DivModUnique(i - 1, r, i / r, i % r - 1);
    }
  }

  /** Samples in the same hold group `[k*r, k*r + r)` are equal. */
  lemma CrushedGroupConstant(xs: seq<real>, step: real, r: nat, k: nat, i: nat, j: nat)
    requires step > 0.0 && r >= 1
    requires k * r <= i < k * r + r && k * r <= j < k * r + r
    requires i < |xs| && j < |xs|
    ensures Crushed(xs, step, r)[i] == Crushed(xs, step, r)[j]
  {
    CrushedAt(xs, step, r, i);
    CrushedAt(xs, step, r, j);
    DivModUnique(i, r, k, i - k * r);
    DivModUnique(j, r, k, j - k * r);
  }

  /** With no sample-rate reduction nothing is held: each output sample is the
      quantised input sample at the same index. */
  lemma CrushedWithoutReduction(xs: seq<real>, step: real, i: nat)
    requires step > 0.0 && i < |xs|
    ensures Crushed(xs, step, 1)[i] == Quantise(xs[i], step)
  {
    CrushedAt(xs, step, 1, i);
  }

  /** Every output sample is on the quantisation grid, and a sample at the start
      of a hold group is within half a step of its input. */
  lemma CrushedError(xs: seq<real>, step: real, r: nat, i: nat)
    requires step > 0.0 && r >= 1 && i < |xs|
    ensures Quantise(Crushed(xs, step, r)[i], step) == Crushed(xs, step, r)[i]
    ensures i % r == 0 ==> -step / 2.0 < Crushed(xs, step, r)[i] - xs[i] <= step / 2.0
  {
    CrushedAt(xs, step, r, i);
    QuantiseIdempotent(xs[GroupStart(i, r)], step);
  }

  /** Running the kernel over its own output with the same parameters changes
      nothing. */
  lemma CrushedIdempotent(xs: seq<real>, step: real, r: nat)
    requires step > 0.0 && r >= 1
    ensures Crushed(Crushed(xs, step, r), step, r) == Crushed(xs, step, r)
  {
    var ys := Crushed(xs, step, r);
    forall i | 0 <= i < |xs|
      ensures Crushed(ys, step, r)[i] == ys[i]
    {
      var g := GroupStart(i, r);
      CrushedAt(ys, step, r, i);
      CrushedAt(xs, step, r, i);
      CrushedAt(xs, step, r, g);
      assert GroupStart(g, r) == g;
      QuantiseIdempotent(xs[g], step);
    }
  }

  /** Output up to an index depends only on input up to that index. */
  lemma CrushedPrefix(xs: seq<real>, more: seq<real>, step: real, r: nat)
    requires step > 0.0 && r >= 1
    ensures Crushed(xs + more, step, r)[..|xs|] == Crushed(xs, step, r)
  {
    forall i | 0 <= i < |xs|
      ensures Crushed(xs + more, step, r)[i] == Crushed(xs, step, r)[i]
    {
      CrushedAt(xs + more, step, r, i);
      CrushedAt(xs, step, r, i);
    }
  }

  // ---------------------------------------------------------------------------
  // The processor callback
  // ---------------------------------------------------------------------------

  /** One render quantum. `inputs[0]` and `outputs[0]` are the channel lists of
      the processor's single input and output; the two parameters are the first
      values of their parameter arrays. When the input has at least one channel,
      the first output channel is overwritten, up to the input channel's length,
      with the crushed first input channel; nothing else is written. Always asks
      the host to keep the processor alive. */
  method Process(inputs: seq<seq<array<real>>>, outputs: seq<seq<array<real>>>,
                 bitDepth: nat, sampleRateReduction: nat) returns (keepAlive: bool)
    requires |inputs| > 0
    requires MinBitDepth <= bitDepth <= MaxBitDepth
    requires MinSampleRateReduction <= sampleRateReduction <= MaxSampleRateReduction
    requires |inputs[0]| > 0 ==>
               |outputs| > 0 && |outputs[0]| > 0 && inputs[0][0].Length <= outputs[0][0].Length
    modifies if |inputs[0]| > 0 then {outputs[0][0]} else {}
    ensures keepAlive
    ensures |inputs[0]| > 0 ==>
              var n := inputs[0][0].Length;
              outputs[0][0][..n] == Crushed(old(inputs[0][0][..]), Step(bitDepth), sampleRateReduction) &&
              outputs[0][0][n..] == old(outputs[0][0][n..])
    ensures |inputs[0]| > 0 ==>
              forall i :: 0 <= i < inputs[0][0].Length ==>
                outputs[0][0][i] == Quantise(old(inputs[0][0][GroupStart(i, sampleRateReduction)]), Step(bitDepth))
  {
    var input := inputs[0];
    if |input| > 0 {
      var inputChannel := input[0];
      var outputChannel := outputs[0][0];
      var step := Step(bitDepth);
      var n := inputChannel.Length;
      ghost var xs := inputChannel[..];
      ghost var tail := outputChannel[n..];
      for i := 0 to n
        invariant forall k :: i <= k < n ==> inputChannel[k] == xs[k]
        invariant outputChannel[..i] == Crushed(xs[..i], step, sampleRateReduction)
        invariant outputChannel[n..] == tail
      {
        assert xs[..i + 1][..i] == xs[..i];
        if i % sampleRateReduction == 0 {
          outputChannel[i] := Quantise(inputChannel[i], step);
        } else {
          outputChannel[i] := outputChannel[i - 1];
        }
        assert outputChannel[..i + 1] == outputChannel[..i] + [outputChannel[i]];
      }
      assert xs[..n] == xs;
      forall i | 0 <= i < n
        ensures outputChannel[i] == Quantise(xs[GroupStart(i, sampleRateReduction)], step)
      {
        CrushedAt(xs, step, sampleRateReduction, i);
      }
    }
    keepAlive := true;
  }
}
