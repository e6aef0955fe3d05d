/** The LatentBlendGradient node: mixes two latent batches row by row, either
    with a fixed half/half weight or with a weight that grows along the batch.
    Each row is one real; the tensor arithmetic is elementwise, so one
    coordinate of a row stands for all of them. */
module LatentBlendGradient {
  import opened Common

  datatype Mode = Normal | Gradient

  /** The checks the node makes before it blends, in the order it makes them:
      the leading lengths first, the mode second. */
  function CheckInputs(len1: nat, len2: nat, blendMode: string): (r: Result<Mode>)
    ensures len1 != len2 ==> r == Err(LengthMismatch(len1, len2))
    ensures r == Ok(Normal) <==> len1 == len2 && blendMode == "normal"
    ensures r == Ok(Gradient) <==> len1 == len2 && blendMode == "gradient"
    ensures len1 == len2 && blendMode != "normal" && blendMode != "gradient"
            ==> r == Err(UnsupportedMode(blendMode))
  {
    if len1 != len2 then Err(LengthMismatch(len1, len2))
    else if blendMode == "normal" then Ok(Normal)
    else if blendMode == "gradient" then Ok(Gradient)
    else Err(UnsupportedMode(blendMode))
  }

  /** The fixed blend factor of "normal" mode. */
  const NormalFactor: real := 0.5

  /** "normal" mode: samples1 * 0.5 + samples2 * (1 - 0.5), row by row;
      every output row is the average of the two input rows. */
  function NormalBlend(a: seq<real>, b: seq<real>): (r: seq<real>)
    requires |a| == |b|
    ensures |r| == |a|
    ensures forall i :: 0 <= i < |a| ==> r[i] == (a[i] + b[i]) / 2.0
  {
    seq(|a|, i requires 0 <= i < |a| => a[i] * NormalFactor + b[i] * (1.0 - NormalFactor))
  }

  /** Blending a batch with itself in "normal" mode gives it back. */
  lemma NormalBlendSelf(a: seq<real>)
    ensures NormalBlend(a, a) == a
  {
  }

  /** "normal" mode does not depend on which batch comes first. */
  lemma NormalBlendSymmetric(a: seq<real>, b: seq<real>)
    requires |a| == |b|
    ensures NormalBlend(a, b) == NormalBlend(b, a)
  {
  }

  /** The "gradient" weight of samples2 in row i of n: (i + 0.5) / n. */
  function Weight(i: nat, n: nat): (w: real)
    requires i < n
    ensures 0.0 < w < 1.0
  {
    QuotientSign(i as real + 0.5, n as real);
    QuotientCompare(i as real + 0.5, 1.0, n as real);
    (i as real + 0.5) / (n as real)
  }

  /** The weight grows strictly along the batch. */
  lemma WeightIncreasing(i: nat, j: nat, n: nat)
    requires i < j < n
    ensures Weight(i, n) < Weight(j, n)
  {
    var x, y := i as real + 0.5, j as real + 0.5;
    assert Weight(j, n) - Weight(i, n) == (y - x) / (n as real);
    QuotientSign(y - x, n as real);
  }

  /** Mirrored rows have weights that add up to one; in particular
      w_0 + w_{n-1} == 1. */
  lemma WeightMirror(i: nat, n: nat)
    requires i < n
    ensures Weight(i, n) + Weight(n - 1 - i, n) == 1.0
  {
    var x, y := i as real + 0.5, (n - 1 - i) as real + 0.5;
    assert Weight(i, n) + Weight(n - 1 - i, n) == (x + y) / (n as real);
    assert x + y == n as real;
  }

  /** samples2 weighs less than samples1 exactly in the first half of the batch. */
  lemma WeightBelowHalf(i: nat, n: nat)
    requires i < n
    ensures Weight(i, n) < 0.5 <==> 2 * i + 1 < n
    ensures Weight(i, n) == 0.5 <==> 2 * i + 1 == n
  {
    QuotientCompare(i as real + 0.5, 0.5, n as real);
  }

  function Min(x: real, y: real): real { if x <= y then x else y }
  function Max(x: real, y: real): real { if x <= y then y else x }

  /** Scaling by a positive factor scales the distance from zero. */
  lemma AbsScale(c: real, x: real)
    requires c > 0.0
    ensures Abs(c * x) == c * Abs(x)
  {
    if x < 0.0 {
      MulPositive(c, -x);
    } else if x > 0.0 {
      MulPositive(c, x);
    }
  }

  /** A weight strictly between 0 and 1 puts the mix strictly between its inputs. */
  lemma MixBetween(a: real, b: real, w: real)
    requires 0.0 < w < 1.0
    ensures Min(a, b) <= a * (1.0 - w) + b * w <= Max(a, b)
    ensures a != b ==> Min(a, b) < a * (1.0 - w) + b * w < Max(a, b)
  {
    var r, u := a * (1.0 - w) + b * w, 1.0 - w;
    if a != b {
      var d := if a < b then b - a else a - b;
      MulPositive(w, d);
      MulPositive(u, d);
      var near, far := w * d, u * d;
      assert near > 0.0 && far > 0.0;
      if a < b {
        assert r == a + near && r == b - far;
      } else {
        assert r == a - near && r == b + far;
      }
    }
  }

  /** samples1[i] * (1 - w_i) + samples2[i] * w_i: strictly between the two
      rows where they differ. */
  function GradientRow(a: real, b: real, i: nat, n: nat): (r: real)
    requires i < n
    ensures Min(a, b) <= r <= Max(a, b)
    ensures a != b ==> Min(a, b) < r < Max(a, b)
  {
    MixBetween(a, b, Weight(i, n));
    a * (1.0 - Weight(i, n)) + b * Weight(i, n)
  }

  /** "gradient" mode as a value: every output row lies strictly between the
      two input rows (or equals them where they agree). */
  function GradientBlend(a: seq<real>, b: seq<real>): (r: seq<real>)
    requires |a| == |b|
    ensures |r| == |a|
    ensures forall i :: 0 <= i < |a| ==> Min(a[i], b[i]) <= r[i] <= Max(a[i], b[i])
    ensures forall i :: 0 <= i < |a| && a[i] != b[i] ==> Min(a[i], b[i]) < r[i] < Max(a[i], b[i])
  {
    seq(|a|, i requires 0 <= i < |a| => GradientRow(a[i], b[i], i, |a|))
  }

  /** The first and last rows of a gradient blend, with the half-row offset. */
  lemma GradientEnds(a: seq<real>, b: seq<real>)
    requires |a| == |b| > 0
    ensures var n, r := |a|, GradientBlend(a, b);
            r[0] == a[0] * (1.0 - 0.5 / n as real) + b[0] * (0.5 / n as real) &&
            r[n - 1] == a[n - 1] * (0.5 / n as real) + b[n - 1] * (1.0 - 0.5 / n as real)
  {
    var n := |a|;
    assert Weight(n - 1, n) == 1.0 - 0.5 / n as real by {
      WeightMirror(0, n);
    }
  }

  /** In the first half of the batch an output row is closer to samples1,
      in the second half closer to samples2. */
  lemma GradientCloserTo(a: seq<real>, b: seq<real>, i: nat)
    requires |a| == |b| && i < |a| && a[i] != b[i]
    ensures var r := GradientBlend(a, b)[i];
            (2 * i + 1 < |a| ==> Abs(r - a[i]) < Abs(r - b[i])) &&
            (2 * i + 1 > |a| ==> Abs(r - b[i]) < Abs(r - a[i]))
  {
    var n, w := |a|, Weight(i, |a|);
    var r := GradientBlend(a, b)[i];
    var u := 1.0 - w;
    WeightBelowHalf(i, n);
    var d := Abs(b[i] - a[i]);
    AbsScale(w, b[i] - a[i]);
    AbsScale(u, a[i] - b[i]);
    var near, far := w * d, u * d;
    assert Abs(r - a[i]) == near by {
      assert r - a[i] == w * (b[i] - a[i]);
    }
    assert Abs(r - b[i]) == far by {
      assert r - b[i] == u * (a[i] - b[i]);
      assert Abs(a[i] - b[i]) == d;
    }
    if 2 * i + 1 < n {
      var gap := u - w;
      MulPositive(gap, d);
      var p := gap * d;
      assert far - near == p;
      assert near < far;
    } else if 2 * i + 1 > n {
      var gap := w - u;
      MulPositive(gap, d);
      var p := gap * d;
      assert near - far == p;
      assert far < near;
    }
  }

  /** The loop of "gradient" mode. The output array is samples1's own array,
      so each row is overwritten after it has been read. b may be the same
      array as a (the same latent passed twice). */
  method BlendRowsInPlace(a: array<real>, b: array<real>)
    requires a.Length == b.Length
    modifies a
    ensures a[..] == GradientBlend(old(a[..]), old(b[..]))
  {
    var batchSize := a.Length;
    for i := 0 to batchSize
      invariant forall k :: 0 <= k < i ==> a[k] == GradientRow(old(a[k]), old(b[k]), k, batchSize)
      invariant forall k :: i <= k < batchSize ==> a[k] == old(a[k]) && b[k] == old(b[k])
    {
      var blendFactor := Weight(i, batchSize);
      a[i] := a[i] * (1.0 - blendFactor) + b[i] * blendFactor;
    }
  }

  /** The rows that are blended with samples1: samples2's own rows when the
      shapes agree, otherwise the host's bicubic resampling of them to
      samples1's non-leading dimensions. */
  function SecondOperand(b: seq<real>, dims1: seq<nat>, dims2: seq<nat>,
                         upscale: (seq<real>, seq<nat>) -> seq<real>): (r: seq<real>)
    requires forall s, d :: |upscale(s, d)| == |s|
    ensures |r| == |b|
    ensures dims1 == dims2 ==> r == b
  {
    if dims1 == dims2 then b else upscale(b, dims1)
  }

  method FromSeq(s: seq<real>) returns (a: array<real>)
    ensures fresh(a) && a[..] == s
  {
    a := new real[|s|](i requires 0 <= i < |s| => s[i]);
  }

  /** blend: the length check, the optional resampling of samples2, then the
      mode dispatch. The mode defaults to "gradient", and the host, whose
      inputs are only the two latents, never passes another. "normal" builds
      a new tensor; "gradient" overwrites samples1's tensor and returns the
      dict copy that still holds it. */
  method Blend<M>(samples1: Latent<array<real>, M>, samples2: Latent<array<real>, M>,
                  upscale: (seq<real>, seq<nat>) -> seq<real>, blendMode: string := "gradient")
    returns (r: Result<Latent<array<real>, M>>)
    requires IsLatent(samples1) && IsLatent(samples2)
    requires forall s, d :: |upscale(s, d)| == |s|
    modifies samples1[SamplesKey].rows
    ensures var t1, t2 := samples1[SamplesKey], samples2[SamplesKey];
            var check := CheckInputs(t1.rows.Length, t2.rows.Length, blendMode);
            var b := SecondOperand(old(t2.rows[..]), t1.dims, t2.dims, upscale);
            (check.Err? ==> r == Err(check.error) && unchanged(t1.rows)) &&
            (check == Ok(Normal) ==>
               unchanged(t1.rows) && r.Ok? && IsLatent(r.value) &&
               fresh(r.value[SamplesKey].rows) &&
               r.value == WithSamples(samples1, Tensor(r.value[SamplesKey].rows, t1.dims)) &&
               r.value[SamplesKey].rows[..] == NormalBlend(old(t1.rows[..]), b)) &&
            (check == Ok(Gradient) ==>
               r == Ok(samples1) && t1.rows[..] == GradientBlend(old(t1.rows[..]), b))
  {
    var samplesOut := samples1;
    var t1, t2 := samples1[SamplesKey], samples2[SamplesKey];
    var a, b := t1.rows, t2.rows;
    if a.Length != b.Length {
      return Err(LengthMismatch(a.Length, b.Length));
    }
    if t1.dims != t2.dims {
      b := FromSeq(upscale(b[..], t1.dims));
    }
    if blendMode == "normal" {
      var mixed := FromSeq(NormalBlend(a[..], b[..]));
      samplesOut := WithSamples(samplesOut, Tensor(mixed, t1.dims));
    } else if blendMode == "gradient" {
      BlendRowsInPlace(a, b);
    } else {
      return Err(UnsupportedMode(blendMode));
    }
    return Ok(samplesOut);
  }
}
