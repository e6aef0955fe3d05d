/** Values shared by the three nodes: the errors they raise and the latent
    container the host passes between nodes. */
module Common {

  /** One constructor per exception the nodes raise. */
  datatype NodeError =
    | LengthMismatch(len1: nat, len2: nat)   // blend: leading lengths differ
    | UnsupportedMode(mode: string)          // blend: mode is neither "normal" nor "gradient"
    | DivisionByZero                         // orbit: ramp denominator num_frames - 1 is zero
    | EmptyStack                             // orbit: stacking an empty trajectory

  datatype Result<+T> = Ok(value: T) | Err(error: NodeError)

  /** A value stored in a latent dict: a tensor, seen as its rows along the
      leading (batch or frame) axis together with its non-leading dimensions,
      or any other metadata the host attaches. */
  datatype Entry<S, M> = Tensor(rows: S, dims: seq<nat>) | Meta(info: M)

  /** The host's LATENT value: a dict whose "samples" key holds the tensor. */
  type Latent<S, M> = map<string, Entry<S, M>>

  const SamplesKey: string := "samples"

  predicate IsLatent<S, M>(d: Latent<S, M>)
  {
    SamplesKey in d && d[SamplesKey].Tensor?
  }

  /** A shallow copy of the dict in which the "samples" entry is replaced. */
  function WithSamples<S, M>(d: Latent<S, M>, t: Entry<S, M>): (r: Latent<S, M>)
    requires SamplesKey in d
    ensures r.Keys == d.Keys
    ensures r[SamplesKey] == t
    ensures forall k :: k in d && k != SamplesKey ==> r[k] == d[k]
  {
    d[SamplesKey := t]
  }

  function Abs(x: real): real { if x < 0.0 then -x else x }

  /** Steps of real arithmetic, kept as named lemmas so that the proofs using
      them stay stable across solver seeds. */

  lemma MulPositive(x: real, y: real)
    requires x > 0.0 && y > 0.0
    ensures x * y > 0.0
  {
  }

  /** A quotient by a positive number has the sign of its numerator. */
  lemma QuotientSign(x: real, n: real)
    requires n > 0.0
    ensures x / n > 0.0 <==> x > 0.0
    ensures x / n == 0.0 <==> x == 0.0
  {
    var q := x / n;
    assert q * n == x;
    if q > 0.0 {
      assert q * n > 0.0;
    } else if q < 0.0 {
      assert (-q) * n > 0.0;
    }
  }

  /** Compares x / n with c through the sign of x - c * n. */
  lemma QuotientCompare(x: real, c: real, n: real)
    requires n > 0.0
    ensures x / n < c <==> x < c * n
    ensures x / n == c <==> x == c * n
  {
    assert c * n / n == c;
    assert x / n - c == (x - c * n) / n;
    QuotientSign(x - c * n, n);
  }
}
