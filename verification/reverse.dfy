/** The ReverseLatentBatch node: the latent's rows in the opposite order. */
module ReverseLatentBatch {
  import opened Common

  /** The sequence turned around: first element last. */
  function Reversed<T>(s: seq<T>): (r: seq<T>)
    ensures |r| == |s|
  {
    if s == [] then [] else Reversed(s[1..]) + [s[0]]
  }

  /** Output row k is input row N-1-k, the index map of a flip along axis 0. */
  lemma {:induction false} ReversedAt<T>(s: seq<T>, k: nat)
    requires k < |s|
    ensures Reversed(s)[k] == s[|s| - 1 - k]
  {
    if k < |s| - 1 {
      ReversedAt(s[1..], k);
    }
  }

  lemma ReversedAll<T>(s: seq<T>)
    ensures forall k :: 0 <= k < |s| ==> Reversed(s)[k] == s[|s| - 1 - k]
  {
    forall k | 0 <= k < |s| {
      ReversedAt(s, k);
    }
  }

  /** Reversing twice gives back the original sequence. */
  lemma {:induction false} ReversedTwice<T>(s: seq<T>)
    ensures Reversed(Reversed(s)) == s
  {
    ReversedAll(s);
    ReversedAll(Reversed(s));
  }

  /** reverselatentbatch: a copy of the dict whose "samples" tensor is
      flipped along its leading axis; the shape and every other key are kept. */
  function ReverseLatent<R, M>(samples: Latent<seq<R>, M>): (out: Latent<seq<R>, M>)
    requires IsLatent(samples)
    ensures IsLatent(out) && out.Keys == samples.Keys
    ensures out[SamplesKey].dims == samples[SamplesKey].dims
    ensures |out[SamplesKey].rows| == |samples[SamplesKey].rows|
    ensures var n := |samples[SamplesKey].rows|;
            forall k :: 0 <= k < n ==> out[SamplesKey].rows[k] == samples[SamplesKey].rows[n - 1 - k]
    ensures forall key :: key in samples && key != SamplesKey ==> out[key] == samples[key]
  {
    var t := samples[SamplesKey];
    ReversedAll(t.rows);
    WithSamples(samples, Tensor(Reversed(t.rows), t.dims))
  }

  /** Applying the node twice gives back the latent it started from. */
  lemma ReverseLatentTwice<R, M>(samples: Latent<seq<R>, M>)
    requires IsLatent(samples)
    ensures ReverseLatent(ReverseLatent(samples)) == samples
  {
    var once := ReverseLatent(samples);
    var twice := ReverseLatent(once);
    ReversedTwice(samples[SamplesKey].rows);
    assert twice[SamplesKey] == samples[SamplesKey];
    assert forall key :: key in samples ==> twice[key] == samples[key];
  }
}
