/** The fractional delay line: a FIR filter whose weights are the windowed-sinc
    kernel of the requested delay, built once and then fed sample by sample. */
module FractionalDelays {
  import opened Convolution
  import opened WindowedSinc
  import opened FirFilters

  class FractionalDelay {
    const firFilter: FirFilter

    /** The filter is consistent and has at least one tap (its length is odd). */
    ghost predicate Valid()
      reads this, firFilter, firFilter.buffer
    {
      firFilter.Valid() && firFilter.buffer.Length > 0
    }

    /** Synthesises the weights of `delay` and hands them to a fresh filter, which
        starts zero-filled with no input consumed. `sin` and `cos` stand for the
        platform's trigonometric functions. */
    constructor (delay: real, sin: real -> real, cos: real -> real)
      ensures Valid() && fresh(firFilter) && fresh(firFilter.buffer)
      ensures firFilter.filterWeights == Weights(delay, sin, cos)
      ensures firFilter.buffer[..] == seq(Decompose(delay).filterLength, _ => 0.0)
      ensures firFilter.inputs == []
    {
      firFilter := new FirFilter(Weights(delay, sin, cos));
    }

    /** Forwards one sample to the filter: the output is the convolution of the
        weights with every sample consumed so far, the newest paired with weight 0. */
    method Process(input: real) returns (y: real)
      requires Valid()
      modifies firFilter, firFilter.buffer
      ensures Valid()
      ensures firFilter.filterWeights == old(firFilter.filterWeights)
      ensures firFilter.inputs == old(firFilter.inputs) + [input]
      ensures y == Convolve(firFilter.filterWeights, firFilter.inputs, |firFilter.filterWeights|)
    {
      y := firFilter.Process(input);
    }
  }

  /** With a whole-sample delay `d`, the output `d` calls after a unit impulse is the
      centre weight, whose sinc factor is exactly 1: the impulse re-emerges `d`
      samples later scaled by the window at the centre. Once it has left the
      buffer (more than `2 * d` calls later) it no longer contributes. */
  lemma WholeDelayImpulsePeak(d: nat, sin: real -> real, cos: real -> real, m: nat)
    ensures Convolve(Weights(d as real, sin, cos), Impulse(d), 2 * d + 1) == Window(d as real, 2 * d + 1, cos)
    ensures m > 2 * d ==> Convolve(Weights(d as real, sin, cos), Impulse(m), 2 * d + 1) == 0.0
  {
    var w := Weights(d as real, sin, cos);
    WholeDelayCentre(d, sin, cos, d);
    ImpulseResponse(w, d, |w|);
    ImpulseResponse(w, m, |w|);
  }

  /** A delay below one sample gives a single tap: every output is the newest
      input scaled by that tap's weight. */
  lemma ShortDelaySingleTap(delay: real, sin: real -> real, cos: real -> real, xs: seq<real>, x: real)
    requires delay < 1.0
    ensures |Weights(delay, sin, cos)| == 1
    ensures Convolve(Weights(delay, sin, cos), xs + [x], 1) == Weights(delay, sin, cos)[0] * x
  {
    SingleTapScales(Weights(delay, sin, cos), xs, x);
  }

  /** A zero delay passes every sample through unchanged (given cos(pi) = -1). */
  lemma ZeroDelayPassthrough(sin: real -> real, cos: real -> real, xs: seq<real>, x: real)
    requires cos(Pi) == -1.0
    ensures Convolve(Weights(0.0, sin, cos), xs + [x], 1) == x
  {
    ZeroDelayIdentity(sin, cos);
    SingleTapScales(Weights(0.0, sin, cos), xs, x);
  }
}
