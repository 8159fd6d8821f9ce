/** The streaming FIR convolution engine: a fixed-length ring buffer of past
    samples, a write cursor, and a weight vector fixed at construction. */
module FirFilters {
  import opened Convolution

  class FirFilter {
    var filterWeights: seq<real>
    var buffer: array<real>
    var bufIndex: nat
    var output: real

    /** Every sample passed to `Process` so far, oldest first. */
    ghost var inputs: seq<real>

    /** The buffer is as long as the weight vector; once it is non-empty, the cursor
        is the number of samples processed modulo that length and the buffer holds
        the most recent samples, the newest just behind the cursor. */
    ghost predicate Valid()
      reads this, buffer
    {
      && buffer.Length == |filterWeights|
      && (buffer.Length == 0 ==> bufIndex == 0)
      && (buffer.Length > 0 ==>
            && bufIndex == |inputs| % buffer.Length
            && RingHolds(buffer[..], bufIndex, inputs))
    }

    /** A zero-filled buffer as long as the weights, the cursor at slot 0 and a zero
        output; an empty weight vector is accepted (only `Process` needs a tap). */
    constructor (filterWeights: seq<real>)
      ensures Valid() && fresh(buffer)
      ensures this.filterWeights == filterWeights
      ensures buffer[..] == seq(|filterWeights|, _ => 0.0)
      ensures bufIndex == 0 && output == 0.0
      ensures inputs == []
    {
      this.filterWeights := filterWeights;
      buffer := new real[|filterWeights|](_ => 0.0);
      bufIndex := 0;
      output := 0.0;
      inputs := [];
      new;
      if buffer.Length > 0 {
        ZeroBufferHoldsNothing(buffer.Length);
      }
    }

    /** Consumes one sample: overwrites the slot at the cursor, advances the cursor
        with wrap-around, and returns (and keeps in `output`) the weighted sum that
        pairs weight `n` with the sample `n` calls older than `input`. */
    method Process(input: real) returns (y: real)
      requires Valid() && buffer.Length > 0
      modifies this, buffer
      ensures Valid()
      ensures buffer == old(buffer) && filterWeights == old(filterWeights)
      ensures buffer[..] == old(buffer[..])[old(bufIndex) := input]
      ensures bufIndex == (old(bufIndex) + 1) % buffer.Length
      ensures inputs == old(inputs) + [input]
      ensures y == output == RingSum(filterWeights, buffer[..], bufIndex, buffer.Length)
      ensures y == Convolve(filterWeights, inputs, |filterWeights|)
    {
      ghost var before, cursor, count := buffer[..], bufIndex, |inputs|;
      CursorWrap(cursor, buffer.Length);
      ModSucc(count, buffer.Length);
      RingAfterWrite(before, cursor, inputs, input);

      buffer[bufIndex] := input;

      bufIndex := bufIndex + 1;

      if bufIndex >= buffer.Length {
        bufIndex := 0;
      }
      inputs := inputs + [input];

      Accumulate();
      RingSumIsConvolution(filterWeights, buffer[..], bufIndex, inputs, buffer.Length);

      y := output;
    }

    /** The accumulation half of `Process`: resets `output` and walks the ring
        backwards from the cursor, wrapping from slot 0 to the last slot, adding
        `filterWeights[n] * buffer[sumIndex]` for each tap `n` in order. */
    method Accumulate()
      requires buffer.Length == |filterWeights| && bufIndex < buffer.Length
      modifies this`output
      ensures output == RingSum(filterWeights, buffer[..], bufIndex, buffer.Length)
    {
      output := 0.0;
      var sumIndex := bufIndex;

      for n := 0 to buffer.Length
        invariant sumIndex < buffer.Length
        invariant n == 0 ==> sumIndex == bufIndex
        invariant n > 0 ==> sumIndex == Slot(bufIndex, n - 1, buffer.Length)
        invariant output == RingSum(filterWeights, buffer[..], bufIndex, n)
      {
        if sumIndex > 0 {
          sumIndex := sumIndex - 1;
        } else {
          sumIndex := buffer.Length - 1;
        }

        output := output + filterWeights[n] * buffer[sumIndex];
      }
    }
  }
}
