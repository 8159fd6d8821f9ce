# Fractional delay line — Dafny model

A model of the fractional-sample delay of `src/main.rs`. The delay is built
as a FIR filter whose weights come from a windowed-sinc kernel. The model has two
parts, plus the object that joins them:

- **Coefficient synthesis** (`WindowedSinc`, pure functions). `FractionalDelay::new`
  splits the delay into its integer part and its fractional remainder. It sets the
  filter length to `2 * integer_delay + 1` and the centre tap to `filter_length / 2`.
  It then makes one weight per tap `t`, in tap order: a Hamming window times a sinc.
  The sinc is exactly `1.0` within `1e-8` of the centre.
- **Streaming convolution engine** (`FirFilters.FirFilter`, a class). It holds the
  weights, a ring buffer (`array<real>`), the write cursor `bufIndex` and the last
  `output`. `Process` overwrites the slot at the cursor and advances the cursor
  with wrap-around. It then walks the ring backwards from the cursor and accumulates
  `filterWeights[n] * buffer[sumIndex]` into `output`.
- **Fractional delay line** (`FractionalDelays.FractionalDelay`). It builds the
  filter from the synthesised weights, and its `Process` forwards to the filter.

The engine is proved against a reference definition, `Convolution.Convolve`.
After inputs `x0 … x(k-1)`, the output is the sum over taps `n` of
`w[n] * x(k-1-n)`, where a sample from before the first call counts as 0.
A ghost field `inputs` records every sample consumed. The object invariant
`Valid()` states three things:

- the buffer is as long as the weights;
- the cursor equals `|inputs|` modulo that length;
- the ring holds the most recent samples, with the newest just behind the cursor
  (`Convolution.RingHolds`).

## Model

| member | source | states |
|---|---|---|
| `FirFilters.FirFilter.constructor` | src/main.rs:99-107 | the buffer is zero-filled and as long as the weights; the cursor is 0, the output is 0 and no input has been consumed; empty weights are accepted |
| `FirFilters.FirFilter.Process` | src/main.rs:110-136 | writes `input` at the old cursor and changes no other slot; keeps the buffer and the weights; the new cursor is `(old + 1) % len`; the result equals `output` and the ring sum, and equals the reference convolution of the weights with every input so far |
| `FirFilters.FirFilter.Accumulate` | src/main.rs:122-133 | the backward walk with wrap-around pairs tap `n` with slot `Slot(bufIndex, n, len)` and leaves in `output` the sum of all taps in order; the walk index stays in `[0, len)` |
| `Convolution.SlotIsModular` | src/main.rs:123-130 | the slot visited at step `n` of the walk is `(bufIndex - 1 - n) mod len`, always in `[0, len)` |
| `Convolution.ZeroBufferHoldsNothing` | src/main.rs:104-105 | a zero-filled buffer with the cursor at 0 holds the empty history (every age reads 0) |
| `Convolution.RingAfterWrite` | src/main.rs:114-120 | writing at the cursor and advancing it with wrap-around makes the new sample age 0 and ages every retained sample by one |
| `Convolution.RingSumIsConvolution` | src/main.rs:122-135 | over a ring that holds the history `xs`, the backward ring sum equals the reference convolution of the weights with `xs` |
| `Convolution.OlderSamplesIgnored` | src/main.rs:114-133 | samples older than the last filter-length inputs do not change the output (the ring overwrites them) |
| `Convolution.ImpulseResponse` | src/main.rs:125-132 | `m` calls after a unit impulse the output is weight `m` (0 once `m` is past the last tap): weight 0 pairs with the newest sample |
| `Convolution.SingleTapScales` | src/main.rs:125-132 | a one-tap filter returns its weight times the newest input |
| `WindowedSinc.Decompose` | src/main.rs:59-63 | the integer part is the floor of the delay, or 0 for a negative delay; the fraction lies in `[0, 1)` and the two add back to a non-negative delay; the length is `2 * integer + 1`, odd and at least 1; the centre tap equals the integer part; a delay below 1 gives length 1 |
| `WindowedSinc.Weights` | src/main.rs:65-79 | exactly `filterLength` weights (odd, middle index = integer delay); weight `t` is the window times the sinc at tap `t`, in tap order |
| `WindowedSinc.SingularTap` | src/main.rs:67-77 | a tap within `1e-8` of the shifted centre is the centre tap or the tap after it; its weight is exactly the window value (sinc = 1) |
| `WindowedSinc.WholeDelayCentre` | src/main.rs:59-77 | for a whole delay `d` the fraction is 0 and the centre tap is `d`; tap `t` takes the singular branch if and only if `t == d`; weight `d` is the window value at the centre |
| `WindowedSinc.ZeroDelayIdentity` | src/main.rs:59-79 | a zero delay gives the single weight `1.0`, given `cos(pi) = -1` |
| `FractionalDelays.FractionalDelay.constructor` | src/main.rs:54-84 | the filter gets exactly the synthesised weights and starts zero-filled, as long as the weights, with no input consumed |
| `FractionalDelays.FractionalDelay.Process` | src/main.rs:86-88 | forwards to the filter: keeps the weights, appends the input, and returns the reference convolution of the weights with all inputs so far |
| `FractionalDelays.WholeDelayImpulsePeak` | src/main.rs:62-132 | with a whole delay `d`, the output `d` calls after a unit impulse is the centre weight (window value with sinc exactly 1); more than `2d` calls later it is 0 |
| `FractionalDelays.ShortDelaySingleTap` | src/main.rs:59-132 | a delay below one sample gives one tap, and every output is that weight times the newest input |
| `FractionalDelays.ZeroDelayPassthrough` | src/main.rs:59-132 | a zero delay passes every sample through unchanged, given `cos(pi) = -1` |

## Left out

- `ToneGenerator` (src/main.rs:22-47) is not part of this model. It is a sine oscillator that only produces input samples.
- `main` (src/main.rs:1-20) is not part of this model. It is the driver loop: it sums three oscillators and prints each line.
- Floating point: samples, weights and sums are `real`. IEEE-754 rounding, NaN and infinity are not modelled. Determinism follows from `Process` returning a function of the weights and the inputs.
- `sin` and `cos` are function parameters with no properties, and `Pi` is the decimal value of the double-precision constant. Because of this, unity DC gain, the numeric shape of the kernel and the 101-sample reference output are not stated. `ZeroDelayIdentity` and `ZeroDelayPassthrough` take `cos(Pi) == -1` as a hypothesis.
- Huge delays are not modelled. Above the `usize` range, the cast at src/main.rs:59 saturates and `integer_delay * 2 + 1` overflows. The model's integers are unbounded.
- `FirFilters.FirFilter.Process` requires a non-empty buffer. On an empty filter the source indexes out of bounds at src/main.rs:114 and panics. `FirFilter::new` itself accepts empty weights, and so does the constructor. A `FractionalDelay` always has at least one tap.
- `FirFilters.FirFilter.Accumulate`: in the source, the accumulation loop (src/main.rs:122-133) sits inside `process`. Here it is a separate method that `Process` calls right after the write and the cursor update. The statements are the same, and so is the final state.
- The system's design calls for construction to fail with an invalid-parameter error when the delay is negative or the weights are empty. The code has no such error. A negative delay saturates to integer part 0, which gives one tap whose fraction is `delay - floor(delay)`. `Decompose` follows the code.
