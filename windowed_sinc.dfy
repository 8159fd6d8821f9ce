/** Coefficient synthesis of the fractional delay: the windowed-sinc kernel built
    by `FractionalDelay::new`. The trigonometric functions are parameters (their
    values are not modelled); what is modelled is the decomposition of the delay,
    the filter length and centre tap, the tap order and the removable singularity. */
module WindowedSinc {

  /** The double-precision value of pi, as a real. */
  const Pi: real := 3.141592653589793

  /** Taps whose offset from the centre is within this distance take sinc = 1. */
  const SincTolerance: real := 0.00000001

  function Abs(x: real): real
  {
    if x < 0.0 then -x else x
  }

  /** The structural parameters derived from a delay value. */
  datatype Layout = Layout(integerDelay: nat, fractionalDelay: real, filterLength: nat, centerTap: nat)

  /** Splits `delay` into its integer part (the floor, saturated at 0 as the cast
      of a negative float to an unsigned integer is) and its fractional remainder,
      and derives the filter length `2 * integerDelay + 1` and the centre tap
      `filterLength / 2`. */
  function Decompose(delay: real): (l: Layout)
    ensures l.filterLength == 2 * l.integerDelay + 1
    ensures l.filterLength % 2 == 1 && l.filterLength >= 1
    ensures l.centerTap == l.integerDelay
    ensures 0.0 <= l.fractionalDelay < 1.0
    ensures delay >= 0.0 ==> l.integerDelay as real <= delay < l.integerDelay as real + 1.0
    ensures delay >= 0.0 ==> l.integerDelay as real + l.fractionalDelay == delay
    ensures delay < 1.0 ==> l.filterLength == 1
  {
    var floor := delay.Floor;
    var integerDelay: nat := if floor < 0 then 0 else floor;
    var fractionalDelay := delay - floor as real;
    var filterLength := integerDelay * 2 + 1;
    Layout(integerDelay, fractionalDelay, filterLength, filterLength / 2)
  }

  /** The sinc factor at offset `u` from the centre, with the 0/0 singularity
      removed: exactly 1 within `SincTolerance` of the centre. */
  function Sinc(u: real, sin: real -> real): real
  {
    if Abs(u) <= SincTolerance then 1.0 else sin(Pi * u) / (Pi * u)
  }

  /** The Hamming window at position `x` of a filter of `filterLength` taps. */
  function Window(x: real, filterLength: nat, cos: real -> real): real
    requires filterLength > 0
  {
    0.54 - 0.46 * cos(2.0 * Pi * (x + 0.5) / filterLength as real)
  }

  /** The weight of tap `t`: the window times the sinc, both evaluated at the tap
      position shifted back by the fractional delay. */
  function TapWeight(t: nat, l: Layout, sin: real -> real, cos: real -> real): real
    requires l.filterLength > 0
  {
    var x := t as real - l.fractionalDelay;
    Window(x, l.filterLength, cos) * Sinc(x - l.centerTap as real, sin)
  }

  /** The weight vector: one weight per tap, in tap order `0 .. filterLength`; its
      length is odd and its middle index is the integer part of the delay. */
  function Weights(delay: real, sin: real -> real, cos: real -> real): (w: seq<real>)
    ensures |w| == Decompose(delay).filterLength
    ensures |w| % 2 == 1 && |w| / 2 == Decompose(delay).integerDelay
    ensures forall t :: 0 <= t < |w| ==> w[t] == TapWeight(t, Decompose(delay), sin, cos)
  {
    var l := Decompose(delay);
    seq(l.filterLength, t requires 0 <= t < l.filterLength => TapWeight(t, l, sin, cos))
  }

  /** Only the centre tap, or the tap just after it when the fractional part is
      within the tolerance of 1, can fall in the singular branch; there the weight
      is exactly the window value. */
  lemma SingularTap(delay: real, sin: real -> real, cos: real -> real, t: nat)
    requires t < Decompose(delay).filterLength
    requires Abs(t as real - Decompose(delay).fractionalDelay - Decompose(delay).centerTap as real) <= SincTolerance
    ensures t == Decompose(delay).centerTap || t == Decompose(delay).centerTap + 1
    ensures Weights(delay, sin, cos)[t] == Window(t as real - Decompose(delay).fractionalDelay, |Weights(delay, sin, cos)|, cos)
  {
  }

  /** For a whole-sample delay `d`, the singular branch is taken exactly at tap `d`,
      whose weight is then the window value at the centre. */
  lemma WholeDelayCentre(d: nat, sin: real -> real, cos: real -> real, t: nat)
    requires t < 2 * d + 1
    ensures Decompose(d as real).centerTap == d && Decompose(d as real).fractionalDelay == 0.0
    ensures Abs(t as real - d as real) <= SincTolerance <==> t == d
    ensures Weights(d as real, sin, cos)[d] == Window(d as real, 2 * d + 1, cos)
  {
  }

  /** A zero delay yields the single weight 1 (given cos(pi) = -1), the identity filter. */
  lemma ZeroDelayIdentity(sin: real -> real, cos: real -> real)
    requires cos(Pi) == -1.0
    ensures Weights(0.0, sin, cos) == [1.0]
  {
  }
}
