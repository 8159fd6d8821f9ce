/** Reference semantics of the streaming FIR convolution: what the output of the
    filter is after a given sequence of input samples, independently of the ring
    buffer that realises it, and the ring-buffer sum that the engine computes. */
module Convolution {

  /** The sample `age` calls older than the newest one in the input history `xs`
      (age 0 is the newest); before the first call there is no sample and the
      zero-filled buffer contributes 0. */
  function History(xs: seq<real>, age: nat): real
  {
    if age < |xs| then xs[|xs| - 1 - age] else 0.0
  }

  /** Reference definition of the filter output: the sum over the first `k` taps of
      `w[n] * History(xs, n)`, accumulated in tap order. */
  function Convolve(w: seq<real>, xs: seq<real>, k: nat): real
    requires k <= |w|
  {
    if k == 0 then 0.0 else Convolve(w, xs, k - 1) + w[k - 1] * History(xs, k - 1)
  }

  /** The ring slot that holds the sample `age` calls older than the newest one,
      when the write cursor (the slot to be overwritten next) is `cursor`: walking
      backwards `age + 1` steps from the cursor, wrapping from slot 0 to the last. */
  function Slot(cursor: nat, age: nat, len: nat): nat
    requires cursor < len && age < len
  {
    if age < cursor then cursor - 1 - age else cursor - 1 - age + len
  }

  /** The sum the engine accumulates: tap `n` is paired with the buffer slot that
      walking backwards `n + 1` steps from the cursor reaches, wrapping at the ends. */
  function RingSum(w: seq<real>, buf: seq<real>, cursor: nat, k: nat): real
    requires cursor < |buf| && k <= |w| <= |buf|
  {
    if k == 0 then 0.0 else RingSum(w, buf, cursor, k - 1) + w[k - 1] * buf[Slot(cursor, k - 1, |buf|)]
  }

  /** The ring buffer `buf` with write cursor `cursor` holds the `|buf|` most recent
      samples of `xs`, the newest just behind the cursor, and zeros where the
      history is shorter than the buffer. */
  ghost predicate RingHolds(buf: seq<real>, cursor: nat, xs: seq<real>)
  {
    && cursor < |buf|
    && forall age {:trigger History(xs, age)} :: 0 <= age < |buf| ==> buf[Slot(cursor, age, |buf|)] == History(xs, age)
  }

  /** Reduction of an index that is at most one period out of range. */
  lemma ModNear(a: int, len: int)
    requires len > 0 && -len <= a < len
    ensures a % len == if a < 0 then a + len else a
  {
  }

  /** The remainder of a successor: the cursor advances by one and wraps to 0. */
  lemma ModSucc(count: nat, len: nat)
    requires len > 0
    ensures (count + 1) % len == if count % len + 1 == len then 0 else count % len + 1
  {
    var q, r := count / len, count % len;
    assert count == q * len + r;
    if r + 1 == len {
      assert count + 1 == (q + 1) * len;
      ModUnique(count + 1, q + 1, 0, len);
    } else {
      assert count + 1 == q * len + (r + 1);
      ModUnique(count + 1, q, r + 1, len);
    }
  }

  /** Advancing a cursor in `[0, len)` by one modulo `len` wraps only from the last slot. */
  lemma CursorWrap(cursor: nat, len: nat)
    requires cursor < len
    ensures (cursor + 1) % len == if cursor + 1 == len then 0 else cursor + 1
  {
  }

  /** The remainder is determined by any decomposition with an in-range rest. */
  lemma ModUnique(a: int, q: int, r: int, len: int)
    requires len > 0 && 0 <= r < len && a == q * len + r
    ensures a % len == r
  {
    var d := q - a / len;
    assert d * len == a % len - r;
  }

  /** The slot is the cursor minus `age + 1`, taken modulo the buffer length. */
  lemma SlotIsModular(cursor: nat, age: nat, len: nat)
    requires cursor < len && age < len
    ensures Slot(cursor, age, len) < len
    ensures Slot(cursor, age, len) == (cursor - 1 - age) % len
  {
    ModNear(cursor - 1 - age, len);
  }

  /** A zero-filled buffer with the cursor at slot 0 holds the empty history. */
  lemma ZeroBufferHoldsNothing(len: nat)
    requires len > 0
    ensures RingHolds(seq(len, _ => 0.0), 0, [])
  {
  }

  /** Writing `x` at the cursor and advancing the cursor by one, wrapping at the end,
      turns a buffer holding `xs` into one holding `xs + [x]`: the new sample becomes
      age 0 and every retained sample ages by one; the oldest one is overwritten. */
  lemma RingAfterWrite(buf: seq<real>, cursor: nat, xs: seq<real>, x: real)
    requires RingHolds(buf, cursor, xs)
    ensures RingHolds(buf[cursor := x], if cursor + 1 == |buf| then 0 else cursor + 1, xs + [x])
  {
    var len := |buf|;
    var next := if cursor + 1 == len then 0 else cursor + 1;
    var written := buf[cursor := x];
    forall age | 0 <= age < len
      ensures written[Slot(next, age, len)] == History(xs + [x], age)
    {
      if age == 0 {
        assert Slot(next, 0, len) == cursor;
      } else {
        assert Slot(next, age, len) == Slot(cursor, age - 1, len);
        assert History(xs + [x], age) == History(xs, age - 1);
      }
    }
  }

  /** Over a buffer that holds `xs`, the ring-buffer sum is the reference convolution. */
  lemma {:induction false} RingSumIsConvolution(w: seq<real>, buf: seq<real>, cursor: nat, xs: seq<real>, k: nat)
    requires |buf| == |w| && k <= |w|
    requires RingHolds(buf, cursor, xs)
    ensures RingSum(w, buf, cursor, k) == Convolve(w, xs, k)
  {
    if k > 0 {
      RingSumIsConvolution(w, buf, cursor, xs, k - 1);
      assert buf[Slot(cursor, k - 1, |buf|)] == History(xs, k - 1);
    }
  }

  /** Samples older than the `k` most recent do not influence the first `k` taps:
      the output depends only on the last filter-length inputs (bounded memory). */
  lemma {:induction false} OlderSamplesIgnored(w: seq<real>, older: seq<real>, recent: seq<real>, k: nat)
    requires k <= |w| && k <= |recent|
    ensures Convolve(w, older + recent, k) == Convolve(w, recent, k)
  {
    if k > 0 {
      OlderSamplesIgnored(w, older, recent, k - 1);
      assert History(older + recent, k - 1) == History(recent, k - 1);
    }
  }

  /** The input history after feeding a unit impulse followed by `m` zeros. */
  function Impulse(m: nat): (xs: seq<real>)
    ensures |xs| == m + 1
    ensures forall age :: 0 <= age <= m ==> History(xs, age) == if age == m then 1.0 else 0.0
  {
    [1.0] + seq(m, _ => 0.0)
  }

  /** Impulse response: `m` calls after the impulse, the output is weight `m`
      (and 0 once the impulse has left the buffer), so weight 0 pairs with the
      newest sample and the weights read out in tap order. */
  lemma {:induction false} ImpulseResponse(w: seq<real>, m: nat, k: nat)
    requires k <= |w|
    ensures Convolve(w, Impulse(m), k) == if m < k then w[m] else 0.0
  {
    if k > 0 {
      ImpulseResponse(w, m, k - 1);
      assert History(Impulse(m), k - 1) == if k - 1 == m then 1.0 else 0.0;
    }
  }

  /** A single-tap filter scales the newest sample by its only weight. */
  lemma SingleTapScales(w: seq<real>, xs: seq<real>, x: real)
    requires |w| == 1
    ensures Convolve(w, xs + [x], 1) == w[0] * x
  {
  }
}
