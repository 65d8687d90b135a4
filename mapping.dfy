/** The random mapping: a per-symbol generator of the strictly increasing
    coded-symbol indices a source symbol contributes to.

    The generator's step (a multiplicative update of the state followed by a
    floating-point gap computation) is kept abstract: a step is any function
    of the generator state that strictly increases the last index.  Every
    component that walks mappings is given the step when it is built, the
    same way it is given the symbol type's capabilities. */
module Mapping {
  import opened Symbols

  /** The generator's internal state word, seeded with a symbol's hash. */
  type Prng = Hash

  /** The state of a generator: its PRNG word and the last index it reported. */
  datatype MapState = MapState(prng: Prng, lastIdx: nat)

  /** A generator step: updates the PRNG word and moves the last index
      strictly forward. */
  type StepFn = f: MapState -> MapState | forall s: MapState :: f(s).lastIdx > s.lastIdx
    witness (s: MapState) => MapState(s.prng, s.lastIdx + 1)

  /** The indices a generator in state `st` visits while they stay below
      `bound`, starting with its current last index: the positions the
      decoder and the sketch loops update, in the order they update them. */
  function Walk(step: StepFn, st: MapState, bound: nat): (idxs: seq<nat>)
    ensures Below(idxs, bound)
    ensures idxs == [] <==> st.lastIdx >= bound
    decreases bound - st.lastIdx
  {
    if st.lastIdx >= bound then []
    else
      var rest := Walk(step, step(st), bound);
      assert forall k :: 0 < k < |[st.lastIdx] + rest| ==> ([st.lastIdx] + rest)[k] == rest[k - 1];
      [st.lastIdx] + rest
  }

  /** A walk that has not reached its bound visits the current last index
      and continues from the next state. */
  lemma WalkUnfold(step: StepFn, st: MapState, bound: nat)
    requires st.lastIdx < bound
    ensures Walk(step, st, bound) == [st.lastIdx] + Walk(step, step(st), bound)
    ensures WalkEnd(step, st, bound) == WalkEnd(step, step(st), bound)
  {
  }

  /** A walk starts at the generator's current last index and strictly
      increases from there. */
  lemma {:induction false} WalkIncreasing(step: StepFn, st: MapState, bound: nat)
    ensures Increasing(Walk(step, st, bound))
    ensures forall k :: 0 <= k < |Walk(step, st, bound)| ==> st.lastIdx <= Walk(step, st, bound)[k]
    ensures Walk(step, st, bound) != [] ==> Walk(step, st, bound)[0] == st.lastIdx
    decreases bound - st.lastIdx
  {
    if st.lastIdx < bound {
      var rest := Walk(step, step(st), bound);
      WalkIncreasing(step, step(st), bound);
      var w := Walk(step, st, bound);
      assert w == [st.lastIdx] + rest;
      assert forall k :: 0 < k < |w| ==> w[k] == rest[k - 1];
    }
  }

  /** The generator state once such a walk stops: the first state whose last
      index is at or beyond `bound`. */
  function WalkEnd(step: StepFn, st: MapState, bound: nat): (end: MapState)
    ensures end.lastIdx >= bound && end.lastIdx >= st.lastIdx
    ensures st.lastIdx >= bound ==> end == st
    decreases bound - st.lastIdx
  {
    if st.lastIdx >= bound then st else WalkEnd(step, step(st), bound)
  }

  /** Stopping at `n + 1` instead of `n` takes one more step exactly when
      the walk stopped on `n` itself. */
  lemma {:induction false} WalkEndNext(step: StepFn, st: MapState, n: nat)
    ensures WalkEnd(step, st, n + 1)
         == if WalkEnd(step, st, n).lastIdx == n then step(WalkEnd(step, st, n)) else WalkEnd(step, st, n)
    decreases n - st.lastIdx
  {
    if st.lastIdx < n {
      WalkEndNext(step, step(st), n);
    }
  }

  /** Below the bound, a walk visits index `k` exactly when a walk stopped
      at `k` lands on `k` itself. */
  lemma {:induction false} WalkVisits(step: StepFn, st: MapState, k: nat, bound: nat)
    requires k < bound
    ensures k in Walk(step, st, bound) <==> WalkEnd(step, st, k).lastIdx == k
    decreases bound - st.lastIdx
  {
    if st.lastIdx < bound {
      var rest := Walk(step, step(st), bound);
      WalkUnfold(step, st, bound);
      assert k in Walk(step, st, bound) <==> k == st.lastIdx || k in rest;
      if st.lastIdx > k {
        WalkIncreasing(step, step(st), bound);
        assert k !in rest;
      } else if st.lastIdx < k {
        WalkVisits(step, step(st), k, bound);
      }
    }
  }

  /** The values `n` successive calls of NextIndex return from state `st`:
      a strictly increasing sequence above the starting index, determined by
      the starting state alone. */
  function Indices(step: StepFn, st: MapState, n: nat): (idxs: seq<nat>)
    ensures |idxs| == n && Increasing(idxs)
    ensures forall k :: 0 <= k < n ==> st.lastIdx < idxs[k]
    decreases n
  {
    if n == 0 then []
    else
      var rest := Indices(step, step(st), n - 1);
      assert forall k :: 0 < k < n ==> ([step(st).lastIdx] + rest)[k] == rest[k - 1];
      [step(st).lastIdx] + rest
  }

  /** A random mapping generator object. */
  class RandomMapping {
    const step: StepFn
    var prng: Prng
    var lastIdx: nat  // the index most recently reported

    /** The generator's state as a value. */
    function State(): MapState
      reads this
    {
      MapState(prng, lastIdx)
    }

    constructor (step: StepFn, prng: Prng, lastIdx: nat)
      ensures this.step == step
      ensures State() == MapState(prng, lastIdx)
    {
      this.step := step;
      this.prng := prng;
      this.lastIdx := lastIdx;
    }

    /** Advances the generator and returns the new last index, which is
        strictly greater than the previous one. */
    method NextIndex() returns (idx: nat)
      modifies this
      ensures State() == step(old(State()))
      ensures idx == lastIdx && idx > old(lastIdx)
    {
      var next := step(MapState(prng, lastIdx));
      prng := next.prng;
      lastIdx := next.lastIdx;
      idx := lastIdx;
    }
  }
}
