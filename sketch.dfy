/** The sketch: a fixed number of coded symbols of a set, computed directly
    from each symbol's mapping instead of through a coding window, that can
    be subtracted from another sketch and decoded. */
module Sketches {
  import opened Symbols
  import opened Mapping
  import opened Outcomes
  import opened Decoding
  import opened Encoding

  /** `m` empty coded symbols: the sketch of the empty set. */
  function Slots(m: nat): (cs: seq<CodedSymbol>)
    ensures |cs| == m && forall k :: 0 <= k < m ==> cs[k] == Empty
  {
    seq(m, _ => Empty)
  }

  /** The positions of a sketch with `n` slots that the symbol `t` lands in:
      the walk of a fresh mapping seeded with its hash. */
  function Footprint(step: StepFn, t: HashedSymbol, n: nat): (idxs: seq<nat>)
    ensures Below(idxs, n)
  {
    Walk(step, MapState(t.hash, 0), n)
  }

  /** The slots after each of `items`, in order, was applied with
      `direction` along its footprint. */
  function Added(step: StepFn, cs: seq<CodedSymbol>, items: seq<HashedSymbol>, direction: int): (r: seq<CodedSymbol>)
    ensures |r| == |cs|
    decreases |items|
  {
    if items == [] then cs
    else Added(step, ApplyAt(cs, Footprint(step, items[0], |cs|), items[0], direction), items[1..], direction)
  }

  /** The sketch of `m` slots of the set listed by `items`. */
  function SketchOf(step: StepFn, items: seq<HashedSymbol>, m: nat): (r: seq<CodedSymbol>)
    ensures |r| == m
  {
    Added(step, Slots(m), items, 1)
  }

  /** Adding a list of symbols and then more symbols is adding the joined list. */
  lemma {:induction false} AddedConcat(step: StepFn, cs: seq<CodedSymbol>, p: seq<HashedSymbol>, q: seq<HashedSymbol>, direction: int)
    ensures Added(step, cs, p + q, direction) == Added(step, Added(step, cs, p, direction), q, direction)
    decreases |p|
  {
    if p != [] {
      assert (p + q)[0] == p[0] && (p + q)[1..] == p[1..] + q;
      AddedConcat(step, ApplyAt(cs, Footprint(step, p[0], |cs|), p[0], direction), p[1..], q, direction);
    } else {
      assert p + q == q;
    }
  }

  /** Adding one more symbol after a list applies it along its footprint
      to the result: the step a sketch takes per added symbol. */
  lemma AddedSnoc(step: StepFn, cs: seq<CodedSymbol>, items: seq<HashedSymbol>, t: HashedSymbol, direction: int)
    ensures Added(step, cs, items + [t], direction)
         == ApplyAt(Added(step, cs, items, direction), Footprint(step, t, |cs|), t, direction)
  {
    AddedConcat(step, cs, items, [t], direction);
    var mid := Added(step, cs, items, direction);
    assert Added(step, mid, [t], direction) == Added(step, ApplyAt(mid, Footprint(step, t, |cs|), t, direction), [], direction);
  }

  /** A footprint is strictly increasing. */
  lemma FootprintIncreasing(step: StepFn, t: HashedSymbol, n: nat)
    ensures Increasing(Footprint(step, t, n))
  {
    WalkIncreasing(step, MapState(t.hash, 0), n);
  }

  /** Applying one symbol along its footprint and then a list gives the same
      slots as applying the list first. */
  lemma {:induction false} AddedCommuteOne(step: StepFn, cs: seq<CodedSymbol>, t: HashedSymbol, e: int,
                                           items: seq<HashedSymbol>, direction: int)
    ensures Added(step, ApplyAt(cs, Footprint(step, t, |cs|), t, e), items, direction)
         == ApplyAt(Added(step, cs, items, direction), Footprint(step, t, |cs|), t, e)
    decreases |items|
  {
    if items != [] {
      var u := items[0];
      var ft := Footprint(step, t, |cs|);
      var fu := Footprint(step, u, |cs|);
      FootprintIncreasing(step, t, |cs|);
      FootprintIncreasing(step, u, |cs|);
      ApplyAtCommutes(cs, ft, t, e, fu, u, direction);
      AddedCommuteOne(step, ApplyAt(cs, fu, u, direction), t, e, items[1..], direction);
    }
  }

  /** Two lists of symbols applied in either order give the same slots. */
  lemma {:induction false} AddedCommute(step: StepFn, cs: seq<CodedSymbol>, p: seq<HashedSymbol>, dp: int,
                                        q: seq<HashedSymbol>, dq: int)
    ensures Added(step, Added(step, cs, p, dp), q, dq) == Added(step, Added(step, cs, q, dq), p, dp)
    decreases |p|
  {
    if p != [] {
      var t := p[0];
      var ft := Footprint(step, t, |cs|);
      var cs' := ApplyAt(cs, ft, t, dp);
      AddedCommute(step, cs', p[1..], dp, q, dq);
      AddedCommuteOne(step, cs, t, dp, q, dq);
    }
  }

  /** Applying a list of symbols and then the same list in the opposite
      direction restores every slot. */
  lemma {:induction false} AddedUndo(step: StepFn, cs: seq<CodedSymbol>, items: seq<HashedSymbol>, direction: int)
    ensures Added(step, Added(step, cs, items, direction), items, -direction) == cs
    decreases |items|
  {
    if items != [] {
      var t := items[0];
      var ft := Footprint(step, t, |cs|);
      var once := ApplyAt(cs, ft, t, direction);
      var rest := Added(step, once, items[1..], direction);
      AddedCommuteOne(step, once, t, -direction, items[1..], direction);
      FootprintIncreasing(step, t, |cs|);
      ApplyAtUndo(cs, ft, t, direction);
      AddedUndo(step, cs, items[1..], direction);
    }
  }

  /** Subtracting slots that have a list of symbols added is removing that
      list from the difference. */
  lemma {:induction false} SubtractAdded(step: StepFn, a: seq<CodedSymbol>, b: seq<CodedSymbol>, items: seq<HashedSymbol>)
    requires |a| == |b|
    ensures SubtractAll(a, Added(step, b, items, 1)) == Added(step, SubtractAll(a, b), items, -1)
    decreases |items|
  {
    if items != [] {
      var t := items[0];
      var ft := Footprint(step, t, |b|);
      FootprintIncreasing(step, t, |b|);
      SubtractAllApplied(a, b, ft, t);
      SubtractAdded(step, a, ApplyAt(b, ft, t, 1), items[1..]);
    }
  }

  /** Subtracting the empty sketch changes nothing. */
  lemma SubtractSlots(a: seq<CodedSymbol>)
    ensures SubtractAll(a, Slots(|a|)) == a
  {
    forall k | 0 <= k < |a| ensures SubtractAll(a, Slots(|a|))[k] == a[k] {
      SubtractIdentities(a[k]);
    }
  }

  /** Subtracting a sketch from itself gives the empty sketch. */
  lemma SubtractSelf(a: seq<CodedSymbol>)
    ensures SubtractAll(a, a) == Slots(|a|)
  {
    forall k | 0 <= k < |a| ensures SubtractAll(a, a)[k] == Empty {
      SubtractIdentities(a[k]);
    }
  }

  /** Subtracting the sketch of `b` from the sketch of `a` removes every
      symbol of `b` from the sketch of `a`. */
  lemma SubtractSketches(step: StepFn, a: seq<HashedSymbol>, b: seq<HashedSymbol>, m: nat)
    ensures SubtractAll(SketchOf(step, a, m), SketchOf(step, b, m)) == Added(step, SketchOf(step, a, m), b, -1)
  {
    SubtractAdded(step, SketchOf(step, a, m), Slots(m), b);
    SubtractSlots(SketchOf(step, a, m));
  }

  /** The difference of two sketches depends only on the symmetric
      difference of their sets: symbols both sets hold cancel out. */
  lemma SymmetricDifference(step: StepFn, a: seq<HashedSymbol>, b: seq<HashedSymbol>, common: seq<HashedSymbol>, m: nat)
    ensures SubtractAll(SketchOf(step, a + common, m), SketchOf(step, b + common, m))
         == SubtractAll(SketchOf(step, a, m), SketchOf(step, b, m))
  {
    var sa := SketchOf(step, a, m);
    SubtractSketches(step, a + common, b + common, m);
    SubtractSketches(step, a, b, m);
    AddedConcat(step, Slots(m), a, common, 1);
    var x := Added(step, sa, common, 1);
    AddedConcat(step, x, b, common, -1);
    AddedCommute(step, sa, common, 1, b, -1);
    AddedUndo(step, Added(step, sa, b, -1), common, 1);
  }

  /** Taking the first symbol off one list and the same symbol off a list
      with the same symbols leaves lists with the same symbols. */
  lemma RemoveMatched(a: seq<HashedSymbol>, b: seq<HashedSymbol>, k: nat)
    requires multiset(a) == multiset(b) && a != [] && k < |b| && b[k] == a[0]
    ensures multiset(a[1..]) == multiset(b[..k] + b[k + 1..])
  {
    var x := a[0];
    var rest := b[..k] + b[k + 1..];
    assert a == [x] + a[1..];
    assert b == b[..k] + [x] + b[k + 1..];
    assert multiset(a[1..]) == multiset(a) - multiset{x};
    assert multiset(rest) == multiset(b) - multiset{x};
  }

  /** Two lists holding the same symbols, each as often, added in the same
      direction give the same slots. */
  lemma {:induction false} AddedPermutation(step: StepFn, cs: seq<CodedSymbol>, a: seq<HashedSymbol>, b: seq<HashedSymbol>, direction: int)
    requires multiset(a) == multiset(b)
    ensures Added(step, cs, a, direction) == Added(step, cs, b, direction)
    decreases |a|
  {
    if a == [] {
      assert |b| == |multiset(b)| == 0;
    } else {
      var x := a[0];
      assert x in multiset(a);
      var k :| 0 <= k < |b| && b[k] == x;
      var b1, b2 := b[..k], b[k + 1..];
      RemoveMatched(a, b, k);
      assert b == (b1 + [x]) + b2;
      var cs' := ApplyAt(cs, Footprint(step, x, |cs|), x, direction);
      AddedConcat(step, cs, b1 + [x], b2, direction);
      AddedSnoc(step, cs, b1, x, direction);
      AddedCommuteOne(step, cs, x, direction, b1, direction);
      AddedConcat(step, cs', b1, b2, direction);
      AddedPermutation(step, cs', a[1..], b1 + b2, direction);
    }
  }

  /** A sketch does not depend on the order its symbols were added in: any
      two listings of the same symbols give the same sketch. */
  lemma OrderIndependent(step: StepFn, a: seq<HashedSymbol>, b: seq<HashedSymbol>, m: nat)
    requires multiset(a) == multiset(b)
    ensures SketchOf(step, a, m) == SketchOf(step, b, m)
  {
    AddedPermutation(step, Slots(m), a, b, 1);
  }

  /** The positions below `i`, in increasing order, of the symbols of
      `items` whose footprint in `n` slots covers slot `k`. */
  function Hits(step: StepFn, items: seq<HashedSymbol>, i: nat, k: nat, n: nat): (js: seq<nat>)
    requires i <= |items|
    ensures Below(js, i)
    ensures forall j: nat :: j in js <==> j < i && k in Footprint(step, items[j], n)
    decreases i
  {
    if i == 0 then []
    else Hits(step, items, i - 1, k, n) + if k in Footprint(step, items[i - 1], n) then [i - 1] else []
  }

  /** The positions Hits lists are strictly increasing. */
  lemma {:induction false} HitsIncreasing(step: StepFn, items: seq<HashedSymbol>, i: nat, k: nat, n: nat)
    requires i <= |items|
    ensures Increasing(Hits(step, items, i, k, n))
    decreases i
  {
    if i > 0 {
      HitsIncreasing(step, items, i - 1, k, n);
    }
  }

  /** Slot `k` of slots with the first `i` of `items` added is the slot with
      every one of them whose footprint covers `k` folded in, in list order. */
  lemma {:induction false} AddedAt(step: StepFn, cs: seq<CodedSymbol>, items: seq<HashedSymbol>, i: nat, k: nat)
    requires i <= |items| && k < |cs|
    ensures Below(Hits(step, items, i, k, |cs|), |items|)
    ensures Added(step, cs, items[..i], 1)[k] == ApplyIdx(cs[k], items, Hits(step, items, i, k, |cs|), 1)
    decreases i
  {
    BelowWiden(Hits(step, items, i, k, |cs|), i, |items|);
    if i == 0 {
      assert items[..0] == [];
    } else {
      var p := items[..i - 1];
      var t := items[i - 1];
      assert items[..i] == p + [t];
      var ft := Footprint(step, t, |cs|);
      AddedSnoc(step, cs, p, t, 1);
      AddedAt(step, cs, items, i - 1, k);
      FootprintIncreasing(step, t, |cs|);
      ApplyAtPointwise(Added(step, cs, p, 1), ft, t, 1);
      var hp := Hits(step, items, i - 1, k, |cs|);
      if k in ft {
        ApplyIdxSnoc(cs[k], items, hp, i - 1, 1);
      } else {
        assert hp + [] == hp;
      }
    }
  }

  /** Increasing lists are distinct. */
  lemma IncreasingDistinct(js: seq<nat>)
    requires Increasing(js)
    ensures Distinct(js)
  {
  }

  /** The mappings of an encoder that holds `items`, all added before the
      first coded symbol, once it has produced `k` coded symbols: each
      symbol's walk stopped at `k`. */
  function MappingsAt(step: StepFn, items: seq<HashedSymbol>, k: nat): (ms: seq<MapState>)
    ensures |ms| == |items|
    ensures forall j :: 0 <= j < |items| ==> ms[j] == WalkEnd(step, MapState(items[j].hash, 0), k)
  {
    seq(|items|, j requires 0 <= j < |items| => WalkEnd(step, MapState(items[j].hash, 0), k))
  }

  /** Before the first coded symbol every mapping is fresh, and each window
      step moves the mappings from one index to the next. */
  lemma MappingsAtStep(step: StepFn, items: seq<HashedSymbol>, k: nat)
    ensures MappingsAt(step, items, 0) == seq(|items|, j requires 0 <= j < |items| => MapState(items[j].hash, 0))
    ensures Stepped(step, MappingsAt(step, items, k), k) == MappingsAt(step, items, k + 1)
  {
    var ms := MappingsAt(step, items, k);
    assert Ahead(ms, k);
    forall j | 0 <= j < |items| ensures Advance(step, ms, k)[j] == MappingsAt(step, items, k + 1)[j] {
      WalkEndNext(step, MapState(items[j].hash, 0), k);
    }
  }

  /** Slot `k` of the sketch of `items` is the coded symbol an encoder
      holding the same symbols produces at index `k`: the sketch is a prefix
      of the encoder's coded-symbol stream. */
  lemma SketchIsEncoderPrefix(step: StepFn, items: seq<HashedSymbol>, m: nat, k: nat)
    requires k < m
    ensures SketchOf(step, items, m)[k] == Fold(items, MappingsAt(step, items, k), k, Empty, 1)
  {
    var ms := MappingsAt(step, items, k);
    assert Ahead(ms, k);
    AddedAt(step, Slots(m), items, |items|, k);
    assert items[..|items|] == items;
    var hits := Hits(step, items, |items|, k, m);
    var due := Due(ms, k);
    forall j | 0 <= j < |items| ensures j in hits <==> j in due {
      WalkVisits(step, MapState(items[j].hash, 0), k, m);
    }
    HitsIncreasing(step, items, |items|, k, m);
    IncreasingDistinct(hits);
    IncreasingDistinct(due);
    ApplyIdxReorder(Empty, items, hits, due, 1);
  }

  /** The positions among the first `n` slots of `cs` that hold a decodable
      coded symbol, in increasing order: the list a decoder holds after
      receiving those slots with empty windows. */
  function DecodableAt(cs: seq<CodedSymbol>, n: nat, symHash: Sym -> Hash): (idxs: seq<nat>)
    requires n <= |cs|
    ensures Below(idxs, n)
    ensures forall k: nat :: k in idxs <==> k < n && Decodable(cs[k], symHash)
    decreases n
  {
    if n == 0 then []
    else DecodableAt(cs, n - 1, symHash) + if Decodable(cs[n - 1], symHash) then [n - 1] else []
  }

  /** Part way through walking `t` over the slots `cs` from generator state
      `st`, what is left of the walk takes `cs` to `goal`. */
  ghost predicate WalkLeft(step: StepFn, t: HashedSymbol, direction: int, goal: seq<CodedSymbol>,
                           cs: seq<CodedSymbol>, st: MapState)
  {
    ApplyAt(cs, Walk(step, st, |cs|), t, direction) == goal
  }

  /** One visit of the walk keeps what is left of it on course. */
  lemma WalkLeftStep(step: StepFn, t: HashedSymbol, direction: int, goal: seq<CodedSymbol>,
                     cs: seq<CodedSymbol>, st: MapState)
    requires WalkLeft(step, t, direction, goal, cs, st) && st.lastIdx < |cs|
    ensures WalkLeft(step, t, direction, goal, cs[st.lastIdx := ApplySymbol(cs[st.lastIdx], t, direction)], step(st))
  {
    WalkUnfold(step, st, |cs|);
    ApplyAtCons(cs, st.lastIdx, Walk(step, step(st), |cs|), t, direction);
  }

  /** A walk that has reached the end of the slots has reached its goal. */
  lemma WalkLeftDone(step: StepFn, t: HashedSymbol, direction: int, goal: seq<CodedSymbol>,
                     cs: seq<CodedSymbol>, st: MapState)
    requires WalkLeft(step, t, direction, goal, cs, st) && st.lastIdx >= |cs|
    ensures cs == goal
  {
  }

  /** Listing every one of the first `n` slots as decodable lists the
      positions `0` to `n - 1` in order. */
  lemma {:induction false} DecodableAtAll(cs: seq<CodedSymbol>, n: nat, symHash: Sym -> Hash)
    requires n <= |cs| && forall k :: 0 <= k < n ==> Decodable(cs[k], symHash)
    ensures |DecodableAt(cs, n, symHash)| == n
    ensures forall k :: 0 <= k < n ==> DecodableAt(cs, n, symHash)[k] == k
    decreases n
  {
    if n > 0 {
      DecodableAtAll(cs, n - 1, symHash);
    }
  }

  /** The decoding state of the slots `cs` handed to a decoder whose windows
      are empty: the slots as they are, the decodable ones listed, nothing
      recovered and nothing decoded. */
  function Fed(cs: seq<CodedSymbol>, symHash: Sym -> Hash): (st: Peel)
    ensures Below(st.decodable, |st.cs|) && st.cs == cs
    ensures forall k: nat :: k in st.decodable <==> k < |cs| && Decodable(cs[k], symHash)
    ensures st.remote == [] && st.local == [] && st.decoded == 0
  {
    Peel(cs, DecodableAt(cs, |cs|, symHash), [], [], [], [], 0)
  }

  /** One decoding round of at most `fuel` steps over the slots `cs`. */
  function DecodeRound(step: StepFn, symHash: Sym -> Hash, cs: seq<CodedSymbol>, fuel: nat): RoundEnd {
    Round(step, symHash, Fed(cs, symHash), 0, fuel)
  }

  /** Empty slots decode at once: nothing is recovered and every slot is
      finished. */
  lemma DecodeSlots(step: StepFn, symHash: Sym -> Hash, m: nat, fuel: nat)
    requires m <= fuel
    ensures var e := DecodeRound(step, symHash, Slots(m), fuel);
      && e.outcome == Ok && e.state.cs == Slots(m) && e.state.decoded == m
      && e.state.remote == [] && e.state.local == []
  {
    DecodableAtAll(Slots(m), m, symHash);
    RoundOverEmpty(step, symHash, Fed(Slots(m), symHash), 0, fuel);
  }

  /** Slots holding one symbol, added (`direction` 1) or removed (-1): the
      first slot holds it alone and every slot is empty or holds it alone. */
  lemma SingleSlots(step: StepFn, t: HashedSymbol, direction: int, m: nat)
    requires 0 < m
    ensures var cs := Added(step, Slots(m), [t], direction);
      && |cs| == m && cs[0] == CodedSymbol(t.symbol, t.hash, direction)
      && forall k :: 0 <= k < m ==> cs[k] == Empty || cs[k] == CodedSymbol(t.symbol, t.hash, direction)
  {
    var ft := Footprint(step, t, m);
    AddedSnoc(step, Slots(m), [], t, direction);
    assert [] + [t] == [t];
    FootprintIncreasing(step, t, m);
    ApplyAtPointwise(Slots(m), ft, t, direction);
    ApplyToEmpty(t, direction);
    WalkIncreasing(step, MapState(t.hash, 0), m);
  }

  /** Peeling the one symbol of such slots off along its footprint leaves
      empty slots and finds no new pure coded symbol. */
  lemma SinglePeeled(step: StepFn, symHash: Sym -> Hash, t: HashedSymbol, direction: int, m: nat)
    ensures var cs := Added(step, Slots(m), [t], direction);
      && ApplyAt(cs, Footprint(step, t, m), t, -direction) == Slots(m)
      && PureHits(cs, Footprint(step, t, m), t, -direction, symHash) == []
  {
    var ft := Footprint(step, t, m);
    var cs := Added(step, Slots(m), [t], direction);
    AddedSnoc(step, Slots(m), [], t, direction);
    assert [] + [t] == [t];
    FootprintIncreasing(step, t, m);
    ApplyAtUndo(Slots(m), ft, t, direction);
    PureHitsMembers(cs, ft, t, -direction, symHash);
    FirstIn(PureHits(cs, ft, t, -direction, symHash));
  }

  /** Visiting a first slot that holds one symbol alone, when peeling that
      symbol off along its footprint empties every slot and finds no new pure
      coded symbol: the symbol is recovered on the matching side and the
      slots are left empty. */
  lemma VisitSingle(step: StepFn, symHash: Sym -> Hash, st: Peel, t: HashedSymbol, direction: int)
    requires Below(st.decodable, |st.cs|) && 0 < |st.cs| && (direction == 1 || direction == -1)
    requires st.cs[0] == CodedSymbol(t.symbol, t.hash, direction)
    requires ApplyAt(st.cs, Footprint(step, t, |st.cs|), t, -direction) == Slots(|st.cs|)
    requires PureHits(st.cs, Footprint(step, t, |st.cs|), t, -direction, symHash) == []
    ensures var v := Visit(step, symHash, st, st.cs[0]);
      && v.cs == Slots(|st.cs|) && v.decodable == st.decodable && v.decoded == st.decoded + 1
      && v.remote == st.remote + (if direction == 1 then [t] else [])
      && v.local == st.local + (if direction == 1 then [] else [t])
  {
    var c := st.cs[0];
    assert Extract(c) == t;
    assert st.decodable + [] == st.decodable;
  }

  /** A round over a state that lists every slot, in order, whose first slot
      holds one symbol alone that peels off to leave empty slots: it
      recovers that symbol on the matching side and finishes every slot. */
  lemma RoundSingle(step: StepFn, symHash: Sym -> Hash, st: Peel, t: HashedSymbol, direction: int, fuel: nat)
    requires Below(st.decodable, |st.cs|) && 0 < |st.cs| && (direction == 1 || direction == -1)
    requires |st.decodable| == |st.cs| <= fuel && st.decodable[0] == 0
    requires st.remote == [] && st.local == [] && st.decoded == 0
    requires st.cs[0] == CodedSymbol(t.symbol, t.hash, direction)
    requires ApplyAt(st.cs, Footprint(step, t, |st.cs|), t, -direction) == Slots(|st.cs|)
    requires PureHits(st.cs, Footprint(step, t, |st.cs|), t, -direction, symHash) == []
    ensures var e := Round(step, symHash, st, 0, fuel);
      && e.outcome == Ok && e.state.cs == Slots(|st.cs|) && e.state.decoded == |st.cs|
      && e.state.remote == (if direction == 1 then [t] else [])
      && e.state.local == (if direction == 1 then [] else [t])
  {
    var v := Visit(step, symHash, st, st.cs[0]);
    assert && v.cs == Slots(|st.cs|) && v.decodable == st.decodable && v.decoded == 1
           && v.remote == (if direction == 1 then [t] else [])
           && v.local == (if direction == 1 then [] else [t]) by {
      VisitSingle(step, symHash, st, t, direction);
    }
    RoundFirstThenEmpty(step, symHash, st, fuel);
  }

  /** Slots, each empty or holding the first slot's single symbol, which
      peeling that symbol off along its footprint empties without finding a
      new pure coded symbol, decode to that symbol on the matching side. */
  lemma DecodeFirstClears(step: StepFn, symHash: Sym -> Hash, cs: seq<CodedSymbol>, t: HashedSymbol, direction: int, fuel: nat)
    requires 0 < |cs| <= fuel && (direction == 1 || direction == -1) && symHash(t.symbol) == t.hash
    requires cs[0] == CodedSymbol(t.symbol, t.hash, direction)
    requires forall k :: 0 <= k < |cs| ==> cs[k] == Empty || cs[k] == cs[0]
    requires ApplyAt(cs, Footprint(step, t, |cs|), t, -direction) == Slots(|cs|)
    requires PureHits(cs, Footprint(step, t, |cs|), t, -direction, symHash) == []
    ensures var e := DecodeRound(step, symHash, cs, fuel);
      && e.outcome == Ok && e.state.cs == Slots(|cs|) && e.state.decoded == |cs|
      && e.state.remote == (if direction == 1 then [t] else [])
      && e.state.local == (if direction == 1 then [] else [t])
  {
    var st := Fed(cs, symHash);
    assert |st.decodable| == |cs| && st.decodable[0] == 0 by {
      forall k | 0 <= k < |cs| ensures Decodable(cs[k], symHash) {
      }
      DecodableAtAll(cs, |cs|, symHash);
    }
    RoundSingle(step, symHash, st, t, direction, fuel);
  }

  /** Slots holding one symbol decode to that symbol on the matching side,
      and peeling it leaves the slots empty. */
  lemma DecodeSingle(step: StepFn, symHash: Sym -> Hash, t: HashedSymbol, direction: int, m: nat, fuel: nat)
    requires (direction == 1 || direction == -1) && symHash(t.symbol) == t.hash && 0 < m <= fuel
    ensures var e := DecodeRound(step, symHash, Added(step, Slots(m), [t], direction), fuel);
      && e.outcome == Ok && e.state.cs == Slots(m) && e.state.decoded == m
      && e.state.remote == (if direction == 1 then [t] else [])
      && e.state.local == (if direction == 1 then [] else [t])
  {
    var cs := Added(step, Slots(m), [t], direction);
    assert |cs| == m && cs[0] == CodedSymbol(t.symbol, t.hash, direction)
        && forall k :: 0 <= k < m ==> cs[k] == Empty || cs[k] == cs[0] by {
      SingleSlots(step, t, direction, m);
    }
    SinglePeeled(step, symHash, t, direction, m);
    DecodeFirstClears(step, symHash, Added(step, Slots(m), [t], direction), t, direction, fuel);
  }

  /** Two sets that hold the same symbols: the difference of their sketches
      decodes at once to nothing. */
  lemma DecodeSameSets(step: StepFn, symHash: Sym -> Hash, items: seq<HashedSymbol>, m: nat, fuel: nat)
    requires m <= fuel
    ensures var e := DecodeRound(step, symHash, SubtractAll(SketchOf(step, items, m), SketchOf(step, items, m)), fuel);
      && e.outcome == Ok && e.state.remote == [] && e.state.local == [] && e.state.decoded == m
  {
    SubtractSelf(SketchOf(step, items, m));
    DecodeSlots(step, symHash, m, fuel);
  }

  /** Two sets of which the first holds one symbol more: the difference of
      their sketches decodes to exactly that symbol, on the first set's side. */
  lemma DecodeOneMore(step: StepFn, symHash: Sym -> Hash, t: HashedSymbol, common: seq<HashedSymbol>, m: nat, fuel: nat)
    requires symHash(t.symbol) == t.hash && 0 < m <= fuel
    ensures var e := DecodeRound(step, symHash, SubtractAll(SketchOf(step, [t] + common, m), SketchOf(step, common, m)), fuel);
      && e.outcome == Ok && e.state.remote == [t] && e.state.local == [] && e.state.decoded == m
  {
    assert [] + common == common;
    SymmetricDifference(step, [t], [], common, m);
    SubtractSketches(step, [t], [], m);
    DecodeSingle(step, symHash, t, 1, m, fuel);
  }

  /** Two sets of which the second holds one symbol more: the difference of
      their sketches decodes to exactly that symbol, on the second set's side. */
  lemma DecodeOneLess(step: StepFn, symHash: Sym -> Hash, t: HashedSymbol, common: seq<HashedSymbol>, m: nat, fuel: nat)
    requires symHash(t.symbol) == t.hash && 0 < m <= fuel
    ensures var e := DecodeRound(step, symHash, SubtractAll(SketchOf(step, common, m), SketchOf(step, [t] + common, m)), fuel);
      && e.outcome == Ok && e.state.remote == [] && e.state.local == [t] && e.state.decoded == m
  {
    assert [] + common == common;
    SymmetricDifference(step, [], [t], common, m);
    SubtractSketches(step, [], [t], m);
    DecodeSingle(step, symHash, t, -1, m, fuel);
  }

  /** What decoding a sketch returns: the symbols only the sketch's side
      holds, the symbols only the other side holds, and whether every slot
      was finished. */
  datatype Decoded = Decoded(fwd: seq<HashedSymbol>, rev: seq<HashedSymbol>, succ: bool)

  /** A decoder whose windows are empty peels nothing off a coded symbol it
      receives: it stores the symbol as it is and lists it when it is
      decodable. */
  method Receive(dec: Decoder, c: CodedSymbol)
    requires dec.Valid()
    requires dec.local.symbols == [] && dec.window.symbols == [] && dec.remote.symbols == []
    modifies dec, dec.local, dec.local.queue, dec.window, dec.window.queue, dec.remote, dec.remote.queue
    ensures dec.Valid()
    ensures dec.cs == old(dec.cs) + [c] && dec.decoded == old(dec.decoded)
    ensures dec.decodable == old(dec.decodable) + if Decodable(c, dec.symHash) then [|old(dec.cs)|] else []
    ensures dec.local.symbols == [] && dec.window.symbols == [] && dec.remote.symbols == []
  {
    dec.AddCodedSymbol(c);
  }

  /** Hands the coded symbols `cs`, in order, to a decoder whose windows are
      empty: nothing is peeled, so the decoder holds exactly `cs` and lists
      the decodable ones. */
  method Feed(dec: Decoder, cs: seq<CodedSymbol>)
    requires dec.Valid()
    requires dec.cs == [] && dec.decodable == [] && dec.decoded == 0
    requires dec.local.symbols == [] && dec.window.symbols == [] && dec.remote.symbols == []
    modifies dec, dec.local, dec.local.queue, dec.window, dec.window.queue, dec.remote, dec.remote.queue
    ensures dec.Valid()
    ensures dec.cs == cs && dec.decodable == DecodableAt(cs, |cs|, dec.symHash) && dec.decoded == 0
    ensures dec.local.symbols == [] && dec.window.symbols == [] && dec.remote.symbols == []
  {
    for i := 0 to |cs|
      invariant dec.Valid()
      invariant dec.cs == cs[..i] && dec.decodable == DecodableAt(cs, i, dec.symHash) && dec.decoded == 0
      invariant dec.local.symbols == [] && dec.window.symbols == [] && dec.remote.symbols == []
    {
      Receive(dec, cs[i]);
      assert cs[..i + 1] == cs[..i] + [cs[i]];
    }
  }

  class Sketch {
    const step: StepFn
    const symHash: Sym -> Hash
    const s: array<CodedSymbol>

    /** A sketch of `m` slots of the empty set. */
    constructor (m: nat, step: StepFn, symHash: Sym -> Hash)
      ensures this.step == step && this.symHash == symHash
      ensures fresh(s) && s[..] == Slots(m)
    {
      this.step := step;
      this.symHash := symHash;
      var a := new CodedSymbol[m];
      for i := 0 to m
        invariant forall k :: 0 <= k < i ==> a[k] == Empty
      {
        a[i] := CodedSymbol(Identity, 0, 0);
      }
      s := a;
    }

    /** Adds a symbol, hashed with the symbol type's hash, to the set. */
    method AddSymbol(t: Sym)
      modifies s
      ensures s[..] == ApplyAt(old(s[..]), Footprint(step, HashedSymbol(t, symHash(t)), s.Length), HashedSymbol(t, symHash(t)), 1)
    {
      var hs := HashedSymbol(t, symHash(t));
      AddHashedSymbol(hs);
    }

    /** Removes a symbol, hashed with the symbol type's hash, from the set. */
    method RemoveSymbol(t: Sym)
      modifies s
      ensures s[..] == ApplyAt(old(s[..]), Footprint(step, HashedSymbol(t, symHash(t)), s.Length), HashedSymbol(t, symHash(t)), -1)
    {
      var hs := HashedSymbol(t, symHash(t));
      RemoveHashedSymbol(hs);
    }

    /** Adds a symbol with its hash to the set: applies it, counting up, to
        every slot of its footprint. */
    method AddHashedSymbol(t: HashedSymbol)
      modifies s
      ensures s[..] == ApplyAt(old(s[..]), Footprint(step, t, s.Length), t, 1)
    {
      Walkthrough(t, 1);
    }

    /** Removes a symbol with its hash from the set: applies it, counting
        down, to every slot of its footprint. */
    method RemoveHashedSymbol(t: HashedSymbol)
      modifies s
      ensures s[..] == ApplyAt(old(s[..]), Footprint(step, t, s.Length), t, -1)
    {
      Walkthrough(t, -1);
    }

    /** The loop both add and remove run: walks a fresh mapping of `t` over
        the slots and applies `t` in `direction` at each index it visits. */
    method Walkthrough(t: HashedSymbol, direction: int)
      modifies s
      ensures s[..] == ApplyAt(old(s[..]), Footprint(step, t, s.Length), t, direction)
    {
      ghost var goal := ApplyAt(s[..], Footprint(step, t, s.Length), t, direction);
      var m := new RandomMapping(step, t.hash, 0);
      while m.lastIdx < s.Length
        modifies m, s
        invariant m.step == step
        invariant WalkLeft(step, t, direction, goal, s[..], m.State())
        decreases s.Length - m.lastIdx
      {
        var idx := m.lastIdx;
        ghost var before := s[..];
        WalkLeftStep(step, t, direction, goal, before, m.State());
        var c := s[idx];
        var c' := c.(symbol := Xor(c.symbol, t.symbol), count := c.count + direction, hash := Xor(c.hash, t.hash));
        assert c' == ApplySymbol(before[idx], t, direction);
        s[idx] := c';
        assert forall k :: 0 <= k < |before| ==> s[..][k] == before[idx := c'][k];
        var _ := m.NextIndex();
      }
      WalkLeftDone(step, t, direction, goal, s[..], m.State());
    }

    /** Subtracts `other` from this sketch slot by slot.  Sketches of
        different sizes are refused, and this sketch is then left as it was. */
    method Subtract(other: Sketch) returns (r: Outcome)
      modifies s
      ensures s.Length != other.s.Length ==> r == Fail(SizeMismatch) && s[..] == old(s[..])
      ensures s.Length == other.s.Length ==> r == Ok && s[..] == SubtractAll(old(s[..]), old(other.s[..]))
    {
      if s.Length != other.s.Length {
        return Fail(SizeMismatch);
      }
      for i := 0 to s.Length
        invariant forall k :: 0 <= k < i ==> s[k] == Symbols.Subtract(old(s[k]), old(other.s[k]))
        invariant forall k :: i <= k < s.Length ==> s[k] == old(s[k]) && other.s[k] == old(other.s[k])
      {
        var c := s[i];
        var d := other.s[i];
        s[i] := c.(symbol := Xor(c.symbol, d.symbol), count := c.count - d.count, hash := Xor(c.hash, d.hash));
      }
      return Ok;
    }

    /** Replaces the slots by `cs`. */
    method Overwrite(cs: seq<CodedSymbol>)
      requires |cs| == s.Length
      modifies s
      ensures s[..] == cs
    {
      forall i | 0 <= i < s.Length {
        s[i] := cs[i];
      }
    }

    /** Decodes the sketch: feeds its slots to a fresh decoder and runs one
        decoding round of at most `fuel` steps.  The decoder peels the very
        coded symbols the sketch holds, so afterwards the slots are what the
        decoder left of them. */
    method Decode(fuel: nat) returns (r: Result<Decoded>, ghost dec: Decoder)
      modifies s
      ensures fresh(dec) && dec.Valid() && dec.step == step && dec.symHash == symHash
      ensures dec.window.symbols == [] && |dec.cs| == s.Length && s[..] == dec.cs
      ensures var e := DecodeRound(step, symHash, old(s[..]), fuel);
        && s[..] == e.state.cs
        && (r.Failure? <==> e.outcome.Fail?)
        && (r.Failure? ==> r.error == e.outcome.error)
        && (r.Success? ==> r.value == Decoded(e.state.remote, e.state.local, e.state.decoded == s.Length))
    {
      var d := new Decoder(step, symHash);
      dec := d;
      Feed(d, s[..]);
      assert d.Snapshot() == Fed(s[..], symHash);
      var o, _ := d.TryDecode(fuel);
      Overwrite(d.cs);
      if o.Fail? {
        return Failure(o.error), dec;
      }
      r := Success(Decoded(d.GetRemote(), d.GetLocal(), d.IsDecoded()));
    }
  }
}
