/** The decoder: receives coded symbols of a remote set, peels off the
    symbols it already knows, and recovers the symbols that are exclusive to
    either side from the coded symbols that become pure. */
module Decoding {
  import opened Symbols
  import opened Mapping
  import opened Heap
  import opened Encoding
  import opened Outcomes

  /** A coded symbol that holds exactly one source symbol, recognised by its
      degree being 1 or -1 and its hash being the hash of its symbol. */
  predicate Pure(c: CodedSymbol, symHash: Sym -> Hash) {
    (c.count == 1 || c.count == -1) && c.hash == symHash(c.symbol)
  }

  /** A coded symbol the decoder can finish: pure, or holding nothing (degree
      0 and hash 0). */
  predicate Decodable(c: CodedSymbol, symHash: Sym -> Hash) {
    Pure(c, symHash) || (c.count == 0 && c.hash == 0)
  }

  /** The source symbol held by a pure coded symbol, copied out of it the
      way the decoder does: a fresh identity symbol combined with the coded
      symbol's sum, and the coded symbol's hash. */
  function Extract(c: CodedSymbol): (s: HashedSymbol)
    ensures s.symbol == c.symbol && s.hash == c.hash
  {
    var ns := HashedSymbol(Identity, 0);
    var ns := ns.(symbol := Xor(ns.symbol, c.symbol));
    XorIdentity(c.symbol);
    ns.(hash := c.hash)
  }

  /** The positions, in visiting order, at which applying `t` along `idxs`
      leaves a pure coded symbol: the entries a peeling pass appends to the
      decodable list. */
  function PureHits(cs: seq<CodedSymbol>, idxs: seq<nat>, t: HashedSymbol, direction: int, symHash: Sym -> Hash): (hits: seq<nat>)
    requires Below(idxs, |cs|)
    ensures Below(hits, |cs|)
    decreases |idxs|
  {
    if idxs == [] then []
    else
      var c := ApplySymbol(cs[idxs[0]], t, direction);
      var rest := PureHits(cs[idxs[0] := c], idxs[1..], t, direction, symHash);
      assert forall k :: 0 < k < |[idxs[0]] + rest| ==> ([idxs[0]] + rest)[k] == rest[k - 1];
      (if Pure(c, symHash) then [idxs[0]] else []) + rest
  }

  /** Along strictly increasing positions, a position is reported by
      PureHits exactly when it is one of the positions and its coded symbol is
      pure once the whole pass is over. */
  lemma {:induction false} PureHitsMembers(cs: seq<CodedSymbol>, idxs: seq<nat>, t: HashedSymbol, direction: int, symHash: Sym -> Hash)
    requires Below(idxs, |cs|) && Increasing(idxs)
    ensures forall k :: k in PureHits(cs, idxs, t, direction, symHash) <==>
      k in idxs && Pure(ApplyAt(cs, idxs, t, direction)[k], symHash)
    decreases |idxs|
  {
    if idxs != [] {
      var i := idxs[0];
      var c := ApplySymbol(cs[i], t, direction);
      var cs' := cs[i := c];
      var rest := idxs[1..];
      assert Below(rest, |cs'|) && Increasing(rest);
      PureHitsMembers(cs', rest, t, direction, symHash);
      ApplyAtPointwise(cs', rest, t, direction);
      assert i !in rest by {
        forall l | 0 <= l < |rest| ensures rest[l] != i {
          assert rest[l] == idxs[l + 1];
        }
      }
      assert ApplyAt(cs, idxs, t, direction)[i] == c;
      forall k ensures k in idxs <==> k == i || k in rest {
        if k in idxs {
          var l :| 0 <= l < |idxs| && idxs[l] == k;
          if l > 0 {
            assert rest[l - 1] == k;
          }
        }
      }
    }
  }

  /** Peeling the symbol extracted from a pure coded symbol off it, in the
      direction that cancels its degree, leaves the empty coded symbol. */
  lemma PeelPure(c: CodedSymbol, symHash: Sym -> Hash)
    requires Pure(c, symHash)
    ensures ApplySymbol(c, Extract(c), -c.count) == Empty
  {
    XorSelfInverse(c.symbol);
    XorSelfInverse(c.hash);
  }

  /** The state of a peeling pass part way through: what is left of the walk
      from `st` over `cs` finishes the pass with the coded symbols `finalCs`,
      the decodable list `finalDec` and the mapping state `finalSt`. */
  ghost predicate PassInv(step: StepFn, t: HashedSymbol, direction: int, symHash: Sym -> Hash,
                          finalCs: seq<CodedSymbol>, finalDec: seq<nat>, finalSt: MapState,
                          cs: seq<CodedSymbol>, st: MapState, dec: seq<nat>)
  {
    && WalkEnd(step, st, |cs|) == finalSt
    && ApplyAt(cs, Walk(step, st, |cs|), t, direction) == finalCs
    && dec + PureHits(cs, Walk(step, st, |cs|), t, direction, symHash) == finalDec
  }

  /** One visit of a peeling pass keeps the pass's state consistent. */
  lemma PassStep(step: StepFn, t: HashedSymbol, direction: int, symHash: Sym -> Hash,
                 finalCs: seq<CodedSymbol>, finalDec: seq<nat>, finalSt: MapState,
                 cs: seq<CodedSymbol>, st: MapState, dec: seq<nat>, dec': seq<nat>)
    requires PassInv(step, t, direction, symHash, finalCs, finalDec, finalSt, cs, st, dec)
    requires st.lastIdx < |cs|
    requires dec' == dec + if Pure(ApplySymbol(cs[st.lastIdx], t, direction), symHash) then [st.lastIdx] else []
    ensures PassInv(step, t, direction, symHash, finalCs, finalDec, finalSt,
                    cs[st.lastIdx := ApplySymbol(cs[st.lastIdx], t, direction)], step(st), dec')
  {
    WalkUnfold(step, st, |cs|);
    VisitStep(t, direction, symHash, finalCs, finalDec, cs, st.lastIdx, Walk(step, step(st), |cs|), dec, dec');
  }

  /** The same step on the positions alone: visiting the first of the
      positions `[i] + rest` leaves `rest` to finish the same pass. */
  lemma VisitStep(t: HashedSymbol, direction: int, symHash: Sym -> Hash,
                  finalCs: seq<CodedSymbol>, finalDec: seq<nat>,
                  cs: seq<CodedSymbol>, i: nat, rest: seq<nat>, dec: seq<nat>, dec': seq<nat>)
    requires i < |cs| && Below(rest, |cs|) && Below([i] + rest, |cs|)
    requires ApplyAt(cs, [i] + rest, t, direction) == finalCs
    requires dec + PureHits(cs, [i] + rest, t, direction, symHash) == finalDec
    requires dec' == dec + if Pure(ApplySymbol(cs[i], t, direction), symHash) then [i] else []
    ensures ApplyAt(cs[i := ApplySymbol(cs[i], t, direction)], rest, t, direction) == finalCs
    ensures dec' + PureHits(cs[i := ApplySymbol(cs[i], t, direction)], rest, t, direction, symHash) == finalDec
  {
    VisitFirst(cs, i, rest, t, direction, symHash);
    var c := ApplySymbol(cs[i], t, direction);
    var here := if Pure(c, symHash) then [i] else [];
    assert (dec + here) + PureHits(cs[i := c], rest, t, direction, symHash)
        == dec + (here + PureHits(cs[i := c], rest, t, direction, symHash));
  }

  /** A pass whose walk has reached the end has finished. */
  lemma PassDone(step: StepFn, t: HashedSymbol, direction: int, symHash: Sym -> Hash,
                 finalCs: seq<CodedSymbol>, finalDec: seq<nat>, finalSt: MapState,
                 cs: seq<CodedSymbol>, st: MapState, dec: seq<nat>)
    requires PassInv(step, t, direction, symHash, finalCs, finalDec, finalSt, cs, st, dec)
    requires st.lastIdx >= |cs|
    ensures cs == finalCs && dec == finalDec && st == finalSt
  {
    assert Walk(step, st, |cs|) == [];
    assert dec + [] == dec;
  }

  /** Visiting the first position of a pass, as ApplyAt and PureHits see it. */
  lemma VisitFirst(cs: seq<CodedSymbol>, i: nat, rest: seq<nat>, t: HashedSymbol, direction: int, symHash: Sym -> Hash)
    requires i < |cs| && Below(rest, |cs|)
    ensures Below([i] + rest, |cs|)
    ensures var c := ApplySymbol(cs[i], t, direction);
      && ApplyAt(cs, [i] + rest, t, direction) == ApplyAt(cs[i := c], rest, t, direction)
      && PureHits(cs, [i] + rest, t, direction, symHash)
         == (if Pure(c, symHash) then [i] else []) + PureHits(cs[i := c], rest, t, direction, symHash)
  {
    var w := [i] + rest;
    assert forall k :: 0 < k < |w| ==> w[k] == rest[k - 1];
    assert w[1..] == rest;
  }

  /** The loop of a peeling pass: walks a fresh mapping of `t` over `cs`,
      applying `t` in `direction` at every index it visits and appending to
      `dec` each index whose coded symbol is then pure. */
  method PeelingPass(step: StepFn, symHash: Sym -> Hash, cs: seq<CodedSymbol>, dec: seq<nat>, t: HashedSymbol, direction: int)
    returns (coded: seq<CodedSymbol>, dec': seq<nat>, m: RandomMapping)
    ensures fresh(m) && m.step == step
    ensures m.State() == WalkEnd(step, MapState(t.hash, 0), |cs|)
    ensures coded == ApplyAt(cs, Walk(step, MapState(t.hash, 0), |cs|), t, direction)
    ensures dec' == dec + PureHits(cs, Walk(step, MapState(t.hash, 0), |cs|), t, direction, symHash)
  {
    m := new RandomMapping(step, t.hash, 0);
    ghost var walk := Walk(step, m.State(), |cs|);
    ghost var finalCs := ApplyAt(cs, walk, t, direction);
    ghost var finalDec := dec + PureHits(cs, walk, t, direction, symHash);
    ghost var finalSt := WalkEnd(step, m.State(), |cs|);
    coded := cs;
    dec' := dec;
    while m.lastIdx < |coded|
      modifies m
      invariant m.step == step && |coded| == |cs|
      invariant PassInv(step, t, direction, symHash, finalCs, finalDec, finalSt, coded, m.State(), dec')
      decreases |coded| - m.lastIdx
    {
      var cidx := m.lastIdx;
      ghost var st := m.State();
      ghost var codedBefore := coded;
      ghost var decBefore := dec';
      coded := coded[cidx := ApplySymbol(coded[cidx], t, direction)];
      // list the coded symbol when it is now pure
      if (coded[cidx].count == -1 || coded[cidx].count == 1) && coded[cidx].hash == symHash(coded[cidx].symbol) {
        dec' := dec' + [cidx];
      }
      PassStep(step, t, direction, symHash, finalCs, finalDec, finalSt, codedBefore, st, decBefore, dec');
      var _ := m.NextIndex();
    }
    PassDone(step, t, direction, symHash, finalCs, finalDec, finalSt, coded, m.State(), dec');
  }

  /** The part of a decoder's state a decoding round reads and changes: the
      coded symbols, the decodable list, the symbols and mappings of the two
      windows of recovered symbols, and the number of decoded entries. */
  datatype Peel = Peel(cs: seq<CodedSymbol>, decodable: seq<nat>,
                       remote: seq<HashedSymbol>, remoteMaps: seq<MapState>,
                       local: seq<HashedSymbol>, localMaps: seq<MapState>,
                       decoded: nat)

  /** Peeling the symbol a pure coded symbol `c` holds along its walk,
      against its degree: the coded symbols it reaches change, those that
      become pure are listed, one more entry counts as decoded, and the
      recovered symbols stay as they are. */
  function Peeled(step: StepFn, symHash: Sym -> Hash, st: Peel, c: CodedSymbol): (r: Peel)
    requires Below(st.decodable, |st.cs|)
    ensures |r.cs| == |st.cs| && Below(r.decodable, |r.cs|) && st.decodable <= r.decodable
    ensures r.remote == st.remote && r.remoteMaps == st.remoteMaps
    ensures r.local == st.local && r.localMaps == st.localMaps
    ensures r.decoded == st.decoded + 1
  {
    var walk := Walk(step, MapState(c.hash, 0), |st.cs|);
    var hits := PureHits(st.cs, walk, Extract(c), -c.count, symHash);
    BelowConcat(st.decodable, hits, |st.cs|);
    st.(cs := ApplyAt(st.cs, walk, Extract(c), -c.count), decodable := st.decodable + hits, decoded := st.decoded + 1)
  }

  /** One visit of a decoding round to the coded symbol `c`.  Degree 1:
      the symbol `c` holds exists only on the encoder's side; it is removed
      along its walk from every coded symbol, the coded symbols that become
      pure are listed, and it joins the remote symbols with the mapping where
      its walk stopped.  Degree -1: the same for a symbol only the decoder's
      side has, added back and joining the local symbols.  Degree 0: only
      counted.  Any other degree leaves the state as it is. */
  function Visit(step: StepFn, symHash: Sym -> Hash, st: Peel, c: CodedSymbol): (r: Peel)
    requires Below(st.decodable, |st.cs|)
    ensures |r.cs| == |st.cs| && Below(r.decodable, |r.cs|)
    ensures st.decodable <= r.decodable
    ensures st.remote <= r.remote && st.local <= r.local
    ensures |r.remote| - |st.remote| + |r.local| - |st.local| <= 1
    ensures r.decoded == if c.count == 1 || c.count == -1 || c.count == 0 then st.decoded + 1 else st.decoded
  {
    var stop := WalkEnd(step, MapState(c.hash, 0), |st.cs|);
    if c.count == 1 then
      var p := Peeled(step, symHash, st, c);
      p.(remote := st.remote + [Extract(c)], remoteMaps := st.remoteMaps + [stop])
    else if c.count == -1 then
      var p := Peeled(step, symHash, st, c);
      p.(local := st.local + [Extract(c)], localMaps := st.localMaps + [stop])
    else if c.count == 0 then st.(decoded := st.decoded + 1)
    else st
  }

  /** A visit to a pure coded symbol of degree 1 recovers a remote symbol:
      the state after it, written out field by field. */
  lemma VisitRemote(step: StepFn, symHash: Sym -> Hash, st: Peel, c: CodedSymbol)
    requires Below(st.decodable, |st.cs|) && c.count == 1
    ensures var walk := Walk(step, MapState(c.hash, 0), |st.cs|);
      Visit(step, symHash, st, c)
      == st.(cs := ApplyAt(st.cs, walk, Extract(c), -1),
             decodable := st.decodable + PureHits(st.cs, walk, Extract(c), -1, symHash),
             remote := st.remote + [Extract(c)],
             remoteMaps := st.remoteMaps + [WalkEnd(step, MapState(c.hash, 0), |st.cs|)],
             decoded := st.decoded + 1)
  {
  }

  /** A visit to a pure coded symbol of degree -1 recovers a local symbol:
      the state after it, written out field by field. */
  lemma VisitLocal(step: StepFn, symHash: Sym -> Hash, st: Peel, c: CodedSymbol)
    requires Below(st.decodable, |st.cs|) && c.count == -1
    ensures var walk := Walk(step, MapState(c.hash, 0), |st.cs|);
      Visit(step, symHash, st, c)
      == st.(cs := ApplyAt(st.cs, walk, Extract(c), 1),
             decodable := st.decodable + PureHits(st.cs, walk, Extract(c), 1, symHash),
             local := st.local + [Extract(c)],
             localMaps := st.localMaps + [WalkEnd(step, MapState(c.hash, 0), |st.cs|)],
             decoded := st.decoded + 1)
  {
  }

  /** How a decoding round ends: its outcome, the state it leaves behind,
      the decodable list as it stood when the round stopped, and the number
      of entries visited. */
  datatype RoundEnd = RoundEnd(outcome: Outcome, state: Peel, listed: seq<nat>, visited: nat)

  /** A decoding round from entry `didx` of the decodable list on, with at
      most `fuel` visits counted from the start of the list: each entry is
      visited in order, entries that visits append included; a visited
      coded symbol whose degree is not 1, -1 or 0 stops the round with an
      error, and a round that lists every entry it visits empties the list. */
  function Round(step: StepFn, symHash: Sym -> Hash, st: Peel, didx: nat, fuel: nat): RoundEnd
    requires Below(st.decodable, |st.cs|) && didx <= |st.decodable| && didx <= fuel
    decreases fuel - didx
  {
    if didx == |st.decodable| then RoundEnd(Ok, st.(decodable := []), st.decodable, didx)
    else if didx == fuel then RoundEnd(Fail(OutOfFuel), st, st.decodable, didx)
    else
      var c := st.cs[st.decodable[didx]];
      if c.count == 1 || c.count == -1 || c.count == 0 then Round(step, symHash, Visit(step, symHash, st, c), didx + 1, fuel)
      else RoundEnd(Fail(InvalidDegree(c.count)), st, st.decodable, didx)
  }

  /** A round that visits an entry of degree 1, -1 or 0 goes on from the
      next entry in the state the visit leaves. */
  lemma RoundStep(step: StepFn, symHash: Sym -> Hash, st: Peel, didx: nat, fuel: nat)
    requires Below(st.decodable, |st.cs|) && didx < |st.decodable| && didx < fuel
    requires var c := st.cs[st.decodable[didx]]; c.count == 1 || c.count == -1 || c.count == 0
    ensures var v := Visit(step, symHash, st, st.cs[st.decodable[didx]]);
      didx + 1 <= |v.decodable| && Round(step, symHash, st, didx, fuel) == Round(step, symHash, v, didx + 1, fuel)
  {
  }

  /** Where a round stops at once: every listed entry visited, no fuel
      left, or an entry of invalid degree. */
  lemma RoundStops(step: StepFn, symHash: Sym -> Hash, st: Peel, didx: nat, fuel: nat)
    requires Below(st.decodable, |st.cs|) && didx <= |st.decodable| && didx <= fuel
    ensures didx == |st.decodable| ==> Round(step, symHash, st, didx, fuel) == RoundEnd(Ok, st.(decodable := []), st.decodable, didx)
    ensures didx < |st.decodable| && didx == fuel ==>
      Round(step, symHash, st, didx, fuel) == RoundEnd(Fail(OutOfFuel), st, st.decodable, didx)
    ensures didx < |st.decodable| && didx < fuel ==>
      var c := st.cs[st.decodable[didx]];
      !(c.count == 1 || c.count == -1 || c.count == 0) ==>
      Round(step, symHash, st, didx, fuel) == RoundEnd(Fail(InvalidDegree(c.count)), st, st.decodable, didx)
  {
  }

  /** What a decoding round keeps: the coded symbols keep their number, the
      decodable list only grows until the round stops, and every visit counts
      one decoded entry. */
  lemma {:induction false} RoundCounts(step: StepFn, symHash: Sym -> Hash, st: Peel, didx: nat, fuel: nat)
    requires Below(st.decodable, |st.cs|) && didx <= |st.decodable| && didx <= fuel
    ensures var e := Round(step, symHash, st, didx, fuel);
      && |e.state.cs| == |st.cs| && Below(e.listed, |st.cs|) && st.decodable <= e.listed
    decreases fuel - didx
  {
    if didx == |st.decodable| {
    } else if didx == fuel {
    } else {
      var c := st.cs[st.decodable[didx]];
      if c.count == 1 || c.count == -1 || c.count == 0 {
        var v := Visit(step, symHash, st, c);
        RoundCounts(step, symHash, v, didx + 1, fuel);
      }
    }
  }

  lemma {:induction false} RoundVisits(step: StepFn, symHash: Sym -> Hash, st: Peel, didx: nat, fuel: nat)
    requires Below(st.decodable, |st.cs|) && didx <= |st.decodable| && didx <= fuel
    ensures var e := Round(step, symHash, st, didx, fuel);
      && didx <= e.visited <= fuel && e.visited <= |e.listed|
    decreases fuel - didx
  {
    if didx == |st.decodable| {
    } else if didx == fuel {
    } else {
      var c := st.cs[st.decodable[didx]];
      if c.count == 1 || c.count == -1 || c.count == 0 {
        var v := Visit(step, symHash, st, c);
        RoundVisits(step, symHash, v, didx + 1, fuel);
      }
    }
  }

  lemma {:induction false} RoundDecoded(step: StepFn, symHash: Sym -> Hash, st: Peel, didx: nat, fuel: nat)
    requires Below(st.decodable, |st.cs|) && didx <= |st.decodable| && didx <= fuel
    ensures var e := Round(step, symHash, st, didx, fuel);
      e.state.decoded == st.decoded + (e.visited - didx)
    decreases fuel - didx
  {
    if didx == |st.decodable| {
    } else if didx == fuel {
    } else {
      var c := st.cs[st.decodable[didx]];
      if c.count == 1 || c.count == -1 || c.count == 0 {
        var v := Visit(step, symHash, st, c);
        RoundDecoded(step, symHash, v, didx + 1, fuel);
      }
    }
  }

  /** Recovered symbols are only appended, at most one per visit. */
  lemma {:induction false} RoundRecovers(step: StepFn, symHash: Sym -> Hash, st: Peel, didx: nat, fuel: nat)
    requires Below(st.decodable, |st.cs|) && didx <= |st.decodable| && didx <= fuel
    ensures var e := Round(step, symHash, st, didx, fuel);
      && st.remote <= e.state.remote && st.local <= e.state.local
      && |e.state.remote| - |st.remote| + |e.state.local| - |st.local| <= e.visited - didx
    decreases fuel - didx
  {
    if didx == |st.decodable| {
    } else if didx == fuel {
    } else {
      var c := st.cs[st.decodable[didx]];
      if c.count == 1 || c.count == -1 || c.count == 0 {
        var v := Visit(step, symHash, st, c);
        RoundRecovers(step, symHash, v, didx + 1, fuel);
      }
    }
  }

  /** How a decoding round can end: a successful round visited every
      listed entry and emptied the list; a failed one leaves the list as it
      stood, with entries left; running out of fuel means `fuel` visits,
      and an invalid degree is the degree, not 1, -1 or 0, of the entry the
      round stopped at. */
  lemma {:induction false} RoundEnds(step: StepFn, symHash: Sym -> Hash, st: Peel, didx: nat, fuel: nat)
    requires Below(st.decodable, |st.cs|) && didx <= |st.decodable| && didx <= fuel
    ensures var e := Round(step, symHash, st, didx, fuel);
      && (e.outcome == Ok ==> e.state.decodable == [] && e.visited == |e.listed|)
      && (e.outcome.Fail? ==> e.state.decodable == e.listed && e.visited < |e.listed| && Below(e.listed, |e.state.cs|))
      && (e.outcome.Fail? ==> e.outcome.error.OutOfFuel? || e.outcome.error.InvalidDegree?)
      && (e.outcome == Fail(OutOfFuel) ==> e.visited == fuel)
      && (e.outcome.Fail? && e.outcome.error.InvalidDegree? ==>
            && e.outcome.error.count != 1 && e.outcome.error.count != -1 && e.outcome.error.count != 0
            && e.state.cs[e.listed[e.visited]].count == e.outcome.error.count)
    decreases fuel - didx
  {
    if didx == |st.decodable| {
    } else if didx == fuel {
    } else {
      var c := st.cs[st.decodable[didx]];
      if c.count == 1 || c.count == -1 || c.count == 0 {
        var v := Visit(step, symHash, st, c);
        RoundEnds(step, symHash, v, didx + 1, fuel);
      }
    }
  }

  /** A round over listed entries that all hold nothing (degree 0) finishes
      them all, one decoded count each, and recovers no symbol. */
  lemma {:induction false} RoundOverEmpty(step: StepFn, symHash: Sym -> Hash, st: Peel, didx: nat, fuel: nat)
    requires Below(st.decodable, |st.cs|) && didx <= |st.decodable| <= fuel
    requires forall k :: didx <= k < |st.decodable| ==> st.cs[st.decodable[k]].count == 0
    ensures Round(step, symHash, st, didx, fuel)
         == RoundEnd(Ok, st.(decodable := [], decoded := st.decoded + |st.decodable| - didx), st.decodable, |st.decodable|)
    decreases fuel - didx
  {
    if didx < |st.decodable| {
      RoundOverEmpty(step, symHash, st.(decoded := st.decoded + 1), didx + 1, fuel);
    }
  }

  /** A round whose first visit leaves only entries of degree 0 listed
      finishes after visiting every listed entry. */
  lemma RoundFirstThenEmpty(step: StepFn, symHash: Sym -> Hash, st: Peel, fuel: nat)
    requires Below(st.decodable, |st.cs|) && 0 < |st.decodable| <= fuel
    requires var c := st.cs[st.decodable[0]]; c.count == 1 || c.count == -1 || c.count == 0
    requires var v := Visit(step, symHash, st, st.cs[st.decodable[0]]);
      |v.decodable| <= fuel && forall k :: 1 <= k < |v.decodable| ==> v.cs[v.decodable[k]].count == 0
    ensures var v := Visit(step, symHash, st, st.cs[st.decodable[0]]);
      Round(step, symHash, st, 0, fuel)
      == RoundEnd(Ok, v.(decodable := [], decoded := v.decoded + |v.decodable| - 1), v.decodable, |v.decodable|)
  {
    RoundStep(step, symHash, st, 0, fuel);
    RoundOverEmpty(step, symHash, Visit(step, symHash, st, st.cs[st.decodable[0]]), 1, fuel);
  }

  /** A decoder for the coded symbols of a remote set against a local set. */
  class Decoder {
    const step: StepFn
    const symHash: Sym -> Hash
    var cs: seq<CodedSymbol>      // every coded symbol received, peeled as far as known
    const local: CodingWindow     // recovered symbols only the decoder's side has
    const window: CodingWindow    // the decoder's own set
    const remote: CodingWindow    // recovered symbols only the encoder's side has
    var decodable: seq<nat>       // positions in cs waiting for the next decoding round
    var decoded: nat              // how many coded symbols have been finished

    /** The three windows are separate objects, each consistent, all stepped
        as far as index `n`, and the windows of recovered symbols have no
        mapping behind that point. */
    ghost predicate WindowsAt(n: nat)
      reads local, local.queue, window, window.queue, remote, remote.queue
    {
      && local != window && local != remote && window != remote
      && local.queue != window.queue && local.queue != remote.queue && window.queue != remote.queue
      && local.Valid() && window.Valid() && remote.Valid()
      && local.step == step && window.step == step && remote.step == step
      && local.nextIdx == n && window.nextIdx == n && remote.nextIdx == n
      && Ahead(local.mappings, n) && Ahead(remote.mappings, n)
    }

    /** The windows are stepped as far as the coded symbols received, and
        every decodable entry names a received coded symbol. */
    ghost predicate Valid()
      reads this`cs, this`decodable, local, local.queue, window, window.queue, remote, remote.queue
    {
      WindowsAt(|cs|) && Below(decodable, |cs|)
    }

    constructor (step: StepFn, symHash: Sym -> Hash)
      ensures Valid()
      ensures this.step == step && this.symHash == symHash
      ensures cs == [] && decodable == [] && decoded == 0
      ensures local.symbols == [] && window.symbols == [] && remote.symbols == []
      ensures fresh(local) && fresh(local.queue) && fresh(window) && fresh(window.queue) && fresh(remote) && fresh(remote.queue)
    {
      this.step := step;
      this.symHash := symHash;
      cs := [];
      local := new CodingWindow(step, symHash);
      window := new CodingWindow(step, symHash);
      remote := new CodingWindow(step, symHash);
      decodable := [];
      decoded := 0;
    }

    /** Whether every received coded symbol has been decoded. */
    function IsDecoded(): (done: bool)
      reads this
      ensures done <==> decoded == |cs|
    {
      decoded == |cs|
    }

    /** The recovered symbols that only the decoder's side has. */
    function GetLocal(): (syms: seq<HashedSymbol>)
      reads this, local
      ensures syms == local.symbols
    {
      local.GetSymbols()
    }

    /** The recovered symbols that only the encoder's side has. */
    function GetRemote(): (syms: seq<HashedSymbol>)
      reads this, remote
      ensures syms == remote.symbols
    {
      remote.GetSymbols()
    }

    /** Adds a local source symbol, hashed with the symbol type's hash. */
    method AddSymbol(s: Sym)
      requires Valid()
      modifies window, window.queue
      ensures Valid()
      ensures window.symbols == old(window.symbols) + [HashedSymbol(s, symHash(s))]
      ensures window.mappings == old(window.mappings) + [MapState(symHash(s), 0)]
    {
      var th := HashedSymbol(s, symHash(s));
      AddHashedSymbol(th);
    }

    /** Adds a local source symbol with its hash. */
    method AddHashedSymbol(s: HashedSymbol)
      requires Valid()
      modifies window, window.queue
      ensures Valid()
      ensures window.symbols == old(window.symbols) + [s]
      ensures window.mappings == old(window.mappings) + [MapState(s.hash, 0)]
    {
      window.AddHashedSymbol(s);
    }

    /** Peels a coded symbol arriving at index `n` through the three
        windows: off the local symbols, off the recovered remote symbols, and
        back on with the recovered local symbols. */
    method PeelWindows(c: CodedSymbol, ghost n: nat) returns (r: CodedSymbol)
      requires WindowsAt(n)
      modifies local, local.queue, window, window.queue, remote, remote.queue
      ensures WindowsAt(n + 1)
      ensures local.symbols == old(local.symbols) && window.symbols == old(window.symbols) && remote.symbols == old(remote.symbols)
      ensures window.mappings == Stepped(step, old(window.mappings), n)
      ensures remote.mappings == Advance(step, old(remote.mappings), n)
      ensures local.mappings == Advance(step, old(local.mappings), n)
      ensures var c1 := Fold(window.symbols, old(window.mappings), n, c, -1);
        var c2 := ApplyIdx(c1, remote.symbols, Due(old(remote.mappings), n), -1);
        r == ApplyIdx(c2, local.symbols, Due(old(local.mappings), n), 1)
    {
      var c1 := window.ApplyWindow(c, -1);
      var c2 := remote.ApplyWindow(c1, -1);
      r := local.ApplyWindow(c2, 1);
    }

    /** Receives the next coded symbol: peels it through the windows, stores
        the result and lists it when it is decodable. */
    method AddCodedSymbol(c: CodedSymbol)
      requires Valid()
      modifies this, local, local.queue, window, window.queue, remote, remote.queue
      ensures Valid()
      ensures local.symbols == old(local.symbols) && window.symbols == old(window.symbols) && remote.symbols == old(remote.symbols)
      ensures window.mappings == Stepped(step, old(window.mappings), |old(cs)|)
      ensures remote.mappings == Advance(step, old(remote.mappings), |old(cs)|)
      ensures local.mappings == Advance(step, old(local.mappings), |old(cs)|)
      ensures var n := |old(cs)|;
        var c1 := Fold(window.symbols, old(window.mappings), n, c, -1);
        var c2 := ApplyIdx(c1, remote.symbols, Due(old(remote.mappings), n), -1);
        cs == old(cs) + [ApplyIdx(c2, local.symbols, Due(old(local.mappings), n), 1)]
      ensures decodable == old(decodable) + if Decodable(cs[|cs| - 1], symHash) then [|cs| - 1] else []
      ensures decoded == old(decoded)
    {
      var c3 := PeelWindows(c, |cs|);
      Store(c3);
    }

    /** Appends a peeled coded symbol and lists it when it is decodable. */
    method Store(c: CodedSymbol)
      requires WindowsAt(|cs| + 1) && Below(decodable, |cs|)
      modifies this
      ensures Valid()
      ensures cs == old(cs) + [c]
      ensures decodable == old(decodable) + if Decodable(c, symHash) then [|old(cs)|] else []
      ensures decoded == old(decoded)
    {
      var idx := |cs|;
      var listed: seq<nat> := [];
      // the two arms of Decodable, in the order they are tested
      if (c.count == 1 || c.count == -1) && c.hash == symHash(c.symbol) {
        listed := [idx];
      } else if c.count == 0 && c.hash == 0 {
        listed := [idx];
      }
      assert listed == if Decodable(c, symHash) then [idx] else [];
      BelowWiden(decodable, idx, idx + 1);
      BelowConcat(decodable, listed, idx + 1);
      cs := cs + [c];
      decodable := decodable + listed;
    }

    /** Applies `t` in `direction` to every received coded symbol its
        mapping reaches, lists each one that becomes pure, and returns the
        mapping, now at the first index beyond the received ones. */
    method ApplyNewSymbol(t: HashedSymbol, direction: int) returns (m: RandomMapping)
      requires Valid()
      modifies this
      ensures Valid()
      ensures fresh(m) && m.step == step
      ensures m.State() == WalkEnd(step, MapState(t.hash, 0), |cs|)
      ensures cs == ApplyAt(old(cs), Walk(step, MapState(t.hash, 0), |old(cs)|), t, direction)
      ensures decodable == old(decodable) + PureHits(old(cs), Walk(step, MapState(t.hash, 0), |old(cs)|), t, direction, symHash)
      ensures decoded == old(decoded)
    {
      var coded, dec;
      coded, dec, m := PeelingPass(step, symHash, cs, decodable, t, direction);
      BelowConcat(decodable, PureHits(cs, Walk(step, MapState(t.hash, 0), |cs|), t, direction, symHash), |cs|);
      cs := coded;
      decodable := dec;
    }

    /** The state a decoding round reads and changes. */
    function Snapshot(): Peel
      reads this, local, remote
    {
      Peel(cs, decodable, remote.symbols, remote.mappings, local.symbols, local.mappings, decoded)
    }

    /** Decodes one peeling round, as Round describes it: visits the
        decodable entries in order, including those listed while visiting,
        recovers a remote symbol from each entry of degree 1 and a local
        symbol from each of degree -1, counts entries of degree 0 as decoded,
        and clears the list.  A visited entry of any other degree stops the
        round with an error.  Visiting is bounded by `fuel` steps. */
    method TryDecode(fuel: nat) returns (r: Outcome, ghost visited: nat)
      requires Valid()
      modifies this, local, local.queue, remote, remote.queue
      ensures Valid()
      ensures var e := Round(step, symHash, old(Snapshot()), 0, fuel);
        r == e.outcome && Snapshot() == e.state && visited == e.visited
    {
      ghost var s0 := Snapshot();
      var didx := 0;
      r := Ok;
      while didx < |decodable|
        invariant Valid() && |cs| == |s0.cs|
        invariant didx <= |decodable| && didx <= fuel
        invariant Round(step, symHash, Snapshot(), didx, fuel) == Round(step, symHash, s0, 0, fuel)
        decreases fuel - didx
      {
        if didx == fuel {
          RoundStops(step, symHash, Snapshot(), didx, fuel);
          r := Fail(OutOfFuel);
          break;
        }
        var cidx := decodable[didx];
        var c := cs[cidx];
        if c.count == 1 || c.count == -1 || c.count == 0 {
          VisitListed(didx, fuel);
        } else {
          RoundStops(step, symHash, Snapshot(), didx, fuel);
          r := Fail(InvalidDegree(c.count));
          break;
        }
        didx := didx + 1;
      }
      if r == Ok {
        RoundStops(step, symHash, Snapshot(), didx, fuel);
        decodable := [];
      }
      visited := didx;
    }

    /** Visits the entry at position `didx` of the decodable list, one step
        of the round that `Round` describes. */
    method VisitListed(didx: nat, ghost fuel: nat)
      requires Valid() && didx < |decodable| && didx < fuel
      requires var c := cs[decodable[didx]]; c.count == 1 || c.count == -1 || c.count == 0
      modifies this, local, local.queue, remote, remote.queue
      ensures Valid() && |cs| == |old(cs)| && didx < |decodable|
      ensures Round(step, symHash, Snapshot(), didx + 1, fuel) == Round(step, symHash, old(Snapshot()), didx, fuel)
    {
      ghost var before := Snapshot();
      RoundStep(step, symHash, before, didx, fuel);
      VisitEntry(cs[decodable[didx]]);
    }

    /** One visit of a decoding round to a coded symbol of degree 1, -1 or
        0: recovers a remote symbol, recovers a local symbol, or counts it. */
    method VisitEntry(c: CodedSymbol)
      requires Valid() && (c.count == 1 || c.count == -1 || c.count == 0)
      modifies this, local, local.queue, remote, remote.queue
      ensures Valid() && |cs| == |old(cs)|
      ensures Snapshot() == Visit(step, symHash, old(Snapshot()), c)
    {
      if c.count == 1 {
        AddRemoteCodedSymbol(c);
      } else if c.count == -1 {
        AddLocalCodedSymbol(c);
      } else {
        decoded := decoded + 1;
      }
    }

    /** Recovers a symbol exclusive to the encoder's side from a pure coded
        symbol: peels it off every coded symbol its mapping reaches and adds
        it, with that mapping, to the remote window. */
    method AddRemoteCodedSymbol(c: CodedSymbol)
      requires Valid()
      modifies this, remote, remote.queue
      ensures Valid() && |cs| == |old(cs)|
      ensures remote.symbols == old(remote.symbols) + [Extract(c)]
      ensures remote.mappings == old(remote.mappings) + [WalkEnd(step, MapState(c.hash, 0), |cs|)]
      ensures cs == ApplyAt(old(cs), Walk(step, MapState(c.hash, 0), |cs|), Extract(c), -1)
      ensures decodable == old(decodable) + PureHits(old(cs), Walk(step, MapState(c.hash, 0), |cs|), Extract(c), -1, symHash)
      ensures decoded == old(decoded) + 1
      ensures local.symbols == old(local.symbols) && local.mappings == old(local.mappings)
      ensures c.count == 1 ==> Snapshot() == Visit(step, symHash, old(Snapshot()), c)
    {
      ghost var st := Snapshot();
      if c.count == 1 {
        VisitRemote(step, symHash, st, c);
      }
      var ns := Extract(c);
      var m := ApplyNewSymbol(ns, -1);
      RecordRemote(ns, m);
    }

    /** Recovers a symbol exclusive to the decoder's side from a pure coded
        symbol: adds it back to every coded symbol its mapping reaches and
        adds it, with that mapping, to the local window. */
    method AddLocalCodedSymbol(c: CodedSymbol)
      requires Valid()
      modifies this, local, local.queue
      ensures Valid() && |cs| == |old(cs)|
      ensures local.symbols == old(local.symbols) + [Extract(c)]
      ensures local.mappings == old(local.mappings) + [WalkEnd(step, MapState(c.hash, 0), |cs|)]
      ensures cs == ApplyAt(old(cs), Walk(step, MapState(c.hash, 0), |cs|), Extract(c), 1)
      ensures decodable == old(decodable) + PureHits(old(cs), Walk(step, MapState(c.hash, 0), |cs|), Extract(c), 1, symHash)
      ensures decoded == old(decoded) + 1
      ensures remote.symbols == old(remote.symbols) && remote.mappings == old(remote.mappings)
      ensures c.count == -1 ==> Snapshot() == Visit(step, symHash, old(Snapshot()), c)
    {
      ghost var st := Snapshot();
      if c.count == -1 {
        VisitLocal(step, symHash, st, c);
      }
      var ns := Extract(c);
      var m := ApplyNewSymbol(ns, 1);
      RecordLocal(ns, m);
    }

    /** Adds a symbol recovered from the encoder's side, with its mapping,
        to the remote window and counts it as decoded. */
    method RecordRemote(ns: HashedSymbol, m: RandomMapping)
      requires Valid() && m.step == step && m.lastIdx >= |cs|
      modifies this, remote, remote.queue
      ensures Valid()
      ensures remote.symbols == old(remote.symbols) + [ns]
      ensures remote.mappings == old(remote.mappings) + [m.State()]
      ensures cs == old(cs) && decodable == old(decodable) && decoded == old(decoded) + 1
    {
      remote.AddHashedSymbolWithMapping(ns, m);
      AheadSnoc(old(remote.mappings), m.State(), |cs|);
      decoded := decoded + 1;
    }

    /** Adds a symbol recovered from the decoder's side, with its mapping,
        to the local window and counts it as decoded. */
    method RecordLocal(ns: HashedSymbol, m: RandomMapping)
      requires Valid() && m.step == step && m.lastIdx >= |cs|
      modifies this, local, local.queue
      ensures Valid()
      ensures local.symbols == old(local.symbols) + [ns]
      ensures local.mappings == old(local.mappings) + [m.State()]
      ensures cs == old(cs) && decodable == old(decodable) && decoded == old(decoded) + 1
    {
      local.AddHashedSymbolWithMapping(ns, m);
      AheadSnoc(old(local.mappings), m.State(), |cs|);
      decoded := decoded + 1;
    }

    /** Drops every coded symbol, every source symbol and every recovered one. */
    method Reset()
      requires Valid()
      modifies this, local, local.queue, window, window.queue, remote, remote.queue
      ensures Valid()
      ensures cs == [] && decodable == [] && decoded == 0
      ensures local.symbols == [] && window.symbols == [] && remote.symbols == []
    {
      cs := [];
      decodable := [];
      local.Reset();
      remote.Reset();
      window.Reset();
      decoded := 0;
    }
  }
}
