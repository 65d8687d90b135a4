/** The coding window and the encoder.

    A coding window holds source symbols, the state of each symbol's random
    mapping, a heap of (symbol, next index) entries, and the index of the
    next coded symbol.  Producing one coded symbol folds in exactly those
    symbols whose mapping is due at that index, then moves every folded
    symbol's mapping one step on. */
module Encoding {
  import opened Symbols
  import opened Mapping
  import opened Heap

  /** No position occurs twice in `js`. */
  ghost predicate Distinct(js: seq<nat>) {
    forall a, b :: 0 <= a < b < |js| ==> js[a] != js[b]
  }

  /** Folds the source symbols at positions `js` of `syms` into `c`, in the
      order of `js`. */
  function ApplyIdx(c: CodedSymbol, syms: seq<HashedSymbol>, js: seq<nat>, direction: int): CodedSymbol
    requires Below(js, |syms|)
    decreases |js|
  {
    if js == [] then c else ApplyIdx(ApplySymbol(c, syms[js[0]], direction), syms, js[1..], direction)
  }

  /** The combination of the symbols at positions `js`. */
  function SymSum(syms: seq<HashedSymbol>, js: seq<nat>): Sym
    requires Below(js, |syms|)
    decreases |js|
  {
    if js == [] then Identity else Xor(syms[js[0]].symbol, SymSum(syms, js[1..]))
  }

  /** The exclusive-or of the hashes of the symbols at positions `js`. */
  function HashSum(syms: seq<HashedSymbol>, js: seq<nat>): Hash
    requires Below(js, |syms|)
    decreases |js|
  {
    if js == [] then 0 else Xor(syms[js[0]].hash, HashSum(syms, js[1..]))
  }

  /** Folding symbols in combines their values into the coded symbol's value. */
  lemma {:induction false} ApplyIdxSymbol(c: CodedSymbol, syms: seq<HashedSymbol>, js: seq<nat>, direction: int)
    requires Below(js, |syms|)
    ensures ApplyIdx(c, syms, js, direction).symbol == Xor(c.symbol, SymSum(syms, js))
    decreases |js|
  {
    if js == [] {
      XorIdentity(c.symbol);
    } else {
      ApplyIdxSymbol(ApplySymbol(c, syms[js[0]], direction), syms, js[1..], direction);
      XorAssociative(c.symbol, syms[js[0]].symbol, SymSum(syms, js[1..]));
    }
  }

  /** Folding symbols in combines their hashes into the coded symbol's hash. */
  lemma {:induction false} ApplyIdxHash(c: CodedSymbol, syms: seq<HashedSymbol>, js: seq<nat>, direction: int)
    requires Below(js, |syms|)
    ensures ApplyIdx(c, syms, js, direction).hash == Xor(c.hash, HashSum(syms, js))
    decreases |js|
  {
    if js == [] {
      XorIdentity(c.hash);
    } else {
      ApplyIdxHash(ApplySymbol(c, syms[js[0]], direction), syms, js[1..], direction);
      XorAssociative(c.hash, syms[js[0]].hash, HashSum(syms, js[1..]));
    }
  }

  /** Folding symbols in moves the degree by `direction` once per symbol. */
  lemma {:induction false} ApplyIdxCount(c: CodedSymbol, syms: seq<HashedSymbol>, js: seq<nat>, direction: int)
    requires Below(js, |syms|)
    ensures ApplyIdx(c, syms, js, direction).count == c.count + direction * |js|
    decreases |js|
  {
    if js != [] {
      ApplyIdxCount(ApplySymbol(c, syms[js[0]], direction), syms, js[1..], direction);
      assert direction * |js| == direction + direction * |js[1..]|;
    }
  }

  /** Folding symbols in combines their values and hashes into the coded
      symbol and moves its degree by `direction` once per symbol. */
  lemma ApplyIdxClosedForm(c: CodedSymbol, syms: seq<HashedSymbol>, js: seq<nat>, direction: int)
    requires Below(js, |syms|)
    ensures ApplyIdx(c, syms, js, direction)
         == CodedSymbol(Xor(c.symbol, SymSum(syms, js)), Xor(c.hash, HashSum(syms, js)), c.count + direction * |js|)
  {
    ApplyIdxSymbol(c, syms, js, direction);
    ApplyIdxHash(c, syms, js, direction);
    ApplyIdxCount(c, syms, js, direction);
  }

  /** Folding one more symbol in at the end. */
  lemma {:induction false} ApplyIdxSnoc(c: CodedSymbol, syms: seq<HashedSymbol>, js: seq<nat>, x: nat, direction: int)
    requires Below(js, |syms|) && x < |syms|
    ensures Below(js + [x], |syms|)
    ensures ApplyIdx(c, syms, js + [x], direction) == ApplySymbol(ApplyIdx(c, syms, js, direction), syms[x], direction)
    decreases |js|
  {
    assert forall k :: 0 <= k < |js| ==> (js + [x])[k] == js[k];
    if js != [] {
      assert (js + [x])[1..] == js[1..] + [x];
      ApplyIdxSnoc(ApplySymbol(c, syms[js[0]], direction), syms, js[1..], x, direction);
    }
  }

  /** Any one symbol of the list can be folded in first. */
  lemma {:induction false} ApplyIdxPullOut(c: CodedSymbol, syms: seq<HashedSymbol>, js: seq<nat>, k: nat, direction: int)
    requires Below(js, |syms|) && k < |js|
    ensures Below(js[..k] + js[k + 1..], |syms|)
    ensures ApplyIdx(c, syms, js, direction)
         == ApplyIdx(ApplySymbol(c, syms[js[k]], direction), syms, js[..k] + js[k + 1..], direction)
    decreases k
  {
    var rest := js[..k] + js[k + 1..];
    assert forall i :: 0 <= i < |rest| ==> rest[i] == if i < k then js[i] else js[i + 1];
    if k > 0 {
      var a := syms[js[0]];
      var b := syms[js[k]];
      var tail := js[1..][..k - 1] + js[1..][k..];
      ApplyIdxPullOut(ApplySymbol(c, a, direction), syms, js[1..], k - 1, direction);
      assert js[1..][k - 1] == js[k];
      assert tail == rest[1..];
      ApplyCommutes(c, a, direction, b, direction);
      calc {
        ApplyIdx(c, syms, js, direction);
        ApplyIdx(ApplySymbol(c, a, direction), syms, js[1..], direction);
        ApplyIdx(ApplySymbol(ApplySymbol(c, a, direction), b, direction), syms, tail, direction);
        ApplyIdx(ApplySymbol(ApplySymbol(c, b, direction), a, direction), syms, rest[1..], direction);
        { assert rest[0] == js[0]; }
        ApplyIdx(ApplySymbol(c, b, direction), syms, rest, direction);
      }
    } else {
      assert rest == js[1..];
    }
  }

  /** Taking the same position out of two distinct lists with the same
      members leaves two lists with the same members. */
  lemma SameMembersWithout(js1: seq<nat>, js2: seq<nat>, k: nat)
    requires Distinct(js1) && Distinct(js2) && js1 != [] && k < |js2| && js2[k] == js1[0]
    requires forall j :: j in js1 <==> j in js2
    ensures Distinct(js1[1..]) && Distinct(js2[..k] + js2[k + 1..])
    ensures forall j :: j in js1[1..] <==> j in js2[..k] + js2[k + 1..]
  {
    var x := js1[0];
    var rest2 := js2[..k] + js2[k + 1..];
    assert forall i :: 0 <= i < |rest2| ==> rest2[i] == if i < k then js2[i] else js2[i + 1];
    assert forall i :: 0 <= i < |js1[1..]| ==> js1[1..][i] == js1[i + 1];
    forall j ensures j in js1[1..] <==> j in rest2 {
      if j in js1[1..] {
        var a :| 0 <= a < |js1[1..]| && js1[1..][a] == j;
        assert js1[a + 1] == j && j != x;
        assert j in js2;
        var b :| 0 <= b < |js2| && js2[b] == j;
        assert b != k;
        if b < k {
          assert rest2[b] == j;
        } else {
          assert rest2[b - 1] == j;
        }
      }
      if j in rest2 {
        var a :| 0 <= a < |rest2| && rest2[a] == j;
        var b := if a < k then a else a + 1;
        assert js2[b] == j && b != k;
        assert j in js1;
        var b1 :| 0 <= b1 < |js1| && js1[b1] == j;
        assert b1 != 0;
        assert js1[1..][b1 - 1] == j;
      }
    }
  }

  /** The order in which a set of distinct symbols is folded in does not
      matter. */
  lemma {:induction false} ApplyIdxReorder(c: CodedSymbol, syms: seq<HashedSymbol>, js1: seq<nat>, js2: seq<nat>, direction: int)
    requires Below(js1, |syms|) && Below(js2, |syms|) && Distinct(js1) && Distinct(js2)
    requires forall j :: j in js1 <==> j in js2
    ensures ApplyIdx(c, syms, js1, direction) == ApplyIdx(c, syms, js2, direction)
    decreases |js1|
  {
    if js1 == [] {
      if js2 != [] {
        FirstIn(js2);
        assert false;
      }
    } else {
      var x := js1[0];
      assert x in js2;
      var k :| 0 <= k < |js2| && js2[k] == x;
      ApplyIdxPullOut(c, syms, js2, k, direction);
      SameMembersWithout(js1, js2, k);
      ApplyIdxReorder(ApplySymbol(c, syms[x], direction), syms, js1[1..], js2[..k] + js2[k + 1..], direction);
    }
  }

  /** The positions `j >= i` whose mapping is due at index `n`, ascending. */
  function DueFrom(ms: seq<MapState>, n: nat, i: nat): (js: seq<nat>)
    requires i <= |ms|
    ensures Below(js, |ms|) && Increasing(js)
    ensures |js| <= |ms| - i
    ensures forall k :: 0 <= k < |js| ==> i <= js[k]
    ensures forall j :: j in js <==> i <= j < |ms| && ms[j].lastIdx == n
    decreases |ms| - i
  {
    if i == |ms| then []
    else
      var rest := DueFrom(ms, n, i + 1);
      if ms[i].lastIdx == n then
        assert forall k :: 0 < k < |[i] + rest| ==> ([i] + rest)[k] == rest[k - 1];
        [i] + rest
      else rest
  }

  /** The positions of the symbols whose mapping is due at index `n`:
      each exactly once, in ascending order. */
  function Due(ms: seq<MapState>, n: nat): (js: seq<nat>)
    ensures Below(js, |ms|) && Increasing(js) && |js| <= |ms|
    ensures forall j :: j in js <==> 0 <= j < |ms| && ms[j].lastIdx == n
  {
    DueFrom(ms, n, 0)
  }

  /** The positions of the symbols whose mapping is due at index `n`, as a set. */
  ghost function DueSet(ms: seq<MapState>, n: nat): set<nat> {
    set j | 0 <= j < |ms| && ms[j].lastIdx == n
  }

  /** No mapping lags behind index `n`. */
  ghost predicate Ahead(ms: seq<MapState>, n: nat) {
    forall j :: 0 <= j < |ms| ==> ms[j].lastIdx >= n
  }

  /** A mapping at or beyond `n` joins mappings that are all at or beyond `n`. */
  lemma AheadSnoc(ms: seq<MapState>, st: MapState, n: nat)
    requires Ahead(ms, n) && st.lastIdx >= n
    ensures Ahead(ms + [st], n)
  {
  }

  /** The mappings after the symbols due at index `n` each moved one step on. */
  function Advance(step: StepFn, ms: seq<MapState>, n: nat): (r: seq<MapState>)
    ensures |r| == |ms|
    ensures forall j :: 0 <= j < |ms| && ms[j].lastIdx == n ==> r[j] == step(ms[j])
    ensures forall j :: 0 <= j < |ms| && ms[j].lastIdx != n ==> r[j] == ms[j]
  {
    seq(|ms|, j requires 0 <= j < |ms| => if ms[j].lastIdx == n then step(ms[j]) else ms[j])
  }

  /** The mappings after a window step at index `n`: advanced as above when
      no mapping lags behind `n`, untouched otherwise. */
  ghost function Stepped(step: StepFn, ms: seq<MapState>, n: nat): (r: seq<MapState>)
    ensures |r| == |ms|
  {
    if Ahead(ms, n) then Advance(step, ms, n) else ms
  }

  /** What one step of a window produces from `c`: when no mapping lags
      behind `n`, the symbols due at `n` folded into `c`; otherwise the
      smallest key in the queue is below `n` and nothing is folded. */
  ghost function Fold(syms: seq<HashedSymbol>, ms: seq<MapState>, n: nat, c: CodedSymbol, direction: int): CodedSymbol
    requires |ms| == |syms|
  {
    if Ahead(ms, n) then ApplyIdx(c, syms, Due(ms, n), direction) else c
  }

  /** The queue entry a window keeps for each of its symbols. */
  function Entries(ms: seq<MapState>): (es: seq<SymbolMapping>)
    ensures |es| == |ms|
    ensures forall j :: 0 <= j < |ms| ==> es[j] == SymbolMapping(j, ms[j].lastIdx)
  {
    seq(|ms|, j requires 0 <= j < |ms| => SymbolMapping(j, ms[j].lastIdx))
  }

  /** Each entry of a queue holding exactly the window's entries names a
      symbol of the window and that symbol's current mapping index. */
  lemma QueueEntry(q: seq<SymbolMapping>, ms: seq<MapState>, k: nat)
    requires multiset(q) == multiset(Entries(ms)) && k < |q|
    ensures q[k].sourceIdx < |ms| && q[k].codedIdx == ms[q[k].sourceIdx].lastIdx
  {
    assert q[k] in multiset(q);
    assert q[k] in Entries(ms);
  }

  /** Each symbol of the window has its entry in such a queue. */
  lemma QueueHas(q: seq<SymbolMapping>, ms: seq<MapState>, j: nat)
    requires multiset(q) == multiset(Entries(ms)) && j < |ms|
    ensures SymbolMapping(j, ms[j].lastIdx) in q
  {
    assert Entries(ms)[j] in multiset(Entries(ms));
  }

  /** When the head of a heap-ordered queue of the window's entries is due at
      `n`, no mapping lags behind `n`. */
  lemma AheadOfHead(q: seq<SymbolMapping>, ms: seq<MapState>, n: nat)
    requires multiset(q) == multiset(Entries(ms)) && HeapOrdered(q) && |q| > 0
    requires q[0].codedIdx >= n
    ensures Ahead(ms, n)
  {
    HeadIsMinimal(q);
    forall j | 0 <= j < |ms| ensures ms[j].lastIdx >= n {
      QueueHas(q, ms, j);
    }
  }

  /** The state of a window step part way through: the positions in
      `folded` are distinct, were due at `n` and have moved one step on; all
      other mappings are as they were. */
  ghost predicate FoldedSoFar(step: StepFn, ms0: seq<MapState>, ms: seq<MapState>, folded: seq<nat>, n: nat) {
    && |ms| == |ms0|
    && Below(folded, |ms0|) && Distinct(folded)
    && (forall j :: j in folded ==> ms0[j].lastIdx == n)
    && (forall j :: 0 <= j < |ms| ==> ms[j] == if j in folded then step(ms0[j]) else ms0[j])
    && (folded != [] ==> Ahead(ms0, n))
  }

  /** A window with no symbols folds nothing and has nothing to advance. */
  lemma EmptyWindowStep(syms: seq<HashedSymbol>, ms: seq<MapState>, n: nat, c: CodedSymbol, direction: int, step: StepFn)
    requires |ms| == |syms| == 0
    ensures Fold(syms, ms, n, c, direction) == c && Advance(step, ms, n) == ms && Ahead(ms, n + 1)
  {
  }

  /** When the head of the queue is due at `n`, folding it in keeps the
      step's bookkeeping: the head's symbol was not folded yet, and after its
      mapping moves on it is one more folded symbol, with one fewer due. */
  lemma FoldOneMore(step: StepFn, ms0: seq<MapState>, ms: seq<MapState>, folded: seq<nat>, n: nat, q: seq<SymbolMapping>)
    requires FoldedSoFar(step, ms0, ms, folded, n)
    requires multiset(q) == multiset(Entries(ms)) && HeapOrdered(q) && |q| > 0 && q[0].codedIdx == n
    ensures var src := q[0].sourceIdx;
      && src < |ms| && src !in folded && ms[src].lastIdx == n
      && FoldedSoFar(step, ms0, ms[src := step(ms[src])], folded + [src], n)
      && DueSet(ms[src := step(ms[src])], n) == DueSet(ms, n) - {src}
      && src in DueSet(ms, n)
  {
    var src := q[0].sourceIdx;
    QueueEntry(q, ms, 0);
    AheadOfHead(q, ms, n);
    assert Ahead(ms0, n) by {
      forall j | 0 <= j < |ms0| ensures ms0[j].lastIdx >= n {
        if j !in folded {
          assert ms[j] == ms0[j];
        }
      }
    }
    assert src !in folded;
    DistinctSnoc(folded, src);
    DueSetAdvanced(ms, src, step(ms[src]), n);
  }

  /** Appending a new position keeps a list free of repetitions. */
  lemma DistinctSnoc(js: seq<nat>, x: nat)
    requires Distinct(js) && x !in js
    ensures Distinct(js + [x])
    ensures forall j :: j in js + [x] <==> j in js || j == x
  {
    var js' := js + [x];
    forall a, b | 0 <= a < b < |js'| ensures js'[a] != js'[b] {
      if b == |js| {
        assert js'[a] in js;
      }
    }
  }

  /** Moving a due mapping off index `n` removes its position from the due set. */
  lemma DueSetAdvanced(ms: seq<MapState>, src: nat, st: MapState, n: nat)
    requires src < |ms| && ms[src].lastIdx == n && st.lastIdx != n
    ensures DueSet(ms[src := st], n) == DueSet(ms, n) - {src}
    ensures src in DueSet(ms, n)
  {
  }

  /** Re-keying the head with the next index of its symbol's mapping keeps
      the queue's entries in step with the mappings and leaves heap order
      intact below the head. */
  lemma HeadRekeyed(q: seq<SymbolMapping>, ms: seq<MapState>, next: MapState)
    requires multiset(q) == multiset(Entries(ms)) && HeapOrdered(q) && |q| > 0
    requires q[0].sourceIdx < |ms| && q[0].codedIdx == ms[q[0].sourceIdx].lastIdx
    ensures var src := q[0].sourceIdx;
      var q' := q[0 := SymbolMapping(src, next.lastIdx)];
      && multiset(q') == multiset(Entries(ms[src := next]))
      && forall i :: 2 < i < |q'| ==> OrderedAt(q', i)
  {
    var src := q[0].sourceIdx;
    var q' := q[0 := SymbolMapping(src, next.lastIdx)];
    var es := Entries(ms);
    assert Entries(ms[src := next]) == es[src := SymbolMapping(src, next.lastIdx)];
    assert es[src] == q[0];
    forall i | 2 < i < |q'| ensures OrderedAt(q', i) {
      assert OrderedAt(q, i);
    }
  }

  /** When the head is no longer due at `n`, every symbol that was due has
      been folded, and no mapping lags behind `n + 1` if none lagged behind
      `n` at the start. */
  lemma NothingDueLeft(step: StepFn, ms0: seq<MapState>, ms: seq<MapState>, folded: seq<nat>, n: nat, q: seq<SymbolMapping>)
    requires FoldedSoFar(step, ms0, ms, folded, n)
    requires multiset(q) == multiset(Entries(ms)) && HeapOrdered(q) && |q| > 0 && q[0].codedIdx != n
    ensures Ahead(ms0, n) ==> (forall j :: j in folded <==> j in Due(ms0, n))
    ensures ms == if Ahead(ms0, n) then Advance(step, ms0, n) else ms0
    ensures Ahead(ms0, n) ==> Ahead(ms, n + 1)
    ensures !Ahead(ms0, n) ==> folded == []
  {
    if Ahead(ms0, n) {
      assert Ahead(ms, n);
      forall j | 0 <= j < |ms0| && ms0[j].lastIdx == n ensures j in folded {
        if j !in folded {
          QueueHas(q, ms, j);
          var k :| 0 <= k < |q| && q[k] == SymbolMapping(j, n);
          HeadIsMinimal(q);
          QueueEntry(q, ms, 0);
          assert false;
        }
      }
      assert ms == Advance(step, ms0, n);
    } else {
      if folded != [] {
        assert false;
      }
      assert ms == ms0;
    }
  }

  /** Once the head is no longer due, the symbols folded in are exactly the
      ones a window step folds, and the mappings are those of the step. */
  lemma StepDone(step: StepFn, syms: seq<HashedSymbol>, ms0: seq<MapState>, ms: seq<MapState>, folded: seq<nat>,
                 n: nat, q: seq<SymbolMapping>, c: CodedSymbol, direction: int)
    requires |ms0| == |syms| && FoldedSoFar(step, ms0, ms, folded, n)
    requires multiset(q) == multiset(Entries(ms)) && HeapOrdered(q) && |q| > 0 && q[0].codedIdx != n
    ensures ApplyIdx(c, syms, folded, direction) == Fold(syms, ms0, n, c, direction)
    ensures ms == Stepped(step, ms0, n)
    ensures Ahead(ms0, n) ==> Ahead(ms, n + 1)
  {
    NothingDueLeft(step, ms0, ms, folded, n, q);
    if Ahead(ms0, n) {
      ApplyIdxReorder(c, syms, folded, Due(ms0, n), direction);
    }
  }

  /** How a call ends: with a value, or with a thrown error. */
  datatype Call = Returns(value: CodedSymbol) | Throws

  /** Folding a window into a coded symbol as the loop is written: its body
      calls `appli` on the coded symbol, a method coded symbols do not have,
      so the call throws as soon as the head of the queue is due at
      `nextIdx`, and returns the coded symbol untouched otherwise. */
  function ApplyWindowAsWritten(q: seq<SymbolMapping>, nextIdx: nat, cw: CodedSymbol): Call {
    if |q| == 0 then Returns(cw)
    else if q[0].codedIdx == nextIdx then Throws
    else Returns(cw)
  }

  /** A window holding one symbol, asked for coded symbol 0: as written the
      call throws, while the intended fold, which ApplyWindow computes,
      applies the symbol once. */
  lemma ApplyWindowAsWrittenThrows(t: HashedSymbol, cw: CodedSymbol, direction: int)
    ensures ApplyWindowAsWritten(Entries([MapState(t.hash, 0)]), 0, cw) == Throws
    ensures Fold([t], [MapState(t.hash, 0)], 0, cw, direction) == ApplySymbol(cw, t, direction)
  {
    var ms := [MapState(t.hash, 0)];
    var js := Due(ms, 0);
    assert 0 in js;
    assert js == [0];
    assert Ahead(ms, 0);
    assert ApplyIdx(cw, [t], [0], direction) == ApplyIdx(ApplySymbol(cw, t, direction), [t], [], direction);
  }

  class CodingWindow {
    const step: StepFn
    const symHash: Sym -> Hash
    const queue: MappingHeap         // one entry per symbol, smallest pending index first
    var symbols: seq<HashedSymbol>   // the window's symbols, in insertion order
    var mappings: seq<MapState>      // each symbol's generator state, position by position
    var nextIdx: nat                 // the coded-symbol index the window folds next

    /** The queue holds exactly one entry per symbol, keyed by that symbol's
        current mapping index, in heap order. */
    ghost predicate Valid()
      reads this`symbols, this`mappings, queue
    {
      && |mappings| == |symbols| == |queue.m|
      && HeapOrdered(queue.m)
      && multiset(queue.m) == multiset(Entries(mappings))
    }

    constructor (step: StepFn, symHash: Sym -> Hash)
      ensures Valid() && fresh(queue)
      ensures this.step == step && this.symHash == symHash
      ensures symbols == [] && mappings == [] && nextIdx == 0
    {
      this.step := step;
      this.symHash := symHash;
      queue := new MappingHeap();
      symbols := [];
      mappings := [];
      nextIdx := 0;
    }

    /** The symbols the window holds, in the order they were added. */
    function GetSymbols(): (syms: seq<HashedSymbol>)
      reads this
      ensures syms == symbols
    {
      symbols
    }

    /** Inserts a symbol, hashed with the symbol type's hash. */
    method AddSymbol(t: Sym)
      requires Valid()
      modifies this, queue
      ensures Valid()
      ensures symbols == old(symbols) + [HashedSymbol(t, symHash(t))]
      ensures mappings == old(mappings) + [MapState(symHash(t), 0)]
      ensures nextIdx == old(nextIdx)
    {
      var th := HashedSymbol(t, symHash(t));
      AddHashedSymbol(th);
    }

    /** Inserts a hashed symbol with a fresh mapping seeded by its hash. */
    method AddHashedSymbol(t: HashedSymbol)
      requires Valid()
      modifies this, queue
      ensures Valid()
      ensures symbols == old(symbols) + [t]
      ensures mappings == old(mappings) + [MapState(t.hash, 0)]
      ensures nextIdx == old(nextIdx)
    {
      var m := new RandomMapping(step, t.hash, 0);
      AddHashedSymbolWithMapping(t, m);
    }

    /** Inserts a hashed symbol with the current state of its mapping and
        queues it at the mapping's last index. */
    method AddHashedSymbolWithMapping(t: HashedSymbol, m: RandomMapping)
      requires Valid() && m.step == step
      modifies this, queue
      ensures Valid()
      ensures symbols == old(symbols) + [t]
      ensures mappings == old(mappings) + [m.State()]
      ensures multiset(queue.m) == multiset(old(queue.m)) + multiset{SymbolMapping(|symbols| - 1, m.lastIdx)}
      ensures nextIdx == old(nextIdx)
    {
      symbols := symbols + [t];
      ghost var ms0 := mappings;
      mappings := mappings + [m.State()];
      var sm := SymbolMapping(|symbols| - 1, m.lastIdx);
      assert Entries(mappings) == Entries(ms0) + [sm];
      queue.Push(sm);
    }

    /** Folds the symbol at the head of the queue into `acc`, moves its
        mapping one step on and re-keys its queue entry with the new index. */
    method FoldHead(acc: CodedSymbol, direction: int) returns (r: CodedSymbol, src: nat)
      requires Valid() && |queue.m| > 0
      modifies this, queue
      ensures Valid() && symbols == old(symbols) && nextIdx == old(nextIdx)
      ensures src == old(queue.m[0].sourceIdx) && src < |symbols|
      ensures mappings == old(mappings)[src := step(old(mappings)[src])]
      ensures r == ApplySymbol(acc, symbols[src], direction)
    {
      src := queue.Get(0).sourceIdx;
      QueueEntry(queue.m, mappings, 0);
      r := ApplySymbol(acc, symbols[src], direction);
      var nextMap := step(mappings[src]);
      HeadRekeyed(queue.m, mappings, nextMap);
      mappings := mappings[src := nextMap];
      queue.m := queue.m[0 := SymbolMapping(src, nextMap.lastIdx)];
      queue.FixHead();
    }

    /** Folds into `cw` the symbols scheduled at `nextIdx`, moves their
        mappings on and advances `nextIdx` by one. */
    method ApplyWindow(cw: CodedSymbol, direction: int) returns (r: CodedSymbol)
      requires Valid()
      modifies this, queue
      ensures Valid()
      ensures symbols == old(symbols) && nextIdx == old(nextIdx) + 1
      ensures r == Fold(symbols, old(mappings), old(nextIdx), cw, direction)
      ensures mappings == Stepped(step, old(mappings), old(nextIdx))
      ensures Ahead(old(mappings), old(nextIdx)) ==> Ahead(mappings, nextIdx)
    {
      if queue.Length() == 0 {
        EmptyWindowStep(symbols, mappings, nextIdx, cw, direction, step);
        nextIdx := nextIdx + 1;
        return cw;
      }
      r := cw;
      ghost var folded: seq<nat> := [];
      ghost var ms0 := mappings;
      ghost var n := nextIdx;
      while queue.Get(0).codedIdx == nextIdx
        invariant Valid() && symbols == old(symbols) && nextIdx == n && |queue.m| == |symbols| > 0
        invariant FoldedSoFar(step, ms0, mappings, folded, n)
        invariant r == ApplyIdx(cw, symbols, folded, direction)
        decreases |DueSet(mappings, n)|
      {
        FoldOneMore(step, ms0, mappings, folded, n, queue.m);
        ApplyIdxSnoc(cw, symbols, folded, queue.m[0].sourceIdx, direction);
        var src;
        r, src := FoldHead(r, direction);
        folded := folded + [src];
      }
      nextIdx := nextIdx + 1;
      StepDone(step, symbols, ms0, mappings, folded, n, queue.m, cw, direction);
    }

    /** Drops all symbols, mappings and queue entries and restarts at index 0. */
    method Reset()
      modifies this, queue
      ensures Valid()
      ensures symbols == [] && mappings == [] && queue.m == [] && nextIdx == 0
    {
      symbols := [];
      mappings := [];
      queue.m := [];
      nextIdx := 0;
    }
  }

  /** The coded symbol a window step produces from the empty coded symbol with
      direction +1 combines exactly the due symbols and has their number as
      degree. */
  lemma ProducedFromEmpty(syms: seq<HashedSymbol>, ms: seq<MapState>, n: nat)
    requires |ms| == |syms| && Ahead(ms, n)
    ensures Fold(syms, ms, n, Empty, 1) == CodedSymbol(SymSum(syms, Due(ms, n)), HashSum(syms, Due(ms, n)), |Due(ms, n)|)
  {
    ApplyIdxClosedForm(Empty, syms, Due(ms, n), 1);
    XorIdentity(SymSum(syms, Due(ms, n)));
  }

  /** An incremental encoder: one coding window, one coded symbol per call. */
  class Encoder {
    const w: CodingWindow

    ghost predicate Valid()
      reads this, w, w.queue
    {
      w.Valid()
    }

    constructor (step: StepFn, symHash: Sym -> Hash)
      ensures Valid() && fresh(w) && fresh(w.queue)
      ensures w.step == step && w.symHash == symHash
      ensures w.symbols == [] && w.mappings == [] && w.nextIdx == 0
    {
      w := new CodingWindow(step, symHash);
    }

    method AddSymbol(s: Sym)
      requires Valid()
      modifies w, w.queue
      ensures Valid()
      ensures w.symbols == old(w.symbols) + [HashedSymbol(s, w.symHash(s))]
      ensures w.mappings == old(w.mappings) + [MapState(w.symHash(s), 0)]
      ensures w.nextIdx == old(w.nextIdx)
    {
      w.AddSymbol(s);
    }

    method AddHashedSymbol(s: HashedSymbol)
      requires Valid()
      modifies w, w.queue
      ensures Valid()
      ensures w.symbols == old(w.symbols) + [s]
      ensures w.mappings == old(w.mappings) + [MapState(s.hash, 0)]
      ensures w.nextIdx == old(w.nextIdx)
    {
      w.AddHashedSymbol(s);
    }

    /** Returns the next coded symbol: the window step applied to the empty
        coded symbol with direction +1. */
    method ProduceNextCodedSymbol() returns (c: CodedSymbol)
      requires Valid()
      modifies w, w.queue
      ensures Valid()
      ensures w.symbols == old(w.symbols) && w.nextIdx == old(w.nextIdx) + 1
      ensures c == Fold(w.symbols, old(w.mappings), old(w.nextIdx), Empty, 1)
      ensures w.mappings == Stepped(w.step, old(w.mappings), old(w.nextIdx))
    {
      var next := CodedSymbol(Identity, 0, 0);
      c := w.ApplyWindow(next, 1);
    }

    method Reset()
      modifies w, w.queue
      ensures Valid()
      ensures w.symbols == [] && w.mappings == [] && w.nextIdx == 0
    {
      w.Reset();
    }
  }
}
