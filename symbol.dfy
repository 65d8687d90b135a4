/** Source symbols, hashed symbols and coded symbols.

    A source symbol is an element of a Boolean group: a set with an
    associative operation, an identity element, and every element its own
    inverse.  The model fixes the group to 64-bit words under exclusive-or,
    which is the group the symbol interface is named after.  Hashes are 64-bit
    words combined by exclusive-or as well. */
module Symbols {

  /** A source symbol. */
  type Sym = bv64

  /** The hash of a source symbol. */
  type Hash = bv64

  /** The identity of the group, the default value of the symbol type. */
  const Identity: Sym := 0

  /** The group operation. */
  function Xor(a: Sym, b: Sym): Sym {
    a ^ b
  }

  /** Exclusive-or on 64-bit words is associative. */
  lemma WordXorAssociative(a: bv64, b: bv64, c: bv64)
    ensures (a ^ b) ^ c == a ^ (b ^ c)
  {
  }

  /** Law 1: the operation is associative. */
  lemma XorAssociative(a: Sym, b: Sym, c: Sym)
    ensures Xor(Xor(a, b), c) == Xor(a, Xor(b, c))
  {
    WordXorAssociative(a, b, c);
  }

  /** Law 2: the default value is a two-sided identity. */
  lemma XorIdentity(a: Sym)
    ensures Xor(Identity, a) == a && Xor(a, Identity) == a
  {
  }

  /** Law 3: every element is its own inverse. */
  lemma XorSelfInverse(a: Sym)
    ensures Xor(a, a) == Identity
  {
  }

  /** A Boolean group is commutative. */
  lemma XorCommutative(a: Sym, b: Sym)
    ensures Xor(a, b) == Xor(b, a)
  {
  }

  /** A source symbol bundled with its (cached) hash. */
  datatype HashedSymbol = HashedSymbol(symbol: Sym, hash: Hash)

  /** An accumulator of source symbols: the combined symbol, the combined
      hash, and the signed number of symbols folded in (the degree). */
  datatype CodedSymbol = CodedSymbol(symbol: Sym, hash: Hash, count: int)

  /** The coded symbol holding no source symbol, `new CodedSymbol(newSymbol(), 0, 0)`. */
  const Empty: CodedSymbol := CodedSymbol(Identity, 0, 0)

  /** Folds `s` into `c`; `direction` is added to the degree (+1 adds a
      symbol, -1 removes one). */
  function ApplySymbol(c: CodedSymbol, s: HashedSymbol, direction: int): CodedSymbol {
    CodedSymbol(Xor(c.symbol, s.symbol), Xor(c.hash, s.hash), c.count + direction)
  }

  /** Applying a symbol and then applying it in the opposite direction
      restores the coded symbol exactly. */
  lemma ApplyThenUndo(c: CodedSymbol, s: HashedSymbol, direction: int)
    ensures ApplySymbol(ApplySymbol(c, s, direction), s, -direction) == c
  {
    XorAssociative(c.symbol, s.symbol, s.symbol);
    XorSelfInverse(s.symbol);
    XorIdentity(c.symbol);
    XorAssociative(c.hash, s.hash, s.hash);
    XorSelfInverse(s.hash);
    XorIdentity(c.hash);
  }

  /** Two symbols applied in either order give the same coded symbol. */
  lemma ApplyCommutes(c: CodedSymbol, s: HashedSymbol, ds: int, t: HashedSymbol, dt: int)
    ensures ApplySymbol(ApplySymbol(c, s, ds), t, dt) == ApplySymbol(ApplySymbol(c, t, dt), s, ds)
  {
    XorSwap(c.symbol, s.symbol, t.symbol);
    XorSwap(c.hash, s.hash, t.hash);
  }

  /** The last two of three combined elements can be swapped. */
  lemma XorSwap(a: Sym, b: Sym, c: Sym)
    ensures Xor(Xor(a, b), c) == Xor(Xor(a, c), b)
  {
    XorAssociative(a, b, c);
    XorCommutative(b, c);
    XorAssociative(a, c, b);
  }

  /** Applying a symbol to the empty coded symbol gives that symbol, its
      hash, and the direction as degree. */
  lemma ApplyToEmpty(s: HashedSymbol, direction: int)
    ensures ApplySymbol(Empty, s, direction) == CodedSymbol(s.symbol, s.hash, direction)
  {
    XorIdentity(s.symbol);
    XorIdentity(s.hash);
  }

  /** Elementwise difference of two coded symbols, as a sketch subtraction
      computes it for one slot. */
  function Subtract(a: CodedSymbol, b: CodedSymbol): CodedSymbol {
    CodedSymbol(Xor(a.symbol, b.symbol), Xor(a.hash, b.hash), a.count - b.count)
  }

  /** Subtracting a coded symbol that has `s` applied once more is the
      same as removing `s` from the difference. */
  lemma SubtractApplied(a: CodedSymbol, b: CodedSymbol, s: HashedSymbol)
    ensures Subtract(a, ApplySymbol(b, s, 1)) == ApplySymbol(Subtract(a, b), s, -1)
  {
    XorAssociative(a.symbol, b.symbol, s.symbol);
    XorAssociative(a.hash, b.hash, s.hash);
  }

  /** Subtracting the empty coded symbol changes nothing; subtracting a
      coded symbol from itself gives the empty one. */
  lemma SubtractIdentities(a: CodedSymbol)
    ensures Subtract(a, Empty) == a
    ensures Subtract(a, a) == Empty
  {
    XorIdentity(a.symbol);
    XorSelfInverse(a.symbol);
    XorIdentity(a.hash);
    XorSelfInverse(a.hash);
  }

  /** All indices of `idxs` lie below `n`. */
  ghost predicate Below(idxs: seq<nat>, n: nat) {
    forall k :: 0 <= k < |idxs| ==> idxs[k] < n
  }

  /** A non-empty list holds its first element. */
  lemma FirstIn(idxs: seq<nat>)
    ensures idxs != [] ==> idxs[0] in idxs
  {
  }

  /** Two index lists below `n` joined are below `n`. */
  lemma BelowConcat(a: seq<nat>, b: seq<nat>, n: nat)
    requires Below(a, n) && Below(b, n)
    ensures Below(a + b, n)
  {
  }

  /** An index list below `n` is below any larger bound. */
  lemma BelowWiden(a: seq<nat>, n: nat, m: nat)
    requires Below(a, n) && n <= m
    ensures Below(a, m)
  {
  }

  /** The indices of `idxs` are strictly increasing. */
  ghost predicate Increasing(idxs: seq<nat>) {
    forall k, l :: 0 <= k < l < |idxs| ==> idxs[k] < idxs[l]
  }

  /** Applies `s` with `direction` to the coded symbols at the positions
      `idxs`, one position after the other, like the loops over a mapping
      in the decoder and the sketch do. */
  function ApplyAt(cs: seq<CodedSymbol>, idxs: seq<nat>, s: HashedSymbol, direction: int): (r: seq<CodedSymbol>)
    requires Below(idxs, |cs|)
    ensures |r| == |cs|
    decreases |idxs|
  {
    if idxs == [] then cs
    else ApplyAt(cs[idxs[0] := ApplySymbol(cs[idxs[0]], s, direction)], idxs[1..], s, direction)
  }

  /** Applying along a list that starts at position `i` applies at `i`
      first and then along the rest. */
  lemma ApplyAtCons(cs: seq<CodedSymbol>, i: nat, rest: seq<nat>, s: HashedSymbol, direction: int)
    requires i < |cs| && Below(rest, |cs|)
    ensures Below([i] + rest, |cs|)
    ensures ApplyAt(cs, [i] + rest, s, direction) == ApplyAt(cs[i := ApplySymbol(cs[i], s, direction)], rest, s, direction)
  {
    var w := [i] + rest;
    assert forall k :: 0 < k < |w| ==> w[k] == rest[k - 1];
    assert w[1..] == rest;
  }

  /** Along strictly increasing positions, ApplyAt keeps the length, applies
      `s` exactly once at each listed position and leaves every other
      position as it was. */
  lemma {:induction false} ApplyAtPointwise(cs: seq<CodedSymbol>, idxs: seq<nat>, s: HashedSymbol, direction: int)
    requires Below(idxs, |cs|) && Increasing(idxs)
    ensures |ApplyAt(cs, idxs, s, direction)| == |cs|
    ensures forall k :: 0 <= k < |cs| ==>
      ApplyAt(cs, idxs, s, direction)[k] == if k in idxs then ApplySymbol(cs[k], s, direction) else cs[k]
    decreases |idxs|
  {
    if idxs != [] {
      var cs' := cs[idxs[0] := ApplySymbol(cs[idxs[0]], s, direction)];
      assert Below(idxs[1..], |cs'|) && Increasing(idxs[1..]);
      ApplyAtPointwise(cs', idxs[1..], s, direction);
      forall k | 0 <= k < |cs|
        ensures ApplyAt(cs, idxs, s, direction)[k] == if k in idxs then ApplySymbol(cs[k], s, direction) else cs[k]
      {
        assert k in idxs <==> k == idxs[0] || k in idxs[1..];
        if k == idxs[0] {
          assert k !in idxs[1..] by {
            forall l | 0 <= l < |idxs[1..]| ensures idxs[1..][l] != k {
              assert idxs[1..][l] == idxs[l + 1];
            }
          }
        }
      }
    }
  }

  /** Applying a symbol along strictly increasing positions and then
      applying it in the opposite direction along the same positions
      restores every coded symbol. */
  lemma ApplyAtUndo(cs: seq<CodedSymbol>, idxs: seq<nat>, s: HashedSymbol, direction: int)
    requires Below(idxs, |cs|) && Increasing(idxs)
    ensures ApplyAt(ApplyAt(cs, idxs, s, direction), idxs, s, -direction) == cs
  {
    var once := ApplyAt(cs, idxs, s, direction);
    ApplyAtPointwise(cs, idxs, s, direction);
    ApplyAtPointwise(once, idxs, s, -direction);
    var twice := ApplyAt(once, idxs, s, -direction);
    forall k | 0 <= k < |cs| ensures twice[k] == cs[k] {
      if k in idxs {
        ApplyThenUndo(cs[k], s, direction);
      }
    }
  }

  /** Applying two symbols along their positions gives the same coded
      symbols in either order. */
  lemma ApplyAtCommutes(cs: seq<CodedSymbol>, sIdx: seq<nat>, s: HashedSymbol, ds: int,
                        tIdx: seq<nat>, t: HashedSymbol, dt: int)
    requires Below(sIdx, |cs|) && Increasing(sIdx) && Below(tIdx, |cs|) && Increasing(tIdx)
    ensures ApplyAt(ApplyAt(cs, sIdx, s, ds), tIdx, t, dt) == ApplyAt(ApplyAt(cs, tIdx, t, dt), sIdx, s, ds)
  {
    var a := ApplyAt(cs, sIdx, s, ds);
    var b := ApplyAt(cs, tIdx, t, dt);
    ApplyAtPointwise(cs, sIdx, s, ds);
    ApplyAtPointwise(cs, tIdx, t, dt);
    ApplyAtPointwise(a, tIdx, t, dt);
    ApplyAtPointwise(b, sIdx, s, ds);
    var ab := ApplyAt(a, tIdx, t, dt);
    var ba := ApplyAt(b, sIdx, s, ds);
    forall k | 0 <= k < |cs| ensures ab[k] == ba[k] {
      ApplyCommutes(cs[k], s, ds, t, dt);
    }
  }

  /** Elementwise difference of two equally long sequences of coded symbols. */
  function SubtractAll(a: seq<CodedSymbol>, b: seq<CodedSymbol>): (r: seq<CodedSymbol>)
    requires |a| == |b|
    ensures |r| == |a|
    ensures forall k :: 0 <= k < |r| ==> r[k] == Subtract(a[k], b[k])
  {
    seq(|a|, k requires 0 <= k < |a| => Subtract(a[k], b[k]))
  }

  /** Subtracting a sequence that has `s` applied along some positions is
      removing `s` along those positions from the difference. */
  lemma SubtractAllApplied(a: seq<CodedSymbol>, b: seq<CodedSymbol>, idxs: seq<nat>, s: HashedSymbol)
    requires |a| == |b| && Below(idxs, |b|) && Increasing(idxs)
    ensures |ApplyAt(b, idxs, s, 1)| == |a|
    ensures SubtractAll(a, ApplyAt(b, idxs, s, 1)) == ApplyAt(SubtractAll(a, b), idxs, s, -1)
  {
    ApplyAtPointwise(b, idxs, s, 1);
    var d := SubtractAll(a, b);
    ApplyAtPointwise(d, idxs, s, -1);
    var lhs := SubtractAll(a, ApplyAt(b, idxs, s, 1));
    var rhs := ApplyAt(d, idxs, s, -1);
    forall k | 0 <= k < |a| ensures lhs[k] == rhs[k] {
      SubtractApplied(a[k], b[k], s);
    }
  }
}
