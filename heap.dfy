/** The priority queue of a coding window: an array-backed binary min-heap
    of symbol mappings ordered by the coded-symbol index they are scheduled
    at next. */
module Heap {

  /** Pairs a source symbol (its position in a coding window) with the next
      coded symbol it is mapped to. */
  datatype SymbolMapping = SymbolMapping(sourceIdx: nat, codedIdx: nat)

  /** The entry at position `i` has a key at least its parent's. */
  ghost predicate OrderedAt(m: seq<SymbolMapping>, i: nat)
    requires 0 < i < |m|
  {
    m[(i - 1) / 2].codedIdx <= m[i].codedIdx
  }

  /** Every entry's key is at least its parent's key. */
  ghost predicate HeapOrdered(m: seq<SymbolMapping>) {
    forall i :: 0 < i < |m| ==> OrderedAt(m, i)
  }

  /** The children of position `curr` have keys at least the key of the
      parent of `curr`: the one relation a sift step must keep across the
      position it is working on. */
  ghost predicate Bridged(m: seq<SymbolMapping>, curr: nat)
    requires curr < |m|
  {
    curr > 0 ==> forall i :: 0 < i < |m| && (i - 1) / 2 == curr ==> m[(curr - 1) / 2].codedIdx <= m[i].codedIdx
  }

  /** In a heap-ordered sequence every entry's key is at least the head's. */
  lemma {:induction false} HeadBelowEntry(m: seq<SymbolMapping>, i: nat)
    requires HeapOrdered(m) && i < |m|
    ensures m[0].codedIdx <= m[i].codedIdx
    decreases i
  {
    if i > 0 {
      assert OrderedAt(m, i);
      HeadBelowEntry(m, (i - 1) / 2);
    }
  }

  /** The head of a heap-ordered sequence carries a minimal key. */
  lemma HeadIsMinimal(m: seq<SymbolMapping>)
    requires HeapOrdered(m) && |m| > 0
    ensures forall i :: 0 <= i < |m| ==> m[0].codedIdx <= m[i].codedIdx
  {
    forall i | 0 <= i < |m| ensures m[0].codedIdx <= m[i].codedIdx {
      HeadBelowEntry(m, i);
    }
  }

  /** The parent position as the sift-up step writes it,
      `Math.abs(Math.round((curr - 1) / 2))`: JavaScript rounds halves up, so
      an even position gets half of itself instead of one less. */
  function ParentAsWritten(curr: nat): nat {
    if curr % 2 == 1 then (curr - 1) / 2 else curr / 2
  }

  /** The sift-up loop as written, with ParentAsWritten as the parent. */
  function SiftUpAsWritten(m: seq<SymbolMapping>, curr: nat): seq<SymbolMapping>
    requires curr < |m|
    decreases curr
  {
    var parent := ParentAsWritten(curr);
    if curr == parent || m[parent].codedIdx <= m[curr].codedIdx then m
    else SiftUpAsWritten(m[parent := m[curr]][curr := m[parent]], parent)
  }

  /** Pushing key 2 onto the heap with keys [0, 5, 1, 6]: the written parent
      of position 4 is position 2 (key 1), so the loop stops at once and the
      new entry stays below position 1 (key 5), which breaks heap order. */
  lemma SiftUpAsWrittenBreaksOrder()
    ensures var before := [SymbolMapping(0, 0), SymbolMapping(1, 5), SymbolMapping(2, 1), SymbolMapping(3, 6)];
            var pushed := before + [SymbolMapping(4, 2)];
            HeapOrdered(before) && !HeapOrdered(SiftUpAsWritten(pushed, 4))
  {
    var before := [SymbolMapping(0, 0), SymbolMapping(1, 5), SymbolMapping(2, 1), SymbolMapping(3, 6)];
    var pushed := before + [SymbolMapping(4, 2)];
    assert SiftUpAsWritten(pushed, 4) == pushed;
    assert !OrderedAt(pushed, 4);
  }

  /** One sift-down step: swapping position `curr` with its smaller child
      `child` whose key is below the key at `curr` moves the only possible
      disorder down to `child`. */
  lemma SwapDown(m0: seq<SymbolMapping>, m: seq<SymbolMapping>, curr: nat, child: nat)
    requires child < |m0| && (child - 1) / 2 == curr && 0 < child
    requires forall i :: 0 < i < |m0| && (i - 1) / 2 == curr ==> m0[child].codedIdx <= m0[i].codedIdx
    requires m0[child].codedIdx < m0[curr].codedIdx
    requires forall i :: 0 < i < |m0| && (i - 1) / 2 != curr ==> OrderedAt(m0, i)
    requires Bridged(m0, curr)
    requires m == m0[curr := m0[child]][child := m0[curr]]
    ensures multiset(m) == multiset(m0)
    ensures forall i :: 0 < i < |m| && (i - 1) / 2 != child ==> OrderedAt(m, i)
    ensures Bridged(m, child)
  {
    forall i | 0 < i < |m| && (i - 1) / 2 != child ensures OrderedAt(m, i) {
      if i == child {
      } else if (i - 1) / 2 == curr {
      } else if i == curr {
        assert Bridged(m0, curr);
      } else {
        assert OrderedAt(m0, i);
      }
    }
    forall i | 0 < i < |m| && (i - 1) / 2 == child ensures m[(child - 1) / 2].codedIdx <= m[i].codedIdx {
      assert OrderedAt(m0, i);
    }
  }

  /** A sift-down that reaches a position without children is done. */
  lemma SiftDownAtLeaf(m: seq<SymbolMapping>, curr: nat)
    requires curr * 2 + 1 >= |m|
    requires forall i :: 0 < i < |m| && (i - 1) / 2 != curr ==> OrderedAt(m, i)
    ensures HeapOrdered(m)
  {
    forall i | 0 < i < |m| ensures OrderedAt(m, i) {
      assert (i - 1) / 2 != curr;
    }
  }

  /** A sift-down whose position is no larger than its smaller child is done. */
  lemma SiftDownSettled(m: seq<SymbolMapping>, curr: nat, child: nat)
    requires child < |m| && (child == curr * 2 + 1 || child == curr * 2 + 2)
    requires curr * 2 + 2 < |m| ==> m[child].codedIdx <= m[curr * 2 + 1].codedIdx && m[child].codedIdx <= m[curr * 2 + 2].codedIdx
    requires m[curr].codedIdx <= m[child].codedIdx && m[child].codedIdx <= m[curr * 2 + 1].codedIdx
    requires forall i :: 0 < i < |m| && (i - 1) / 2 != curr ==> OrderedAt(m, i)
    ensures HeapOrdered(m)
  {
    forall i | 0 < i < |m| ensures OrderedAt(m, i) {
      if (i - 1) / 2 == curr {
        assert i == curr * 2 + 1 || i == curr * 2 + 2;
      }
    }
  }

  /** One sift-up step: swapping position `curr` with its parent whose key
      is above the key at `curr` moves the only possible disorder up to the
      parent. */
  lemma SwapUp(m0: seq<SymbolMapping>, m: seq<SymbolMapping>, curr: nat, parent: nat)
    requires curr < |m0| && 0 < curr && parent == (curr - 1) / 2
    requires m0[curr].codedIdx < m0[parent].codedIdx
    requires forall i :: 0 < i < |m0| && i != curr ==> OrderedAt(m0, i)
    requires Bridged(m0, curr)
    requires m == m0[parent := m0[curr]][curr := m0[parent]]
    ensures multiset(m) == multiset(m0)
    ensures forall i :: 0 < i < |m| && i != parent ==> OrderedAt(m, i)
    ensures Bridged(m, parent)
  {
    forall i | 0 < i < |m| && i != parent ensures OrderedAt(m, i) {
      if i == curr {
      } else if (i - 1) / 2 == curr {
      } else if (i - 1) / 2 == parent {
        assert OrderedAt(m0, i);
      } else {
        assert OrderedAt(m0, i);
      }
    }
    if parent > 0 {
      forall i | 0 < i < |m| && (i - 1) / 2 == parent ensures m[(parent - 1) / 2].codedIdx <= m[i].codedIdx {
        assert OrderedAt(m0, parent);
        if i != curr {
          assert OrderedAt(m0, i);
        }
      }
    }
  }

  class MappingHeap {
    var m: seq<SymbolMapping>

    constructor ()
      ensures m == []
    {
      m := [];
    }

    /** The number of entries the heap holds. */
    function Length(): (n: nat)
      reads this
      ensures n == |m|
    {
      |m|
    }

    /** The entry at position `i`; position 0 is the first entry due. */
    function Get(i: nat): (sm: SymbolMapping)
      reads this
      requires i < |m|
      ensures sm == m[i]
    {
      m[i]
    }

    /** Appends an entry and restores heap order. */
    method Push(sm: SymbolMapping)
      requires HeapOrdered(m)
      modifies this
      ensures HeapOrdered(m)
      ensures |m| == |old(m)| + 1
      ensures multiset(m) == multiset(old(m)) + multiset{sm}
    {
      ghost var m0 := m;
      m := m + [sm];
      forall i | 0 < i < |m| - 1 ensures OrderedAt(m, i) {
        assert OrderedAt(m0, i);
      }
      FixTail();
    }

    /** Re-establishes heap order after the head's key changed: below the
        head the entries are ordered, afterwards all are, and the entries are
        only permuted. */
    method FixHead()
      requires forall i :: 2 < i < |m| ==> OrderedAt(m, i)
      modifies this
      ensures HeapOrdered(m)
      ensures |m| == |old(m)| && multiset(m) == multiset(old(m))
    {
      var curr := 0;
      while true
        invariant |m| == |old(m)| && multiset(m) == multiset(old(m))
        invariant curr == 0 || curr < |m|
        invariant forall i :: 0 < i < |m| && (i - 1) / 2 != curr ==> OrderedAt(m, i)
        invariant curr < |m| ==> Bridged(m, curr)
        decreases |m| - curr
      {
        var child := curr * 2 + 1;
        if child >= |m| {
          SiftDownAtLeaf(m, curr);
          break;
        }
        var rc := child + 1;
        if rc < |m| && m[rc].codedIdx < m[child].codedIdx {
          child := rc;
        }
        if m[curr].codedIdx <= m[child].codedIdx {
          SiftDownSettled(m, curr, child);
          break;
        }
        ghost var m0 := m;
        m := m[curr := m[child]][child := m[curr]];
        SwapDown(m0, m, curr, child);
        curr := child;
      }
    }

    /** Re-establishes heap order after an entry was appended: before the
        last entry the entries are ordered, afterwards all are, and the
        entries are only permuted.  The parent of position `curr` is
        `(curr - 1) / 2`; see ParentAsWritten for the formula as written. */
    method FixTail()
      requires |m| > 0
      requires forall i :: 0 < i < |m| - 1 ==> OrderedAt(m, i)
      modifies this
      ensures HeapOrdered(m)
      ensures |m| == |old(m)| && multiset(m) == multiset(old(m))
    {
      var curr := |m| - 1;
      while true
        invariant |m| == |old(m)| && multiset(m) == multiset(old(m))
        invariant 0 <= curr < |m|
        invariant forall i :: 0 < i < |m| && i != curr ==> OrderedAt(m, i)
        invariant Bridged(m, curr)
        decreases curr
      {
        var parent := if curr == 0 then 0 else (curr - 1) / 2;
        if curr == parent || m[parent].codedIdx <= m[curr].codedIdx {
          break;
        }
        ghost var m0 := m;
        m := m[parent := m[curr]][curr := m[parent]];
        SwapUp(m0, m, curr, parent);
        curr := parent;
      }
    }
  }
}
