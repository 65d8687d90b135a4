# Rateless IBLT set reconciliation, modelled in Dafny

This project models the core of riblt-ts, a TypeScript implementation of
Rateless Invertible Bloom Lookup Tables.

Two parties each hold a set of source symbols. One side, the encoder,
turns its set into an endless stream of coded symbols. Each coded symbol
contains three things:
- the exclusive-or of some of the source symbols;
- the exclusive-or of their hashes;
- a signed count of how many symbols it holds.

Each source symbol has a random mapping, seeded by its hash. The mapping
decides which coded-symbol indices the symbol lands in. The indices are
strictly increasing and become sparser further along the stream.

The encoder keeps its source symbols in a coding window. The window holds:
- a binary min-heap of `(sourceIdx, codedIdx)` entries;
- the index of the next coded symbol.

Each step pops every symbol due at that index, folds it into the coded
symbol, and moves its mapping one step on.

The decoder keeps three coding windows:
- its own set;
- the recovered symbols exclusive to the remote side;
- the recovered symbols exclusive to the local side.

Each incoming coded symbol is peeled through the three windows and stored.
The decoder lists it when it is decodable: degree ±1 with a hash that
matches its symbol (pure), or degree 0 with a zero hash. `tryDecode`
recovers each pure coded symbol's source symbol. It peels that symbol off
every stored coded symbol the symbol's mapping reaches, and lists the ones
that become pure.

A sketch is a fixed-size prefix of the coded-symbol stream. It is computed
directly, per symbol, along the symbol's mapping. Sketches can be
subtracted slot by slot and then decoded.

Layout:

| file | module | source |
|---|---|---|
| `outcome.dfy` | `Outcomes` | the thrown errors, as result values |
| `symbol.dfy` | `Symbols` | `src/symbol.ts` |
| `mapping.dfy` | `Mapping` | `src/mapping.ts` |
| `heap.dfy` | `Heap` | `src/encoder.ts` (MappingHeap) |
| `encoder.dfy` | `Encoding` | `src/encoder.ts` (CodingWindow, Encoder) |
| `decoder.dfy` | `Decoding` | `src/decoder.ts` |
| `sketch.dfy` | `Sketches` | `src/sketch.ts` |

Symbols are 64-bit words under exclusive-or, a concrete Boolean group.
Hashes are 64-bit words as well.

Two things are parameters of every component, fixed when it is built:
- the symbol type's hash function, `symHash`;
- the mapping's generator step, `StepFn`. This is any function on
  generator states that strictly increases the last index.

Things the source mutates in place are classes:
- `RandomMapping`, `MappingHeap` (a `seq` field), `CodingWindow`,
  `Encoder`, `Decoder`;
- `Sketch`, whose slots are an `array`.

Coded symbols are values, and applying a symbol is a function.

The imperative operations are proved against specification functions:
- `Walk`/`WalkEnd`: the indices a mapping visits below a bound, and where
  it stops;
- `Due`/`Fold`/`Stepped`: what one window step folds in, and how it moves
  the mappings;
- `ApplyAt`/`PureHits`: a peeling pass over stored coded symbols, and the
  entries it lists;
- `Added`/`SketchOf`: the value of a sketch of a list of symbols;
- `Visit`/`Round`: one visit of a decoding round, and the whole round
  over a snapshot of the decoder's state (`Peel`).

Lemmas then relate these specifications to each other:
- a sketch equals the encoder's stream prefix;
- a sketch does not depend on insertion order;
- subtracting sketches cancels the common symbols;
- applying a symbol and then removing it restores every slot;
- a decoding round counts one decoded entry per visit and recovers at
  most one symbol per visit; it ends in the ways the source allows;
- the difference of the sketches of two sets that differ in one symbol
  decodes to exactly that symbol, on the side that holds it.

## Model

| member | source | states |
|---|---|---|
| Symbols.XorAssociative | src/symbol.ts:1-4 | the group operation is associative |
| Symbols.XorIdentity | src/symbol.ts:5-6 | the default symbol is a two-sided identity |
| Symbols.XorSelfInverse | src/symbol.ts:7 | every symbol is its own inverse |
| Symbols.XorCommutative | src/symbol.ts:1-7 | the Boolean group is commutative |
| Symbols.ApplySymbol | src/symbol.ts:44-49 | the coded symbol with the symbol's value xor-ed into its sum, the symbol's hash xor-ed into its hash, and `direction` added to its degree; a new value where the source updates the receiver |
| Symbols.ApplyThenUndo | src/symbol.ts:42-49 | applying a symbol and then applying it in the opposite direction restores the coded symbol |
| Symbols.ApplyCommutes | src/symbol.ts:44-49 | two symbols applied in either order give the same coded symbol |
| Symbols.ApplyToEmpty | src/symbol.ts:36-49 | applying a symbol to the empty coded symbol gives that symbol, its hash and degree `direction` |
| Symbols.Subtract | src/sketch.ts:69-71 | one slot of the subtract loop: the two sums xor-ed, the degrees subtracted, the two hashes xor-ed |
| Symbols.SubtractAll | src/sketch.ts:68-72 | the subtract loop over two equally long slot lists: the same length, and each slot is `Subtract` of the two slots at that position |
| Symbols.SubtractApplied | src/sketch.ts:63-72 | subtracting a coded symbol that has a symbol applied equals removing that symbol from the difference |
| Symbols.SubtractIdentities | src/sketch.ts:60-72 | subtracting the empty coded symbol changes nothing; subtracting a coded symbol from itself gives the empty one |
| Symbols.ApplyAt | src/sketch.ts:36-46 | applying a symbol along in-range positions keeps the length and stays in range |
| Symbols.ApplyAtPointwise | src/sketch.ts:36-46 | along distinct positions, each visited slot has the symbol applied once and every other slot is unchanged |
| Symbols.ApplyAtUndo | src/sketch.ts:36-58 | removing a symbol along its positions after adding it restores all slots |
| Symbols.ApplyAtCommutes | src/sketch.ts:36-58 | applications of two symbols along their positions commute |
| Symbols.SubtractAllApplied | src/sketch.ts:63-72 | slotwise subtraction turns a symbol added to the subtrahend into a symbol removed from the difference |
| Mapping.Walk | src/mapping.ts:17-33 | the indices visited below a bound are below it, and there are none exactly when the generator has already passed the bound |
| Mapping.WalkIncreasing | src/mapping.ts:3-7 | a walk starts at the current last index and strictly increases |
| Mapping.WalkEnd | src/mapping.ts:17-33 | the state where a walk stops is at or beyond the bound and never behind its start |
| Mapping.WalkEndNext | src/mapping.ts:17-33 | moving the bound from n to n+1 takes one more step exactly when the walk stopped on n |
| Mapping.WalkVisits | src/mapping.ts:3-7 | below the bound, index k is visited exactly when the walk stopped at k lands on k |
| Mapping.Indices | src/mapping.ts:17-33 | n successive next indices are strictly increasing and above the starting index |
| Mapping.RandomMapping.constructor | src/mapping.ts:12-15 | the generator starts at the given PRNG state and last index |
| Mapping.RandomMapping.NextIndex | src/mapping.ts:18-33 | the state moves one step, and the returned index is the new, strictly greater last index |
| Heap.HeadIsMinimal | src/encoder.ts:11-16 | in heap order the head carries a minimal key |
| Heap.SiftUpAsWrittenBreaksOrder | src/encoder.ts:58 | with the parent formula as written, pushing key 2 onto keys [0,5,1,6] leaves the heap out of order |
| Heap.SiftUpAsWritten | src/encoder.ts:53-65 | fixTail as written: swaps the entry at `curr` with the one at `Math.abs(Math.round((curr-1)/2))` while that key is larger, and stops when the two positions coincide |
| Heap.MappingHeap.constructor | src/encoder.ts:18 | a new heap is empty |
| Heap.MappingHeap.Length | src/encoder.ts:20-22 | the number of entries the heap holds |
| Heap.MappingHeap.Get | src/encoder.ts:27-29 | the entry at a position in range (the head at position 0) |
| Heap.MappingHeap.Push | src/encoder.ts:23-26 | appends an entry and leaves the heap ordered, one longer, the old entries plus the new one |
| Heap.MappingHeap.FixHead | src/encoder.ts:31-51 | from a heap whose only possible disorder is at the head, restores heap order by permuting entries |
| Heap.MappingHeap.FixTail | src/encoder.ts:53-65 | from a heap whose only possible disorder is at the last entry, restores heap order by permuting entries (with the parent `(curr-1)/2`) |
| Encoding.ApplyIdxClosedForm | src/encoder.ts:113-119 | folding listed symbols into a coded symbol combines their symbols and hashes and adds `direction` once per symbol |
| Encoding.ApplyIdxReorder | src/encoder.ts:113-119 | folding the same distinct symbols in any order gives the same coded symbol |
| Encoding.Due | src/encoder.ts:113 | the symbols due at an index are exactly those whose mapping's last index is that index, each once |
| Encoding.Advance | src/encoder.ts:116-118 | steps exactly the mappings whose last index is `n` one step on, leaves every other mapping as it is, and keeps one mapping per symbol |
| Encoding.Entries | src/encoder.ts:98-102 | a window's queue entries pair each symbol position with its mapping's last index |
| Encoding.ApplyWindowAsWritten | src/encoder.ts:105-122 | applyWindow as written: an empty queue returns `cw`; a head due at the next index throws, since `appli` does not exist; otherwise `cw` comes back unchanged |
| Encoding.ApplyWindowAsWrittenThrows | src/encoder.ts:114 | as written, a window with one fresh symbol throws at coded symbol 0; the intended fold applies that symbol once |
| Encoding.CodingWindow.constructor | src/encoder.ts:70-74 | a new window is empty, consistent, and at index 0 |
| Encoding.CodingWindow.GetSymbols | src/encoder.ts:76-78 | the window's symbols, in the order they were added |
| Encoding.CodingWindow.AddSymbol | src/encoder.ts:80-87 | appends the symbol with its own hash and a fresh mapping seeded by that hash |
| Encoding.CodingWindow.AddHashedSymbol | src/encoder.ts:89-92 | appends the hashed symbol with a fresh mapping seeded by its hash |
| Encoding.CodingWindow.AddHashedSymbolWithMapping | src/encoder.ts:94-103 | appends the symbol and the mapping's state, and queues one entry keyed by the mapping's last index |
| Encoding.CodingWindow.FoldHead | src/encoder.ts:114-118 | folds the head's symbol in, steps its mapping, and re-keys only that symbol |
| Encoding.CodingWindow.ApplyWindow | src/encoder.ts:105-122 | folds exactly the symbols due at the next index into the coded symbol, steps exactly their mappings, and advances the index by one |
| Encoding.CodingWindow.Reset | src/encoder.ts:124-130 | clears the symbols, mappings and queue and restarts at index 0 |
| Encoding.ProducedFromEmpty | src/encoder.ts:153-157 | a coded symbol produced from the empty one holds the sum of the due symbols, the sum of their hashes, and their number as degree |
| Encoding.Encoder.constructor | src/encoder.ts:135-141 | a new encoder has an empty window at index 0 |
| Encoding.Encoder.AddSymbol | src/encoder.ts:143-146 | adds the symbol, with its hash, to the window |
| Encoding.Encoder.AddHashedSymbol | src/encoder.ts:148-151 | adds the hashed symbol to the window |
| Encoding.Encoder.ProduceNextCodedSymbol | src/encoder.ts:153-157 | returns the window step applied to the empty coded symbol with direction +1 |
| Encoding.Encoder.Reset | src/encoder.ts:159-162 | clears the window |
| Decoding.Pure | src/decoder.ts:94 | a coded symbol of degree 1 or -1 whose hash is the hash of its sum: the test for listing a slot a peel reaches |
| Decoding.Decodable | src/decoder.ts:62-65 | pure, or degree 0 with hash 0: the test for listing a newly added coded symbol |
| Decoding.Extract | src/decoder.ts:136-141 | the symbol copied through a fresh identity symbol holds exactly the coded symbol's sum and its hash |
| Decoding.PureHits | src/decoder.ts:94-96 | the entries a peeling pass lists are in range |
| Decoding.PureHitsMembers | src/decoder.ts:72-96 | along increasing positions, a position is listed exactly when it is visited and its coded symbol is pure afterwards |
| Decoding.PeelPure | src/decoder.ts:135-157 | peeling the recovered symbol off its own pure coded symbol leaves the empty coded symbol |
| Decoding.PeelingPass | src/decoder.ts:70-99 | the pass applies the symbol exactly along its walk, lists exactly the pure hits in visiting order, and returns the mapping where the walk stops |
| Decoding.Peeled | src/decoder.ts:135-157 | peeling a recovered symbol off keeps the number of coded symbols, only extends the decodable list, leaves the recovered windows alone, and counts one decoded |
| Decoding.Visit | src/decoder.ts:113-127 | a visit keeps the number of coded symbols, only extends the decodable list and the recovered lists, recovers at most one symbol, and counts one decoded exactly for degree 1, -1 or 0 |
| Decoding.Round | src/decoder.ts:102-130 | the decoding loop from list position `didx` with step bound `fuel`: visits the listed entries in order with `Visit`; empties the list and succeeds once all are visited; stops with `OutOfFuel` after `fuel` visits and with `InvalidDegree` at an entry of degree outside {-1, 0, 1} |
| Decoding.RoundCounts | src/decoder.ts:102-130 | a round keeps the number of coded symbols, and the list it stops with extends the one it started with and stays in range |
| Decoding.RoundVisits | src/decoder.ts:103 | a round visits at most `fuel` entries and never more than are listed |
| Decoding.RoundDecoded | src/decoder.ts:113-122 | a round counts exactly one decoded per visited entry |
| Decoding.RoundRecovers | src/decoder.ts:113-119 | a round only extends the recovered remote and local lists, by at most one symbol per visited entry |
| Decoding.RoundEnds | src/decoder.ts:102-130 | success means every listed entry was visited and the list is emptied; failure leaves the list, with entries unvisited, and is either the step bound used up after exactly `fuel` visits or the degree, outside {-1, 0, 1}, of the entry where the round stopped |
| Decoding.RoundOverEmpty | src/decoder.ts:120-122 | a round over listed entries of degree 0 succeeds, visits them all, counts one decoded each and recovers nothing |
| Decoding.RoundFirstThenEmpty | src/decoder.ts:102-130 | a round whose first visit leaves only degree-0 entries listed succeeds with the state after that visit and every entry counted |
| Decoding.Decoder.constructor | src/decoder.ts:23-31 | a new decoder has no coded symbols, nothing decodable, nothing decoded, and three empty, separate windows |
| Decoding.Decoder.IsDecoded | src/decoder.ts:33-35 | true exactly when the decoded count equals the number of coded symbols |
| Decoding.Decoder.GetLocal | src/decoder.ts:37-39 | the symbols recovered on the local side |
| Decoding.Decoder.GetRemote | src/decoder.ts:41-43 | the symbols recovered on the remote side |
| Decoding.Decoder.AddSymbol | src/decoder.ts:45-48 | adds the symbol with its hash to the decoder's own window |
| Decoding.Decoder.AddHashedSymbol | src/decoder.ts:50-52 | adds the hashed symbol to the decoder's own window |
| Decoding.Decoder.AddCodedSymbol | src/decoder.ts:54-67 | stores the coded symbol peeled through the own, the remote and the local window, steps the windows, and lists it exactly when decodable |
| Decoding.Decoder.ApplyNewSymbol | src/decoder.ts:70-99 | applies the symbol along its walk over the stored coded symbols, appends exactly the pure hits to the decodable list, and returns the stopped mapping |
| Decoding.Decoder.TryDecode | src/decoder.ts:102-130 | the outcome, the decoder's new state and the number of visits are exactly those of `Round` from the state before the call, whose properties RoundCounts, RoundVisits, RoundDecoded, RoundRecovers and RoundEnds state |
| Decoding.Decoder.VisitListed | src/decoder.ts:103-127 | visiting listed entry `didx` is one step of `Round`: the round from the new state at `didx + 1` is the round from the old state at `didx` |
| Decoding.Decoder.VisitEntry | src/decoder.ts:113-122 | the decoder's new state is `Visit` of its old state |
| Decoding.Decoder.AddRemoteCodedSymbol | src/decoder.ts:135-145 | removes the recovered symbol along its walk, lists the new pure hits, adds the symbol and its stopped mapping to the remote window, counts one decoded, and leaves the local window alone; for degree 1 this is `Visit` |
| Decoding.Decoder.AddLocalCodedSymbol | src/decoder.ts:147-157 | adds the recovered symbol back along its walk, lists the new pure hits, adds it and its stopped mapping to the local window, counts one decoded, and leaves the remote window alone; for degree -1 this is `Visit` |
| Decoding.Decoder.Reset | src/decoder.ts:159-166 | clears the coded symbols, the list, the counter and all three windows |
| Sketches.Slots | src/sketch.ts:10-15 | m empty coded symbols |
| Sketches.Added | src/sketch.ts:35-58 | adding symbols along their footprints keeps the number of slots |
| Sketches.SketchOf | src/sketch.ts:5 | a sketch of m slots has m slots |
| Sketches.AddedUndo | src/sketch.ts:26-58 | removing the symbols that were added restores every slot |
| Sketches.AddedCommute | src/sketch.ts:17-58 | two batches of additions or removals commute |
| Sketches.AddedPermutation | src/sketch.ts:17-58 | two lists with the same symbols, each as often, added in one direction give the same slots |
| Sketches.OrderIndependent | src/sketch.ts:5 | two listings of the same symbols, in any order, give the same sketch |
| Sketches.SubtractSelf | src/sketch.ts:60-72 | a sketch minus itself is the empty sketch |
| Sketches.SubtractSketches | src/sketch.ts:60-62 | the sketch of a minus the sketch of b is the sketch of a with the symbols of b removed |
| Sketches.SymmetricDifference | src/sketch.ts:60-62 | symbols both sets hold cancel out of the difference of their sketches |
| Sketches.AddedAt | src/sketch.ts:36-46 | each slot of an added sketch is the fold of exactly the symbols whose footprint covers it |
| Sketches.MappingsAtStep | src/encoder.ts:108-122 | the encoder's mappings start fresh and each window step moves them from index k to k+1 |
| Sketches.SketchIsEncoderPrefix | src/sketch.ts:5 | slot k of the sketch of a list equals coded symbol k of an encoder holding the same list |
| Sketches.DecodableAt | src/decoder.ts:60-66 | lists exactly the decodable coded symbols among the first n, in range |
| Sketches.Feed | src/sketch.ts:87 | a fresh decoder fed the slots in order stores them unchanged and lists exactly the decodable ones |
| Sketches.DecodableAtAll | src/decoder.ts:60-66 | when all of the first n slots are decodable, the list is 0 to n-1 in order |
| Sketches.Fed | src/sketch.ts:86-87 | the state of a fresh decoder fed the slots: the slots unchanged, exactly the decodable ones listed, nothing recovered, nothing decoded |
| Sketches.DecodeSlots | src/sketch.ts:85-94 | empty slots decode successfully, recovering nothing and counting every slot decoded |
| Sketches.SingleSlots | src/sketch.ts:35-58 | slots holding one added or removed symbol hold it alone in slot 0 and are empty or hold it alone elsewhere |
| Sketches.SinglePeeled | src/decoder.ts:135-157 | peeling that symbol off along its footprint empties the slots and finds no new pure coded symbol |
| Sketches.VisitSingle | src/decoder.ts:113-119 | visiting a first slot that holds one symbol alone recovers it on the side its degree names and leaves empty slots, still listed |
| Sketches.RoundSingle | src/decoder.ts:102-130 | a round over such a state succeeds, recovers exactly that symbol on the matching side, and finishes every slot |
| Sketches.DecodeFirstClears | src/sketch.ts:85-94 | slots of that shape decode successfully to exactly that symbol on the matching side, leaving empty slots |
| Sketches.DecodeSingle | src/sketch.ts:85-94 | the slots of one added (removed) symbol decode successfully to exactly that symbol on the remote (local) side |
| Sketches.DecodeSameSets | src/sketch.ts:80-94 | the difference of the sketches of the same list decodes successfully to nothing |
| Sketches.DecodeOneMore | src/sketch.ts:80-94 | when the first set holds one symbol more, the difference of the sketches decodes successfully, recovering exactly that symbol on the remote side and nothing on the local side |
| Sketches.DecodeOneLess | src/sketch.ts:80-94 | when the second set holds one symbol more, the difference of the sketches decodes successfully, recovering nothing on the remote side and exactly that symbol on the local side |
| Sketches.Sketch.constructor | src/sketch.ts:10-15 | a new sketch has m empty slots |
| Sketches.Sketch.AddSymbol | src/sketch.ts:17-24 | applies the symbol with its hash, counting up, along its footprint |
| Sketches.Sketch.RemoveSymbol | src/sketch.ts:26-33 | applies the symbol with its hash, counting down, along its footprint |
| Sketches.Sketch.AddHashedSymbol | src/sketch.ts:35-46 | applies the hashed symbol, counting up, along its footprint |
| Sketches.Sketch.RemoveHashedSymbol | src/sketch.ts:48-58 | applies the hashed symbol, counting down, along its footprint |
| Sketches.Sketch.Subtract | src/sketch.ts:63-74 | sizes differ: fails with a size mismatch and leaves the slots alone; otherwise every slot becomes its difference with the other sketch's slot |
| Sketches.Sketch.Decode | src/sketch.ts:85-94 | the result is one `Round` over the slots as they were (`DecodeRound`): it fails exactly when that round fails, with its error; on success it returns the round's remote symbols, local symbols and whether every slot was decoded; the slots end up as the round left them |

## Left out

- The generator step of `nextIndex` (a floating-point update of the PRNG and of the index gap using `Math.sqrt`, `Math.ceil` and `Math.round`) is a parameter. The model requires only that each step strictly increases the last index. It does not model:
  - the float arithmetic;
  - the 64-bit multiplication, which the source does not do either, because JavaScript numbers are doubles;
  - `1<<32`, which is 1 in JavaScript;
  - a PRNG value of zero, which makes the index infinite, and a negative one, whose square root is NaN and makes the index NaN. Once the PRNG overflows to infinity, the gap factor `1/sqrt(r) + 1` is 1 and a step sets the index to 2·lastIdx + 1. That is a strict increase, so the model's step parameter covers it.
- The probabilistic density of the mapping, index i with probability 1/(1+i/2), is not modelled. The model only needs the indices to be strictly increasing.
- Hashes are 64-bit words. JavaScript's `^=` works on 32-bit signed integers, and that truncation is not modelled.
- The symbol's hash, SipHash in the tests, is the parameter `symHash`. Non-homomorphism is a probabilistic assumption and is not modelled.
- Symbols are the concrete group of 64-bit words under exclusive-or, not an interface. The `newSymbol` factory is the identity `0`.
- `symbol.xor` may mutate its receiver. The model has value semantics, so aliasing between a recovered symbol and the coded symbol it came from is not modelled. Extract states that the copy holds the sum.
- Decoding.Decoder.TryDecode: the source loops while the decodable list grows. That end depends on the hash being non-homomorphic. The model takes a step bound `fuel` and reports `OutOfFuel` when it is used up, so it does not prove that decoding terminates.
- Decoding.Decoder.TryDecode: the source assumes a listed coded symbol never turns undecodable, and throws otherwise. The model returns `InvalidDegree` on that path instead of proving the case impossible.
- Sketches.Sketch.Decode: the relation to the symmetric difference on success is proved only for sets that differ in at most one symbol (DecodeSameSets, DecodeOneMore, DecodeOneLess). The general case rests on the probabilistic argument, which is not modelled.
- Sketches.Sketch.Decode: it takes the step bound `fuel` of TryDecode and can fail with `OutOfFuel`. The source's decode has no bound, so the model does not prove that decoding a sketch terminates.
- Sketches.Sketch.Decode: the source's decoder stores the sketch's own coded-symbol objects and mutates them. The model copies the decoder's final coded symbols back into the slots. It does not model other aliasing.
- A coding window keeps its mappings as `MapState` values, not as shared `RandomMapping` objects. The window's queue is a `const` heap that `Reset` empties, where the source allocates a new heap.
- Thrown errors (size mismatch in `subtract`, invalid degree in `tryDecode`) are `Outcome`/`Result` values.
- The source's queue entries are mutated in place through `get(0)`. In the model the window re-keys the head entry, then calls `FixHead`.
- Encoding.Encoder.ProduceNextCodedSymbol: `Fold` only folds when no mapping lags behind the next index. A symbol added after coded symbols were produced gets key 0, below the next index. The source's loop then never finds the head due and folds nothing, and the model states exactly that.
- The tests under `tests/` and all I/O, including the commented-out `console.log`, are not part of this model.

## Findings

| source | as written | input that shows it | evidently intended | confidence | as-written member | corrected member |
|---|---|---|---|---|---|---|
| src/encoder.ts:58 | `parent = Math.abs(Math.round((curr - 1) / 2))`; JavaScript rounds halves up, so an even position `curr` gets `curr / 2` | push key 2 onto a heap with keys [0, 5, 1, 6]: position 4 gets parent 2 (key 1) instead of 1 (key 5), the loop stops, and the heap is out of order | the parent of `curr` is `(curr - 1) / 2` rounded down, as in Go's container/heap | high; not executed | Heap.SiftUpAsWrittenBreaksOrder | Heap.MappingHeap.FixTail |
| src/encoder.ts:114 | `cw = cw.appli(...)`: coded symbols have `applySymbol`, not `appli`. Under `tsc` the call does not type-check, since `CodedSymbol<T>` has no property `appli`; transpiled without type checking, it throws a TypeError | a window with one freshly added symbol, asked for coded symbol 0 (its mapping starts at index 0) | `cw = cw.applySymbol(...)`, folding each due symbol into the coded symbol | high; not executed | Encoding.ApplyWindowAsWrittenThrows | Encoding.CodingWindow.ApplyWindow |
