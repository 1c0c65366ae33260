# Verified models of yacl

This project models seven parts of yacl, a C++ library of cryptographic protocols and their building
blocks, and proves what each part is for. `dafny verify dfyconfig.toml` checks everything.

- **Private set union** (`Gf64`, `Poly`, `Psu`). Polynomials over a field of characteristic 2 are
  interpolated in place: a master polynomial is built, one root is divided out, Lagrange terms are
  accumulated. Interpolation and evaluation are inverse to each other in both directions. The two-party
  protocol on top yields a set between the receiver's set and the union, and exactly the union under
  a condition on the inputs that is both necessary and sufficient.
- **Homomorphic ElGamal** (`ModArith`, `BatchInverse`, `Curve`, `ElGamal`, `Decrypt`, `ParSearch`).
  Decryption is a baby-step/giant-step search whose inversions are batched in a product tree held in one
  array. It returns the message in range, or reports that there is none, if and only if the first table
  look-up that answers is a true one, and on the same condition encrypting, adding, subtracting or scaling
  and then decrypting gives back the message. The multi-threaded search is a state machine over atomic steps;
  every interleaving ends, and all of them are right if and only if the first answer of every thread's chunk
  is true.
- **Cuckoo hashing** (`CuckooIndex`, `CuckooT1`, `T1Exact`). No input is lost or duplicated while inputs
  evict one another, every filled bin is one of its input's own bins, and the list of candidates that is
  read and overwritten in place behaves like two separate lists. When insertion fails is stated exactly.
- **Packed bit vectors** (`Bits`, `BitsetOps`, `DynamicBitset`, `BitsetOrder`). Every operation on words
  of any width does what the plain operation on a sequence of booleans does.
- **Link contexts** (`LinkKeys`, `LinkRun`, `LinkStats`, `LinkContext`). Runs of many parties with trees of
  contexts over shared channels, in which sends and receives may fail: message keys never collide, the n-th
  receive returns the n-th value sent or fails, nothing is lost, and a spawn tree's shared statistics are the
  totals over its histories. Each call of a context object is shown to be a step of such a run, which keeps the
  invariant for the next call, and the parties of a session in memory start in a state in which runs start.
- **Sigma protocols** (`SigmaConfig`, `Sigma`). Completeness and special soundness for all supported
  statement types, and how batchable and compact proofs compare.
- **Oblivious transfer conversions and the circuit executor** (`OtKernel`, `Circuit`, `Adder`). Running an
  ordered circuit solves the equations of its gates, in any order of the gates; a ripple-carry circuit made of all
  kinds of gates, run from the input words to the output word, adds and subtracts modulo 2^n.

`MachineWords` holds words as natural numbers with exclusive or, `Wrappers` the type of optional values.
`CurveExample` gives a curve with seven points over the field of five elements that meets every hypothesis
on curves, so the theorems about decryption are not empty, and a table on it that leads decryption astray.

## How things are represented

- The field GF(2^64) is a parameter that satisfies the laws of a field of characteristic 2
  (`Gf64.IsField`).
- A group element is named by its discrete logarithm, so adding points is adding modulo the order. For
  decryption the affine coordinates are functions of that name, with three hypotheses (`Curve.IsCurve`):
  two points have the same first coordinate only when they are equal or opposite, opposite points have
  opposite second coordinates, and the chord formula gives the first coordinate of a sum.
- Hashes, pseudo-random functions, random draws and oracles are parameters. Random and correlated
  oblivious transfer enter through the relation they promise.
- Threads, parties and channels are state machines whose runs are arbitrary interleavings of atomic steps.
- Exceptions are `None`, or `ok == false`.

## What the code does and its documentation or shape does not suggest

- `PlainExecutor::Finalize<T>` takes the width of output `nov - 1 - i` from `now[i]`. Every output gets its
  declared wires exactly when the list of widths reads the same in both directions
  (`Circuit.FinalizeAsDeclaredIff`); `Circuit.FinalizeSwapsSizes` is the smallest case that fails.
- `PlainExecutor::SetupInputs<T>` starts input k at wire `k * 8 * sizeof(T)`, whatever `niw` says. Every input lies
  on its declared wires exactly when those start where words do (`Circuit.InputsAsDeclaredIff`);
  `Circuit.InputMisplaced` is a case in which one does not.
- `PrevRank` subtracts and `NextRank` adds unsigned numbers. The one undoes the other exactly when both wrap
  around or neither does, or the world size divides 2^64 (`LinkContext.PrevUndoesNext`).
- The diagram in `examples/zkp/sigma.h` has the opposite sign from the code. The model follows the code: the
  response is `k - c x`, and the check is `c Z + f(r) = t`.
- Batchable and compact proofs do not always get the same verdict. They do, for all proofs, exactly when the
  oracle has no collision whose second message some response answers (`Sigma.BatchableVersusCompact`), which for
  generators that reach every point is a condition on the oracle alone (`Sigma.VerdictsAgreeIff`).
  `Sigma.CollidingOracle` is a proof on which they differ.
- In the set union the receiver pads a bin with the node 0, not with the hash of the empty element. For the empty
  element this does not matter, since it is dropped in any case. But an element of the sender whose 64-bit hash is
  0, or equals the hash of an element in the receiver's bin, is taken for one of the receiver's own and lost
  (`Psu.LostElement`); in `Psu.LostUnion` that is all there is, and the result is empty.
- A bin of the sender that overflows is cut off without notice, and the elements that come too late are lost
  (`Psu.OverflowIsLost`).
- `Op_search` compares slots and 32-bit keys only, so table T1 answers for some coordinates that are not in it, an
  empty slot answers for a key of 0, and decryption then returns a wrong message with success
  (`CurveExample.FalseHit`, on a table as it is built). `Decrypt.Decrypt` states exactly when this does not happen, and
  `T1Exact.ClearIsTrue` a condition on the bytes of the coordinates that rules it out. For a coordinate of fewer
  than 24 bytes `Op_search` reads past the end of the buffer.
- A receive that fails has already taken its number. From then on the n-th receive that succeeds is not the n-th
  message (`LinkRun.SuccessIsNthIff`); `LinkRun.OutOfStep` is such a run.
- `SubWorld` shares channels but not statistics with its parent, unlike `Spawn`.

## Model

| member | source | states |
|---|---|---|
| `Poly.Evaluate` | examples/psu/krtw19_psu.cc:55-61 | The loop from the last coefficient down computes Horner's recursion. |
| `Poly.EvalMeaning` | examples/psu/krtw19_psu.cc:55-61 | Horner's recursion is the sum of coefficients times powers. |
| `Poly.MultiplyIn` | examples/psu/krtw19_psu.cc:71-75 | One round of exchanges multiplies the polynomial in the array by a linear factor, in place, and leaves the rest zero. |
| `Poly.BuildMaster` | examples/psu/krtw19_psu.cc:67-76 | The array ends up as the product of all linear factors. |
| `Poly.MasterRoots` | examples/psu/krtw19_psu.cc:69-76 | The master polynomial vanishes at a point if and only if the point is a node. |
| `Poly.MasterAnyOrder` | examples/psu/krtw19_psu.cc:69-76 | Any node's factor can be taken last: the order of the nodes does not matter. |
| `Poly.MasterMonic` | examples/psu/krtw19_psu.cc:84 | The leading coefficient of the master polynomial is 1, which the division relies on. |
| `Poly.DivideOut` | examples/psu/krtw19_psu.cc:81-87 | The synthetic division of a monic polynomial computes the quotient. |
| `Poly.DivideExact` | examples/psu/krtw19_psu.cc:81-87 | Dividing by a root and multiplying back gives the polynomial: there is no remainder. |
| `Poly.DivideUndoes` | examples/psu/krtw19_psu.cc:81-87 | Dividing undoes multiplying by a linear factor. |
| `Poly.BasisAtNodes` | examples/psu/krtw19_psu.cc:89-90 | With distinct nodes, a basis polynomial is nonzero at its own node, so it can be inverted, and zero at all others. |
| `Poly.AddTerm` | examples/psu/krtw19_psu.cc:92-94 | Adds a multiple of the quotient to the result, coefficient by coefficient. |
| `Poly.Interpolate` | examples/psu/krtw19_psu.cc:63-98 | Fails exactly on lists of different lengths; the result has one coefficient per node and, for distinct nodes, takes every given value at its node. |
| `Poly.LagrangeAtNode` | examples/psu/krtw19_psu.cc:80-95 | After any number of rounds the sum takes the given values at the nodes done and zero at the others. |
| `Poly.ManyRoots` | examples/psu/krtw19_psu.cc:55-98 | A polynomial with as many distinct roots as coefficients is zero. |
| `Poly.Determined` | examples/psu/krtw19_psu.cc:55-98 | Two polynomials that agree at as many distinct points as they have coefficients are equal. |
| `Poly.InterpolateEvaluate` | examples/psu/krtw19_psu.cc:55-98 | Interpolating the values of a polynomial at distinct nodes gives back its coefficients. |
| `Psu.PositionsDiffer` | examples/psu/krtw19_psu.cc:124-142 | The slots of n bins have the positions below n times the bin size, each its own. |
| `Psu.HashInputs` | examples/psu/krtw19_psu.cc:43-51 | Bin k holds the inputs at exactly those places whose hash is k modulo the number of bins, once each and in order, and the sizes of the bins add up to the number of inputs. |
| `Psu.BinCounts` | examples/psu/krtw19_psu.cc:43-51 | An element is in its own bin as often as among the inputs, and in no other. |
| `Psu.BinPicks` | examples/psu/krtw19_psu.cc:43-51 | The places of the inputs that a bin holds, ascending and complete. |
| `Psu.SortAscends` | examples/psu/krtw19_psu.cc:127 | A sorted bin is ascending. |
| `Psu.Offer` | examples/psu/krtw19_psu.cc:205-215 | The coefficients sent interpolate the masked function values at the bin's elements, the zero node and the random pads. |
| `Psu.Round` | examples/psu/krtw19_psu.cc:203-223 | The choice bit of a slot is set exactly when the sender's reply equals the seed. |
| `Psu.NodeMatches` | examples/psu/krtw19_psu.cc:203-223 | With distinct nodes, every element whose hash is one of them gives back the seed. |
| `Psu.MatchesIff` | examples/psu/krtw19_psu.cc:203-223 | With distinct nodes the bit is set exactly when the offered values at the nodes and at the hash of the element lie on one polynomial with as many coefficients as the bin has slots. |
| `Psu.OwnElementMatches` | examples/psu/krtw19_psu.cc:203-223 | So an element of the receiver's bin always does. |
| `Psu.ExchangeRow` | examples/psu/krtw19_psu.cc:125-159 | For one bin, the sender's padded and sorted slots and the receiver's bits, slot by slot. |
| `Psu.Exchange` | examples/psu/krtw19_psu.cc:197-224 | The same for all bins. |
| `Psu.Encrypt` | examples/psu/krtw19_psu.cc:162-166 | Each element is masked with the first key of its transfer. |
| `Psu.Collect` | examples/psu/krtw19_psu.cc:235-242 | Unmasking the transfers whose bit is clear yields exactly their nonempty elements. |
| `Psu.Run` | examples/psu/krtw19_psu.cc:100-244 | The result of a run holds the receiver's elements and those that arrive through a clear bit, nothing else; two empty sets give the empty set. |
| `Psu.ResultBetween` | examples/psu/krtw19_psu.cc:176-244 | The result contains the receiver's set and is contained in the union. |
| `Psu.ResultIsUnionIff` | examples/psu/krtw19_psu.cc:176-244 | The result is the union if and only if every element only the sender has is nonempty and has a slot whose reply differs from the seed. |
| `Psu.ResultIsUnion` | examples/psu/krtw19_psu.cc:176-244 | If no more inputs of the sender hash to a bin than it has slots, no element is empty and no element only the sender has gives back the seed, the result is the union. |
| `Psu.HasSlotIff` | examples/psu/krtw19_psu.cc:125-128 | An element of the sender gets a slot exactly when one of its occurrences has fewer inputs before it in the same bin than the bin has slots. |
| `Psu.OverflowIsLost` | examples/psu/krtw19_psu.cc:125-128 | An element that comes too late to an overfull bin is missing from the result unless the receiver has it. |
| `Psu.CommonElementMatches` | examples/psu/krtw19_psu.cc:203-223 | Every element of both sets sets its choice bit when its bin's nodes are distinct. |
| `Psu.LostElement` | examples/psu/krtw19_psu.cc:203-242 | An element only the sender has whose hash is that of an element in the receiver's bin, or 0 when the bin is not full, is missing from the result. |
| `Psu.LostUnion` | examples/psu/krtw19_psu.cc:203-242 | One bin of one slot, an empty receiver and one element of the sender with hash 0: the result is empty, though the union is not. |
| `BatchInverse.BuildTree` | examples/hesm2/ahesm2.cc:85-98 | The array holds the leaves, then the product of each pair modulo P, up to the root, all of them units. |
| `BatchInverse.FillFloor` | examples/hesm2/ahesm2.cc:112-123 | From the inverses of one floor of the tree the loop makes those of the floor below, finding siblings by flipping the lowest index bit. |
| `BatchInverse.Descend` | examples/hesm2/ahesm2.cc:99-124 | The floor offsets end exactly at 0 and every entry of the second array is the inverse of the entry of the tree. |
| `BatchInverse.ChildInverse` | examples/hesm2/ahesm2.cc:117-120 | The sibling times the inverse of the parent is the inverse of the child. |
| `BatchInverse.BatchInvert` | examples/hesm2/ahesm2.cc:85-124 | For every depth and all leaves that are nonzero modulo the prime, each result times its leaf is 1 modulo the prime. |
| `ElGamal.HiddenEncrypt` | examples/hesm2/ahesm2.cc:30-42 | An encryption of m under any key and randomness hides the point m G. |
| `ElGamal.EncryptDetermines` | examples/hesm2/ahesm2.cc:30-42 | Two encryptions under one key are equal exactly when messages and randomness agree modulo the order. |
| `ElGamal.RangeInNumbers` | examples/hesm2/config.h:28-37 | The messages in range are those of size up to 2^(Ilen + Jlen + 1) + 2^Jlen. |
| `ElGamal.SourceRange` | examples/hesm2/config.h:28-37 | With the sizes of the source, up to 8590983168. |
| `ElGamal.HiddenAdd` | examples/hesm2/ahesm2.cc:351-357 | The sum of two ciphertexts hides the sum of their points. |
| `ElGamal.HiddenSub` | examples/hesm2/ahesm2.cc:359-365 | The difference hides the difference. |
| `ElGamal.HiddenMul` | examples/hesm2/ahesm2.cc:367-373 | The multiple hides the multiple. |
| `Decrypt.InitializeVector` | examples/hesm2/t2.h:92-104 | Entry i of the second table is the affine point of -i L1 G, with L1 = 2^(Jlen + 1). |
| `Decrypt.PointDeterminesMessage` | examples/hesm2/config.h:28-37 | With an order above 2 Mmax, messages in range have different points. |
| `Decrypt.ChordIsSum` | examples/hesm2/ahesm2.cc:129-136 | The computed coordinate is the first coordinate of the sum of the two points. |
| `Decrypt.BabyStep` | examples/hesm2/ahesm2.cc:60-69 | An answer of the table for the difference to a base yields the message exactly when the answer is true for that coordinate; no answer means that no message lies within Jmax of the base. |
| `Decrypt.Cover` | examples/hesm2/config.h:28-37 | Every message in range is a giant step, its opposite, or within Jmax of one of them. |
| `Decrypt.OneBlock` | examples/hesm2/config.h:28-37 | A message strictly inside the block of one giant step, up to sign, is in the block of no other. |
| `Decrypt.Differences` | examples/hesm2/ahesm2.cc:71-84 | The loop over coordinate differences finds the message when it is a multiple of L1, and else leaves only nonzero differences. |
| `Decrypt.ProbeCorrect` | examples/hesm2/ahesm2.cc:126-170 | Giant step j yields the message exactly when the first of its two look-ups that answers is true, and a miss means that no message lies within Jmax of j L1 or of -j L1. |
| `Decrypt.Prepare` | examples/hesm2/ahesm2.cc:50-124 | Before the giant steps there is either a result, right exactly when the look-up of the point itself is true, or all inverses are right and no message near 0 and no multiple of L1 fits. |
| `Decrypt.SearchAll` | examples/hesm2/ahesm2.cc:126-172 | The loop over the giant steps is right if and only if the first step that answers answers truly. |
| `Decrypt.Decrypt` | examples/hesm2/ahesm2.cc:50-173 | For every filled table: the result is the message in range, or the failure because there is none, if and only if the first look-up that answers is a true one. |
| `CurveExample.CollidingTable` | examples/hesm2/t1.h:62-111 | A table as it is built from the baby steps, which answers for a second coordinate with other bytes as well. |
| `CurveExample.FalseHit` | examples/hesm2/ahesm2.cc:60-69 | With that table, a message in range for which decryption returns another one with success. |
| `CurveExample.SmallSetting` | examples/hesm2/ahesm2.cc:50-173 | A curve and a table that meet all hypotheses, with true answers for every point. |
| `Decrypt.EncryptDecrypt` | examples/hesm2/ahesm2.cc:30-173 | For every key, randomness and message of size up to 2^(Ilen + Jlen + 1) + 2^Jlen, encrypting and then decrypting returns the message with success if and only if the first look-up that answers for its point is a true one; exactly the other messages are refused. |
| `Decrypt.AddDecrypt` | examples/hesm2/ahesm2.cc:351-357 | Decrypting a sum of ciphertexts returns the sum of the messages, if in range, with success, and else the message in range with the same point or a failure, if and only if the first look-up that answers for that point is a true one. |
| `Decrypt.SubDecrypt` | examples/hesm2/ahesm2.cc:359-365 | The same for differences. |
| `Decrypt.MulDecrypt` | examples/hesm2/ahesm2.cc:367-373 | The same for multiples. |
| `ParSearch.ChunksPartition` | examples/hesm2/ahesm2.cc:316-331 | For any number of threads every giant step is in exactly one chunk. |
| `ParSearch.ChunksBalanced` | examples/hesm2/ahesm2.cc:317-331 | All chunks but the last have Imax divided by the number of threads steps, and the last has fewer than that number of threads more. |
| `ParSearch.FoundStops` | examples/hesm2/ahesm2.cc:175-240 | In every run, once the flag is set no thread begins another giant step. |
| `ParSearch.StepInv` | examples/hesm2/ahesm2.cc:175-338 | Every step of every thread keeps the invariant about chunks, flags and the result cell. |
| `ParSearch.RunInv` | examples/hesm2/ahesm2.cc:316-343 | The invariant holds in every state of every run. |
| `ParSearch.SearchOutcome` | examples/hesm2/ahesm2.cc:326-348 | When all threads have finished, a result was claimed if and only if some giant step hits, and then the result written is that of the first hit of some chunk. |
| `ParSearch.RunIsBounded` | examples/hesm2/ahesm2.cc:175-343 | No run is longer than a rank computed from its first state: the threads always finish. |
| `ParSearch.HitCanWin` | examples/hesm2/ahesm2.cc:175-348 | The first hit of any chunk is the result of some interleaving. |
| `ParSearch.ParallelDecrypts` | examples/hesm2/ahesm2.cc:240-349 | If the first answer of every chunk is true, every interleaving meets the contract of decryption. |
| `ParSearch.ParallelDecryptsIff` | examples/hesm2/ahesm2.cc:240-349 | All interleavings do if and only if the first answer of every chunk is true. |
| `ParSearch.ParallelRefinesDecrypt` | examples/hesm2/ahesm2.cc:240-349 | Under that condition every interleaving returns the same message and success flag as the sequential loop. |
| `ParSearch.SearchRoundTrip` | examples/hesm2/ahesm2.cc:316-349 | For the point of a message in range, all interleavings of the search return that message with success if and only if the first answer of every chunk is true. |
| `ParSearch.ParallelRoundTrip` | examples/hesm2/ahesm2.cc:240-349 | For the whole of parallel decryption: whatever the interleaving, the message in range is returned with success if and only if every look-up that may decide is a true one. |
| `CuckooIndex.DecodeEncode` | yacl/utils/cuckoo_index.h:60-73 | Input and hash index can be read back from an encoded bin, which is never the empty mark. |
| `CuckooIndex.HashWindow` | yacl/utils/cuckoo_index.h:86-95 | Hash i is the 64 bits of the code that start at bit 16 i. |
| `CuckooIndex.CuckooIndex.constructor` | yacl/utils/cuckoo_index.cc:22-30 | A new index is valid and empty. |
| `CuckooIndex.OnwardIsNext` | yacl/utils/cuckoo_index.cc:60-64 | An evicted input is sent on to its next hash function, after the last to the first. |
| `CuckooIndex.NoEviction` | yacl/utils/cuckoo_index.cc:32-70 | An input whose first bin is empty goes there and nothing else changes. |
| `CuckooIndex.OneEviction` | yacl/utils/cuckoo_index.cc:32-70 | An input whose first bin is taken takes it; what was there goes to its bin under the next hash function, in a circle, and if that bin is empty nothing else changes. |
| `CuckooIndex.CuckooIndex.Pass` | yacl/utils/cuckoo_index.cc:54-67 | A pass that overwrites the list it reads gives the same bins and the same candidates as one with two lists. |
| `CuckooIndex.PassedBalanced` | yacl/utils/cuckoo_index.cc:54-67 | At every point of a pass each input is in exactly one of the bins, the stash, the candidates written and the candidates not yet read. |
| `CuckooIndex.CuckooIndex.Settle` | yacl/utils/cuckoo_index.cc:50-68 | Passes are repeated until there is no candidate or the tries are used up. |
| `CuckooIndex.SettledBalanced` | yacl/utils/cuckoo_index.cc:50-68 | No number of passes loses or duplicates an input. |
| `CuckooIndex.CuckooIndex.PutToStash` | yacl/utils/cuckoo_index.cc:75-84 | The first empty place of the stash takes the input; it fails exactly when there is none. |
| `CuckooIndex.CuckooIndex.Insert` | yacl/utils/cuckoo_index.cc:32-73 | If it succeeds, every input so far is in exactly one place and every filled bin is one its input hashes to; the bins are the outcome of the passes; it succeeds if and only if the inputs are not more than announced and those left over are not more than the empty places of the stash. |
| `CuckooIndex.CuckooIndex.SanityCheck` | yacl/utils/cuckoo_index.cc:86-108 | The check passes if and only if every announced input is in exactly one place and nothing else is anywhere. |
| `CuckooIndex.ExactlyOnePlace` | yacl/utils/cuckoo_index.cc:32-73 | A conserved input is in one bin and not in the stash, or in one place of the stash and in no bin. |
| `CuckooIndex.CuckooIndex.MinCollidingHashIdx` | yacl/utils/cuckoo_index.cc:136-148 | For a filled bin it returns the least hash function that sends the input there and never falls through. |
| `CuckooT1.SubBytesFour` | examples/hesm2/config.cc:22-29 | Four bytes are read as a number, most significant byte first. |
| `CuckooT1.SlotAndKey` | examples/hesm2/t1.h:71-76 | Hash function id takes slot and key from the eight bytes from 8 (id - 1) on, four each, most significant first. |
| `CuckooT1.EvictedGoesOn` | examples/hesm2/t1.h:84-89 | What hash function 1, 2 or 3 had placed goes, when evicted, to its slot of hash function 2, 3 or 1. |
| `CuckooT1.ChainPlaces` | examples/hesm2/t1.h:65-96 | Every chain of evictions that goes through different slots to a free one is placed within as many tries as it is long, and no other slot changes. |
| `CuckooT1.TwoTries` | examples/hesm2/t1.h:65-96 | So if what is in the first slot of a multiplier has its next slot free, two tries suffice. |
| `CuckooT1.CuckooT1.Try` | examples/hesm2/t1.h:69-89 | The multiplier in hand takes its slot with its key, and what was there moves on to its next hash function; the table stays right. |
| `CuckooT1.CuckooT1.InsertOne` | examples/hesm2/t1.h:65-96 | If it succeeds, one more multiplier is in the table, once, and every slot is right; it fails exactly when the allowed number of tries leaves some multiplier in hand; and every chain of evictions that starts with the multiplier and is not longer than the tries is placed. |
| `CuckooT1.CuckooT1.Insert` | examples/hesm2/t1.h:62-97 | If it succeeds, each multiplier up to Jmax is in the table exactly once, at one of its three slots and with its own key; it succeeds if and only if placing one after the other leaves none in hand after the allowed tries, and the table is the outcome of that. |
| `CuckooT1.OpSearch` | examples/hesm2/t1.h:99-111 | Returns the content of the first of the three slots whose key matches, or that none does; it says where the bytes run out before that is decided. |
| `CuckooT1.SearchStored` | examples/hesm2/t1.h:62-111 | Searching for a stored coordinate succeeds and gives its multiplier unless a slot probed earlier carries the same key. |
| `T1Exact.TableGuarantees` | examples/hesm2/t1.h:62-111 | A table that was built has what decryption asks of it, whatever collisions there are: it answers for all baby steps, and only with contents of its slots. |
| `T1Exact.FalseAnswerIff` | examples/hesm2/t1.h:99-111 | The answer for a coordinate is false if and only if the first slot whose key matches is empty or belongs to another coordinate. |
| `T1Exact.TableIsExact` | examples/hesm2/t1.h:99-111 | The answer for a coordinate is true if none of its keys is 0 and no baby step with another coordinate shares slot and key with it. |
| `T1Exact.ClearIsTrue` | examples/hesm2/ahesm2.cc:50-349 | If this holds for the coordinates that are looked up for a point, both forms of decryption are right for it; a multiple of L1 needs it for its own coordinate only, the zero message for none. |
| `Bits.BitMask` | yacl/base/dynamic_bitset.h:3137-3147 | The mask, made by decrementing powers of two, has exactly the bits from first to last. |
| `Bits.SetBlockBits` | yacl/base/dynamic_bitset.h:3150-3157 | Sets exactly the bits from first to last of a word. |
| `Bits.DecrementValue` | yacl/base/dynamic_bitset.h:3144-3145 | The decrement on bits used by the mask is subtraction of one. |
| `BitsetOrder.ShlValue` | yacl/base/dynamic_bitset.h:2424-2431 | The shift on bits is multiplication by a power of two modulo the range of the word. |
| `BitsetOrder.ShrValue` | yacl/base/dynamic_bitset.h:2424-2431 | The shift on bits is division by a power of two. |
| `DynamicBitset.DynamicBitset.Sanitize` | yacl/base/dynamic_bitset.h:3476-3481 | The unused bits of the last word are cleared and no other bit changes. |
| `BitsetOps.CleanedConsistent` | yacl/base/dynamic_bitset.h:3476-3502 | After it, all unused bits are zero and the contents are as before. |
| `DynamicBitset.DynamicBitset.Resize` | yacl/base/dynamic_bitset.h:2355-2381 | Cuts the sequence off or fills it up with the value. |
| `DynamicBitset.DynamicBitset.Set` | yacl/base/dynamic_bitset.h:2644-2655 | Changes one bit. |
| `DynamicBitset.DynamicBitset.PushBack` | yacl/base/dynamic_bitset.h:2390-2401 | Appends one bit. |
| `DynamicBitset.DynamicBitset.PopBack` | yacl/base/dynamic_bitset.h:2404-2418 | Drops the last bit; an empty bitset stays empty. |
| `DynamicBitset.DynamicBitset.AppendBlock` | yacl/base/dynamic_bitset.h:2421-2432 | Appends the bits of a word, across a word boundary if need be. |
| `DynamicBitset.DynamicBitset.AppendRange` | yacl/base/dynamic_bitset.h:2446-2485 | Appending many words with a carry equals appending them one by one. |
| `BitsetOps.AppendedAllContents` | yacl/base/dynamic_bitset.h:2446-2501 | Appending words and cutting to size is concatenation of the bits. |
| `DynamicBitset.DynamicBitset.AppendOther` | yacl/base/dynamic_bitset.h:2488-2501 | Appending another bitset is concatenation. |
| `DynamicBitset.DynamicBitset.AppendSelf` | yacl/base/dynamic_bitset.h:2495-2500 | Appending a bitset to itself doubles it, although its last word changes while it is read. |
| `DynamicBitset.DynamicBitset.ApplyLeftShift` | yacl/base/dynamic_bitset.h:3413-3441 | Moving words in place, from the last down, equals moving them all at once. |
| `DynamicBitset.DynamicBitset.ApplyRightShift` | yacl/base/dynamic_bitset.h:3444-3473 | The same from the first up. |
| `DynamicBitset.DynamicBitset.ShiftLeft` | yacl/base/dynamic_bitset.h:2555-2565 | Moves every bit up, fills with zeros and keeps the size, for every shift. |
| `DynamicBitset.DynamicBitset.ShiftRight` | yacl/base/dynamic_bitset.h:2569-2578 | Moves every bit down, fills with zeros and keeps the size, for every shift. |
| `BitsetOps.UpThenDown` | yacl/base/dynamic_bitset.h:2555-2578 | Shifting up and down again keeps exactly the bits that did not leave at the top. |
| `DynamicBitset.DynamicBitset.SetRange` | yacl/base/dynamic_bitset.h:2602-2640 | Sets exactly the bits of the range, over any number of words. |
| `DynamicBitset.DynamicBitset.FindFirst` | yacl/base/dynamic_bitset.h:2918-2925 | Finds the lowest set bit, or none if and only if no bit is set. |
| `DynamicBitset.DynamicBitset.FindNext` | yacl/base/dynamic_bitset.h:2929-2951 | Finds the lowest set bit above a position, or none if and only if there is none. |
| `DynamicBitset.DynamicBitset.IterateBitsOn` | yacl/base/dynamic_bitset.h:2993-3026 | Visits the set bits in order, each once, all of them or up to and with the first for which the callback returns false. |
| `BitsetOps.SetBitsAreAll` | yacl/base/dynamic_bitset.h:2993-3011 | What is visited is ascending and holds exactly the set bits. |
| `DynamicBitset.DynamicBitset.ToString` | yacl/base/dynamic_bitset.h:2968-2989 | One character per bit, the highest bit first. |
| `DynamicBitset.DynamicBitset.InitFromString` | yacl/base/dynamic_bitset.h:3338-3359 | Reads the chosen part of a text, its last character being bit 0. |
| `BitsetOps.ParseText` | yacl/base/dynamic_bitset.h:2968-2989 | Reading what was written gives the bits back. |
| `BitsetOps.TextIsBinary` | yacl/base/dynamic_bitset.h:2968-2989 | The text, read the usual way round, is the value of the bits in binary notation. |
| `BitsetOps.TextParse` | yacl/base/dynamic_bitset.h:3338-3359 | Writing what was read gives a text of zeros and ones back. |
| `BitsetOrder.NumberIsValue` | yacl/base/dynamic_bitset.h:3050-3104 | The number the words make up is the binary value of the contents. |
| `BitsetOrder.Less` | yacl/base/dynamic_bitset.h:3050-3104 | Compares by numeric value and then by size, for any two sizes and word counts. |
| `BitsetOrder.BelowIsStrictOrder` | yacl/base/dynamic_bitset.h:3042-3104 | That order is irreflexive, transitive, asymmetric and total. |
| `BitsetOrder.EqualIff` | yacl/base/dynamic_bitset.h:3042-3047 | Comparing size and words is comparing the contents. |
| `LinkKeys.KeyInjective` | yacl/link/context.cc:406-410 | A message key determines context id, number, sender and receiver, whatever the id strings are. |
| `LinkKeys.PathInjective` | yacl/link/context.cc:338-344 | Automatically numbered context ids determine the path from the root. |
| `LinkKeys.PathKeysInjective` | yacl/link/context.cc:338-410 | No two messages of automatically spawned contexts share a key. |
| `LinkRun.NextAddrFree` | yacl/link/context.cc:213-220 | The place of the next message of a flow is never taken. |
| `LinkRun.StepInv` | yacl/link/context.cc:213-354 | Spawning, sending, arriving and receiving, also when a send or a receive fails, keep the invariant that ties counters, channels and histories together. |
| `LinkRun.RecvGetsNext` | yacl/link/context.cc:257-263 | A receive that succeeds takes the message of its own flow that has its own number. |
| `LinkRun.InOrderDelivery` | yacl/link/context.cc:213-354 | In every run the n-th receive from a party in a context returns the n-th value that party sent here in the context of the same id, or fails, and never another. |
| `LinkRun.SuccessIsNthIff` | yacl/link/context.cc:257-263 | The n-th receive that succeeds takes message number n if and only if no earlier receive of its flow has failed. |
| `LinkRun.OutOfStep` | yacl/link/context.cc:257-263 | A run in which a receive is given up, two values are sent and the first receive that succeeds returns the second. |
| `LinkRun.ReceiveReady` | yacl/link/context.cc:213-354 | Nothing is lost: when everything has arrived, a receive whose message has been sent succeeds. |
| `LinkStats.StatsAreTotals` | yacl/link/context.cc:265-354 | In every run what a statistics object shows are the sums of actions and bytes over the histories of all contexts that hold it. |
| `LinkStats.TreeSharesCell` | yacl/link/context.cc:346-351 | In every run two contexts hold the same statistics object if and only if they belong to the same party's spawn tree. |
| `LinkRun.AutoSpawnIsFresh` | yacl/link/context.cc:338-344 | Under automatic numbering the id of a new context is new. |
| `LinkRun.NumberedRun` | yacl/link/context.cc:338-354 | In every run with automatic numbering the ids are paths with numbers below their parent's counter. |
| `LinkContext.PrevRankExact` | yacl/link/context.cc:106-108 | What going back a stride gives, with and without wrap-around. |
| `LinkContext.NextRankExact` | yacl/link/context.cc:110-112 | What going on a stride gives, with and without wrap-around. |
| `LinkContext.PrevUndoesNext` | yacl/link/context.cc:106-112 | For every stride, going back undoes going on if and only if both wrap around or neither does, or the world size divides 2^64. |
| `LinkContext.PrevRankWraps` | yacl/link/context.cc:106-112 | A world of three and a stride of seven, where it does not. |
| `LinkContext.Context.NextP2PId` | yacl/link/context.cc:406-410 | The key belongs to the next message of this context in this direction, and no other message of any context in any direction has it. |
| `LinkContext.Context.ChildIdIsNamed` | yacl/link/context.cc:338-344 | The id of a named child is the parent's followed by a dash and the name, so different names give different ids. |
| `LinkContext.AfterSendIsSteps` | yacl/link/context.cc:213-274 | The state after a send over a channel in memory is that of the send step of a run and, if the send succeeds, of the step in which the message arrives. |
| `LinkContext.AfterSendInv` | yacl/link/context.cc:213-274 | It satisfies the invariant of runs again. |
| `LinkContext.Context.SendAsync` | yacl/link/context.cc:213-274 | If the objects of a world are in a sound state of a run, a call leaves them in the state after the send, sound again, and changes no other object; it fails exactly when the rank is out of range or the peer has released the channel. |
| `LinkContext.Context.Recv` | yacl/link/context.cc:257-336 | If the objects of a world are in a state of a run, a call returns what the receive step returns and leaves them in the state after it, sound if it was. |
| `LinkContext.Context.Spawn` | yacl/link/context.cc:338-354 | The world with the child is connected as before and, if the child's id is new, in the state after the spawn step of the run, sound if it was. |
| `LinkContext.SendRecv` | yacl/link/context.cc:213-263 | As long as two parties have taken the same numbers, what one object sends is what the other then receives, and they have taken the same numbers again. |
| `LinkContext.CreateSession` | yacl/link/factory_mem.cc:40-80 | For any number of parties the new objects are connected and in a state in which runs start, which satisfies the invariant. |
| `SigmaConfig.SupportedSizes` | examples/zkp/sigma_config.cc:23-68 | The sizes of a qualified configuration fit its type's statement shape. |
| `SigmaConfig.SetDynNumAccepts` | examples/zkp/sigma_config.cc:70-97 | Exactly which types accept which sizes. |
| `Sigma.EcStatementNN1` | examples/zkp/sigma_owh.cc:45-55 | The accumulated point is the inner product of generators and witness, which for the witness that is 1 in one place and 0 elsewhere is that place's generator. |
| `Sigma.InnerOfUnit` | examples/zkp/sigma_owh.cc:45-55 | Each generator counts: the sum for a unit witness is the generator of its place. |
| `Sigma.InnerSplit` | examples/zkp/sigma_owh.cc:45-55 | The sum over two lists is the sum of their sums, and a list of one gives its product. |
| `Sigma.StatementByType` | examples/zkp/sigma_owh.cc:42-112 | The statement of each supported type, written out. |
| `Sigma.EcStatementNNN` | examples/zkp/sigma_owh.cc:60-69 | One product for each generator and witness. |
| `Sigma.EcStatement1NN` | examples/zkp/sigma_owh.cc:74-83 | Every generator times the one witness. |
| `Sigma.ToStatement` | examples/zkp/sigma_owh.cc:86-112 | Fails exactly on wrong sizes or types, else gives the statement of the type's shape. |
| `Sigma.Homomorphism` | examples/zkp/sigma_owh.cc:45-112 | The statement of a linear combination is the linear combination of the statements, for all shapes. |
| `Sigma.ProofOp` | examples/zkp/sigma.cc:266-278 | The response is k - c x in every place, reduced. |
| `Sigma.Prove` | examples/zkp/sigma.cc:250-259 | Fails exactly on wrong sizes, else returns the response. |
| `Sigma.Verify` | examples/zkp/sigma.cc:107-125 | Accepts exactly when c Z + f(r) = t in every place; wrong sizes are errors. |
| `Sigma.Completeness` | examples/zkp/sigma.cc:100-125 | Every honest transcript is accepted. |
| `Sigma.SpecialSoundness` | examples/zkp/sigma.cc:107-125 | Two accepted transcripts with the same first message and different challenges yield a witness of the statement. |
| `Sigma.ProveBatchable` | examples/zkp/sigma.cc:127-141 | The proof consists of the first message and the response to the oracle's challenge. |
| `Sigma.VerifyBatchable` | examples/zkp/sigma.cc:143-149 | Accepts exactly when the transcript with the oracle's challenge is accepted. |
| `Sigma.ProveCompact` | examples/zkp/sigma.cc:151-165 | The proof consists of the challenge and the response. |
| `Sigma.VerifyCompact` | examples/zkp/sigma.cc:167-180 | Accepts exactly when the oracle gives the challenge back on the implied first message. |
| `Sigma.HonestAccepted` | examples/zkp/sigma.cc:127-180 | Honest proofs of both forms are accepted. |
| `Sigma.AcceptsIsImplied` | examples/zkp/sigma.cc:107-180 | A transcript is accepted if and only if its first message is the implied one. |
| `Sigma.VerdictAt` | examples/zkp/sigma.cc:143-180 | An accepted batchable proof has an accepted compact form, and the verdicts on a proof differ only through a collision. |
| `Sigma.BatchableVersusCompact` | examples/zkp/sigma.cc:143-180 | The verdicts on both forms agree for all proofs of the right sizes if and only if the oracle has no collision whose second message some response answers. |
| `Sigma.VerdictsAgreeIff` | examples/zkp/sigma.cc:143-180 | With generators that reach every point they agree if and only if no first message shares its challenge with another one of reduced points. |
| `Sigma.CollidingOracle` | examples/zkp/sigma.cc:143-180 | A proof whose compact form is accepted and whose batchable form is not. |
| `Sigma.CompactToBatchable` | examples/zkp/sigma.cc:143-180 | An accepted compact proof becomes an accepted batchable one by adding the implied first message. |
| `OtKernel.CotToRotSend` | yacl/kernel/ot_kernel.cc:46-57 | The two keys of a transfer are the hashes of its block and of its block exclusive-or the difference. |
| `OtKernel.CotToRotRecv` | yacl/kernel/ot_kernel.cc:60-72 | The receiver keeps its choices and hashes its blocks. |
| `OtKernel.CotToRotCorrect` | yacl/kernel/ot_kernel.cc:46-72 | From any correlation and any hash the result is a random oblivious transfer. |
| `OtKernel.ChoiceIsLowBit` | yacl/kernel/ot_kernel.cc:64-65 | With an odd difference and even blocks, the lowest bit of the receiver's block is its choice. |
| `OtKernel.UnmaskPair` | yacl/kernel/ot_kernel.cc:98-143 | The chosen message can be unmasked, for every random bit and every choice. |
| `OtKernel.SendBatch` | yacl/kernel/ot_kernel.cc:93-105 | The masked pairs of one batch. |
| `OtKernel.RecvBatch` | yacl/kernel/ot_kernel.cc:137-144 | Writes the outputs of one batch and no others. |
| `OtKernel.RotToOt` | yacl/kernel/ot_kernel.cc:75-146 | Every output is the chosen message, over all batches and the short last one. |
| `Circuit.PlainExecutor.Exec` | yacl/utils/circuit_executor.cc:64-102 | Fails exactly when there is a multiple-and gate, else leaves the wires as a run of the gates, on which an ordered circuit has all gate equations solved: sum modulo 2, product, 1 minus the bit, constant not 0, copy. |
| `Circuit.RunSolves` | yacl/utils/circuit_executor.cc:64-102 | When every wire is written once and read after it is set, all gate equations hold at the end. |
| `Circuit.RunIsSolved` | yacl/utils/circuit_executor.cc:64-102 | The same with bits as numbers and the equations written out. |
| `Circuit.UniqueSolution` | yacl/utils/circuit_executor.cc:64-102 | The inputs and the gate equations determine every wire. |
| `Circuit.OrderIrrelevant` | yacl/utils/circuit_executor.cc:64-102 | Any two valid orders of the same gates give the same wires, all of them. |
| `Circuit.PlainExecutor.SetupInputs` | yacl/utils/circuit_executor.cc:53-62 | The inputs' bits follow the wires there are, of which a new executor has none, and all is false beyond; a wrong number of inputs is an error. |
| `Circuit.InputsAsDeclaredIff` | yacl/utils/circuit_executor.cc:53-62 | For words of any width and all values, every input lies on the wires declared for it if and only if every input that has wires fits into a word and is declared to start where its word does. |
| `Circuit.InputMisplaced` | yacl/utils/circuit_executor.cc:53-62 | Two inputs of one wire each, given as bytes: the second is not on the second wire. |
| `Circuit.PlainExecutor.Finalize` | yacl/utils/circuit_executor.cc:127-142 | Output nov - 1 - i is the value of the i-th group of wires from the end, with the width of entry i; the two errors are exact. |
| `Circuit.OutputsAreLastWires` | yacl/utils/circuit_executor.cc:127-142 | The groups together are the last wires, in order. |
| `Circuit.FinalizeAsDeclaredIff` | yacl/utils/circuit_executor.cc:127-142 | Every output gets the wires its own width declares, for all wires, if and only if the list of widths is a palindrome. |
| `Circuit.FinalizeSwapsSizes` | yacl/utils/circuit_executor.cc:127-142 | Widths 1 and 2, where the second output gets one wire. |
| `Circuit.PlainExecutor.FinalizeBytes` | yacl/utils/circuit_executor.cc:104-125 | Byte i is the value of the i-th group of eight wires from the end. |
| `Adder.FullAdder` | yacl/utils/circuit_executor.cc:64-102 | The six gates of one bit add two bits and a carry. |
| `Adder.RippleOrdered` | yacl/utils/circuit_executor.cc:64-102 | The ripple-carry circuit reads only wires that are set and sets each wire once. |
| `Adder.RippleValue` | yacl/utils/circuit_executor.cc:64-102 | Whatever solves its equations has on its last wires the sum or difference of the inputs modulo 2^n. |
| `Adder.Compute` | yacl/utils/circuit_executor_test.cc:65-95 | Setting up two words of any width, running that circuit and collecting the output gives their sum or difference modulo 2^n. |

## Left out

- Arithmetic of GF(2^64), of curves and of big integers, hashes, the pseudo-random function and the oblivious-transfer extensions: parameters with their laws.
- Probabilities, privacy and hiding: only functional correctness is stated.
- The bin counts of the set union and of `CuckooIndex`, which come from floating-point formulas: any positive number is allowed, and `SelectParams` is not modelled.
- Narrowing to 32 bits (the loop index of the division, the number of transfers and batches, the message counters): counters are unbounded.
- Psu.Run: the sender and the receiver are one method that alternates between them, the correction messages of the pseudo-random function and the framing of messages are not modelled, and the sorted result vector is a set.
- BatchInverse.FillFloor: the multi-threaded decryption fills a floor by a parallel loop over disjoint entries, which is modelled by the sequential loop.
- ParSearch.ParallelDecryptsIff: a machine that reports no hardware threads at all, for which the chunk size is a division by zero, is excluded.
- ParSearch.ParallelRefinesDecrypt: flag accesses are sequentially consistent atomic steps and one giant step is one step.
- CuckooIndex.CuckooIndex.constructor: the check that the hash functions fit into a code is a precondition, since a constructor has no result to report an error with; no hash function at all, which the unsigned check lets through and which divides by zero at the first eviction, is excluded as well.
- CuckooT1.CuckooT1.Insert: starts from an empty table and from coordinates of at least 24 bytes, the bytes that the slots and keys are read from.
- Files written and read by the tables T1 and T2.
- LinkRun.InOrderDelivery: sending to oneself, where both directions share one counter, and `SubWorld` are excluded, and ids of named children must be new.
- LinkContext.PrevUndoesNext: worlds of more than 2^63 parties are excluded.
- LinkContext.Context.Recv: waiting is not modelled; a call happens when its message is there or when it gives up, and giving up is `None`.
- LinkContext.CreateSession: sessions are not looked up by their description, and the direction from a party to itself, which has no channel in the code, has a mailbox that no call uses.
- Throttling, chunking, retries, connecting and tracing of the link layer.
- The serialization inside the challenge of the Sigma protocols: the oracle is a function of generators, statement, first message and extra information.
- SigmaConfig.SetDynNumAccepts: the configuration is a value, so a failed call leaves no half-changed object.
- Range flip, counting, subset tests, bitwise operators of the bit vector: they repeat the word-by-word arguments of the operations shown.
- Adder.Compute: the circuit is one built here, not one of the circuit files that come with the library.
- The byte form of `SetupInputs`, circuit files and garbled circuits.
