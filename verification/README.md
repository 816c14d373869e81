# A verified model of the elliptic-curve coprocessor's proof system

The Rust crate `crates/eu-id-ec-coprocessor` proves statements about P-256 field circuits: a GKR layered sumcheck
reduces "all outputs of this circuit are zero" to two evaluations of the input layer, and a Ligero commitment (over a
Reed-Solomon or a circle-group code, with a Merkle tree over the columns) opens such evaluations. One of its circuits
checks a message authentication code over GF(2^128). This project models that system in Dafny and proves what it is
built to guarantee.

Loops that update vectors, arrays, hash maps or a transcript are methods with loops; objects that the source
updates (the channel, both round states, the sparse vectors) are classes; everything else is functions. Each method is
proved against a function or predicate, and the theorems are about those.

## How the parts fit

| part | modules |
|---|---|
| the field: ring laws by reduction of integer identities, inverses by extended Euclid, batch inversion, byte encodings | `Integers`, `Primes`, `Modulus`, `Field`, `FieldBytes` |
| vectors, bucket arrays, indices, multilinear extensions, circuits, transcript | `Vectors`, `Bits`, `Multilinear`, `Circuits`, `Transcripts` |
| one layer of the sumcheck: coefficient tables, both phases, round polynomials | `Rounds`, `LayerSums`, `LayerRounds` |
| the two provers' term lists and the dense prover's switch | `TermLists`, `DenseSwitch`, `SwitchSafety` |
| specification, completeness, soundness of the whole protocol | `Sumcheck`, `SumcheckTheorems`, `DenseTheorems` |
| what every challenge of the sumcheck is bound to | `TranscriptBinding` |
| the loops and round states | `SumcheckVerifier`, `DenseProver`, `SparseProver`, `SparseRounds`, `Provers` |
| polynomials and the Reed-Solomon code | `Polynomials`, `ReedSolomon` |
| the circle group, its universal basis, transform, function spaces and code | `Squares`, `CircleGroup`, `CircleBasis`, `CircleTransform`, `CircleTables`, `CircleSpaces`, `CircleCode`, `Frobenius`, `CircleP256` |
| Merkle tree | `Merkle` |
| Ligero: parameters, weights, structured plan, evaluation, commitment, batches, verifiers, soundness | `LigeroParameters`, `LigeroWeights`, `LigeroPlan`, `LigeroCodes`, `LigeroEvaluation`, `Ligero`, `LigeroProver`, `LigeroVerifier`, `LigeroSplit`, `LigeroSoundness`, `LigeroSplitTheorems` |
| GF(2^128) and its other forms | `Gf128`, `Gf128Forms` |
| the MAC circuit, 256-bit values as halves, recomposition and input claims | `Sums`, `MacReduction`, `MacCircuit`, `MacTheorems`, `MacHalves`, `Recomposition`, `OpenedInputs` |

The main theorems are the first rows of each group below: `Soundness`, `Completeness`, `DrawBinds`,
`DenseSwitchIffSafe`, `MinimumDistance`, `ProductEvaluates`, `FftEvaluates`, `IfftFft`, `EncodeRow`, `Binding`,
`HonestBatchAccepted`, `BatchSoundness`, `SplitBatchSoundness`, `ClaimWeightPlan`, `Gf128Mul`, `MacCircuitExact`,
`CountBound`, `RecomposeClaimPoint`.

## Reading the model

- **Modulus.** `P` is any prime that is 3 modulo 4 and above 2^64. These facts are all the proofs use: u64
  lengths and indices are distinct elements, integer counts do not wrap, -1 is not a square. Every theorem
  therefore holds for P-256 provided that number is prime, which is taken from NIST SP 800-186 and not proved here
  (`Modulus.P256Qualifies`). `Primes.PrimeBeyond` shows that such a prime exists.
- **Hash.** Blake2s is an uninterpreted function from byte streams to 32 bytes, so statements hold for every such
  function; what is hashed and how the digest becomes a field element are modelled. The Merkle hash is a record of two
  functions; only `Binding` asks for it to be ideal (injective, with disjoint ranges for leaves and nodes).
- **Randomness.** Pads, masks and blind rows are parameters; statements hold for all of them.
- **Bytes.** Statements that recover a field element from its 32 bytes assume `P <= 2^256` (`FitsBytes`), which holds for
  P-256 (`P256FitsBytes`).
- **Sizes.** Lengths are mathematical naturals. Where the code converts an index to a field element, the u64 range is a
  precondition.
- **Errors.** Error returns are `Result` values. A panic is a `None` result, the variant `LigeroError.Panic` (the
  slice index that the circle code takes for an opened column), or a precondition that the callers in this project
  are proved to meet.

## Where the code differs from what one would expect

- The dense prover pushes a right index whenever its running sum is zero (`sumcheck.rs:812`). If the sum
  returns to zero and leaves it again, the index is listed twice and its final sum is counted twice. `DenseSwitchIffSafe` gives the
  exact condition, `DenseProofRejected` an instance where an honest proof is refused. The sparse prover has no such
  condition.
- The module comment of `circle_fft.rs` (lines 21-30) puts data and pads side by side on the message domain and mentions a
  precomputed inverse. The code (lines 485-644) interpolates the data on a window domain of its own and adds the
  pads times the window's vanishing polynomial. The model follows the code.
- The comment at `ligero.rs` lines 896-898 relies on a blind row that sums to zero. Only an honest committer sees to that;
  no verifier checks it. `BatchSoundness` says what holds without it: the claim errors sum to a constant fixed by the
  commitment.
- Under the circle code `verify_split_claim_batch` indexes the codeword with the opened positions
  (`ligero.rs` lines 913-914 and 1345) before it checks their range (line 931). A position that is out of range
  panics instead of returning `ColumnOutOfRange`; the model returns `LigeroError.Panic` there.
- `v1_ligero_params` does not pass `validate` (`ShippedParams`).

## Model

| member | source | states |
|---|---|---|
| `SumcheckTheorems.Soundness` | crates/eu-id-ec-coprocessor/src/sumcheck.rs:406-497 | If `verify_circuit` accepts and the returned claims are the true multilinear values of an input whose circuit output is non-zero at the drawn point, then in some layer `alpha` was a bad one or some round challenge is a point where a wrong round polynomial meets the true one. |
| `SumcheckTheorems.FewBadChallenges` | crates/eu-id-ec-coprocessor/src/sumcheck.rs:1258-1263 | What a bad round challenge is worth: two different round polynomials (three values each) never agree at three distinct challenges. |
| `SumcheckTheorems.OneBadAlpha` | crates/eu-id-ec-coprocessor/src/sumcheck.rs:446-447 | What a bad `alpha` is worth: for one pair of wrong claims at most one `alpha` makes the combined claim right. |
| `SumcheckTheorems.WrongLayerClaims` | crates/eu-id-ec-coprocessor/src/sumcheck.rs:424-484 | One layer of the soundness argument: an accepted layer without a bad challenge turns wrong output claims into wrong claims about the layer below. |
| `SumcheckTheorems.Completeness` | crates/eu-id-ec-coprocessor/src/sumcheck.rs:261-371 | For every satisfied trace, every hash function and every starting transcript the verifier accepts the (sparse) prover's proof, ends in the prover's transcript state and returns the true values of the input layer at both points. |
| `SumcheckTheorems.HonestLayerAccepted` | crates/eu-id-ec-coprocessor/src/sumcheck.rs:177-259 | One honest layer is accepted with exactly the prover's transcript, points and openings. |
| `DenseTheorems.DenseCompleteness` | crates/eu-id-ec-coprocessor/src/sumcheck.rs:177-259 | The same for the dense prover, whose proof is even identical to the sparse one, if every switch is safe: a right index that comes again while its running sum is zero has a final sum of zero. |
| `DenseTheorems.DenseProofRejected` | crates/eu-id-ec-coprocessor/src/sumcheck.rs:803-826 | The condition is needed: a satisfied one-layer circuit and a hash function for which the verifier rejects the dense prover's proof. |
| `DenseTheorems.DenseRoundsAgree` | crates/eu-id-ec-coprocessor/src/sumcheck.rs:731-833 | Dense and sparse state send the same messages in every round of the left phase, and in every round of the right phase when the switch is safe. |
| `DenseSwitch.TableIsTrueIffSafe` | crates/eu-id-ec-coprocessor/src/sumcheck.rs:803-826 | For any order of terms, the right-phase list denotes the true coefficient table if and only if no index is listed twice with a non-zero final sum. |
| `DenseSwitch.DenseSwitchIffSafe` | crates/eu-id-ec-coprocessor/src/sumcheck.rs:803-826 | The same for a layer after compression: the dense right-phase coefficients equal the true ones if and only if the switch is safe. |
| `SwitchSafety.SwitchSafeEverywhereIff` | crates/eu-id-ec-coprocessor/src/sumcheck.rs:803-826 | A switch is safe at every left point and scalar if and only if, after merging, no right wire is read together with two left wires. |
| `SwitchSafety.OneLeftIsSafe` | crates/eu-id-ec-coprocessor/src/sumcheck.rs:803-826 | If a layer reads every right wire with one left wire only, its switch is safe for all weights, points and scalars. |
| `DenseTheorems.OneLeftCompleteness` | crates/eu-id-ec-coprocessor/src/sumcheck.rs:177-259 | For circuits of such layers every dense proof of a satisfied trace is accepted, for all draws. |
| `Provers.ProveThenVerify` | crates/eu-id-ec-coprocessor/src/sumcheck.rs:157-165 | End to end over two mutable channels: evaluate, prove with the sparse state, verify; the verifier accepts true claims and both channels end in one state. |
| `Provers.ProveCircuit` | crates/eu-id-ec-coprocessor/src/sumcheck.rs:131-145 | Succeeds exactly on satisfied evaluation traces, then returns the specified proof and transcript; otherwise the error names the first fault and the channel is untouched. |
| `Provers.ProveEvaluatedCircuit` | crates/eu-id-ec-coprocessor/src/sumcheck.rs:147-155 | Checks shapes and zero outputs only, succeeds exactly then, for both round states; otherwise the error names the first wrong width or the outputs. |
| `Provers.ProveInner` | crates/eu-id-ec-coprocessor/src/sumcheck.rs:177-371 | The layer loop refines `Prove`: same proof, same transcript, for either round state. |
| `Provers.DenseRounds` | crates/eu-id-ec-coprocessor/src/sumcheck.rs:202-217 | The round loop over the dense state sends the specified messages and opens the table at the bound points. |
| `Provers.SparseRoundsLoop` | crates/eu-id-ec-coprocessor/src/sumcheck.rs:295-318 | The same for the sorted-sparse state. |
| `Provers.SendRound` | crates/eu-id-ec-coprocessor/src/sumcheck.rs:203-213 | Message minus pad, absorbed before the challenge is drawn; the next claim is the interpolated value there. |
| `SumcheckVerifier.VerifyCircuit` | crates/eu-id-ec-coprocessor/src/sumcheck.rs:406-497 | The verifier loop refines `Verify` in verdict, error, claims and transcript (the sorted-sparse verifier at 509-618 repeats the same code). |
| `SumcheckVerifier.QTildeEvalPair` | crates/eu-id-ec-coprocessor/src/sumcheck.rs:1124-1166 | From four weight tables: both wiring-polynomial values, or the first wrong length. |
| `SumcheckVerifier.MixCircuitDomain` | crates/eu-id-ec-coprocessor/src/sumcheck.rs:655-667 | Absorbs what `MixDomain` says; by `MixedDomainDetermines` that fixes the commitment root, the layer count and all layer sizes. |
| `TranscriptBinding.MixedDomainDetermines` | crates/eu-id-ec-coprocessor/src/sumcheck.rs:655-667 | From one transcript, the transcript after the domain determines the commitment root, the number of layers and both sizes of every layer (sizes are u64 values). |
| `TranscriptBinding.DrawBinds` | crates/eu-id-ec-coprocessor/src/sumcheck.rs:406-497 | For every draw of a run: if two runs hash the same stream there, they have the same root, the same shape, are at the same place in the protocol and have sent the same messages before it. |
| `TranscriptBinding.VerifierDraws` | crates/eu-id-ec-coprocessor/src/sumcheck.rs:406-497 | Those are the draws of the verifier: in an accepted run every coordinate of the output point, every `alpha` and every round challenge is drawn from the transcript `DrawBinds` speaks of. |
| `TranscriptBinding.MessageDetermines` | crates/eu-id-ec-coprocessor/src/sumcheck.rs:450-484 | A message pair is determined by the transcript after it, for any modulus that fits 32 bytes. |
| `TranscriptBinding.PadStreams` | crates/eu-id-ec-coprocessor/src/sumcheck.rs:673-680 | Pads of different layers, kinds, items or slots hash different streams. |
| `TranscriptBinding.PadsFree` | crates/eu-id-ec-coprocessor/src/sumcheck.rs:620-680 | So pads are free: for every choice of values some hash function makes exactly these the round pads and claim pads of all layers, and the third claim pad is the product of the other two. |
| `TranscriptBinding.AcceptedPads` | crates/eu-id-ec-coprocessor/src/sumcheck.rs:406-497 | An accepted proof carries these pads in every layer. |
| `SumcheckVerifier.RunRoundsLoop` | crates/eu-id-ec-coprocessor/src/sumcheck.rs:450-469 | One layer's rounds: running claim, challenges and transcript are those of the recursive run. |
| `Sumcheck.TrueProverRound` | crates/eu-id-ec-coprocessor/src/sumcheck.rs:731-801 | What either prover sends for a round is the true partial sum, at every point; for the dense one past the switch only if it is safe. |
| `LayerRounds.Phase.RoundHalves` | crates/eu-id-ec-coprocessor/src/sumcheck.rs:758-801 | In both phases the true round polynomial at 0 and 1 adds up to the running claim. |
| `LayerRounds.Phase.RoundDegree` | crates/eu-id-ec-coprocessor/src/sumcheck.rs:1258-1263 | Every round polynomial is determined by its values at 0, 1 and 2. |
| `LayerRounds.Phase.ClaimStep` | crates/eu-id-ec-coprocessor/src/sumcheck.rs:739-756 | Its value at the challenge is the claim of the next round, across the switch from left to right indices. |
| `Rounds.AtMostTwoRoots` | crates/eu-id-ec-coprocessor/src/sumcheck.rs:1258-1263 | An interpolated polynomial with three distinct roots has three zero values. |
| `Rounds.RoundLagrange` | crates/eu-id-ec-coprocessor/src/sumcheck.rs:1258-1263 | `lagrange_eval_0_1_2` of the partial sums at 0, 1, 2 is the partial sum at any point. |
| `Rounds.RoundSum` | crates/eu-id-ec-coprocessor/src/sumcheck.rs:1270-1276 | A claim is the sum of its two halves. |
| `LayerSums.LayerSum` | crates/eu-id-ec-coprocessor/src/sumcheck.rs:446-447 | The combined output claims of a layer equal the inner product of its left coefficient table with the values below. |
| `LayerSums.PhaseSwitch` | crates/eu-id-ec-coprocessor/src/sumcheck.rs:803-826 | After the left phase the claim is the inner product of the right coefficient table with the values below. |
| `LayerSums.FinalValue` | crates/eu-id-ec-coprocessor/src/sumcheck.rs:471-481 | After both phases the claim is the wiring value times both openings, which the verifier recomputes. |
| `TermLists.DenseListStands` | crates/eu-id-ec-coprocessor/src/sumcheck.rs:1009-1072 | Grouping terms by wire pair and dropping zero sums keeps both coefficient tables. |
| `TermLists.SparseListStands` | crates/eu-id-ec-coprocessor/src/sumcheck.rs:1089-1113 | So does keeping all terms with non-zero weight. |
| `TermLists.GroupingKeepsBuckets` | crates/eu-id-ec-coprocessor/src/sumcheck.rs:1047-1072 | Grouping by any key in order of first occurrence keeps every bucketed weighted sum. |
| `DenseProver.ListRoundEvals` | crates/eu-id-ec-coprocessor/src/sumcheck.rs:758-801 | One pass over a folded term list gives the true partial sums at 0 and 2. |
| `DenseProver.CompressedRoundTerms` | crates/eu-id-ec-coprocessor/src/sumcheck.rs:1047-1072 | The hash-map grouping computes the specified list, in order of first occurrence. |
| `DenseProver.LeftPhaseTerms` | crates/eu-id-ec-coprocessor/src/sumcheck.rs:1009-1027 | The left list carries the left coefficient table. |
| `DenseProver.BindRight` | crates/eu-id-ec-coprocessor/src/sumcheck.rs:803-826 | The right list carries the table in which an index counts once per time it was listed. |
| `DenseProver.FoldOneInPlace` | crates/eu-id-ec-coprocessor/src/sumcheck.rs:1212-1220 | Folding into the front half of the same vector is folding. |
| `DenseProver.LayerRoundState.RoundEvals` | crates/eu-id-ec-coprocessor/src/sumcheck.rs:731-737 | In every round of both phases the two values are those of the specified prover. |
| `DenseProver.LayerRoundState.AbsorbChallenge` | crates/eu-id-ec-coprocessor/src/sumcheck.rs:739-756 | Keeps the state invariant for the point extended by the challenge, including the switch. |
| `DenseProver.LayerRoundState.FinalClaims` | crates/eu-id-ec-coprocessor/src/sumcheck.rs:828-832 | The two values left are the openings at both halves of the point. |
| `SparseProver.MergedRoundEvals` | crates/eu-id-ec-coprocessor/src/sumcheck.rs:972-998 | The merge walk over two sorted sparse vectors gives the partial sums of the dense tables. |
| `SparseProver.TakePair` | crates/eu-id-ec-coprocessor/src/sumcheck.rs:1000-1007 | Reads both entries of a pair and leaves the cursor behind it. |
| `SparseProver.SortedSparseVec.Fold` | crates/eu-id-ec-coprocessor/src/sumcheck.rs:858-880 | Folding the entries, dropping zeros, is folding the table. |
| `SparseProver.SortedSparseVec.FromDenseNonzero` | crates/eu-id-ec-coprocessor/src/sumcheck.rs:842-852 | Holds exactly the non-zero entries in index order. |
| `SparseProver.SortedSparseVec.FinalValue` | crates/eu-id-ec-coprocessor/src/sumcheck.rs:882-887 | The one remaining value, zero if there is no entry. |
| `SparseRounds.SparseRoundState.RoundEvals` | crates/eu-id-ec-coprocessor/src/sumcheck.rs:918-924 | In every round of both phases the two values are the true partial sums, with no side condition. |
| `SparseRounds.SparseRoundState.AbsorbChallenge` | crates/eu-id-ec-coprocessor/src/sumcheck.rs:926-962 | Keeps the state invariant for the extended point, including the switch. |
| `SparseRounds.SparseRoundState.FinalClaims` | crates/eu-id-ec-coprocessor/src/sumcheck.rs:964-969 | The openings at both halves of the point. |
| `SparseRounds.SparseTerms` | crates/eu-id-ec-coprocessor/src/sumcheck.rs:1074-1113 | Both branches of the term threshold build the same list. |
| `SparseRounds.LeftBuckets` | crates/eu-id-ec-coprocessor/src/sumcheck.rs:1029-1045 | The left coefficient table of the list. |
| `SparseRounds.RightBuckets` | crates/eu-id-ec-coprocessor/src/sumcheck.rs:945-962 | The right coefficient table of the list. |
| `Circuits.TracesAreEvaluations` | crates/eu-id-ec-coprocessor/src/circuit.rs:165-220 | A witness is a full trace if and only if it is the evaluation of its last layer. |
| `Circuits.Circuit.IsSatisfied` | crates/eu-id-ec-coprocessor/src/circuit.rs:185-220 | An answer exactly for traces: whether all outputs are zero; otherwise the first fault. |
| `Circuits.Circuit.EvaluateInput` | crates/eu-id-ec-coprocessor/src/circuit.rs:165-183 | All layers from outputs to input, or the width error. |
| `Circuits.EvalNextLoop` | crates/eu-id-ec-coprocessor/src/circuit.rs:130-145 | Every output sums its own terms. |
| `Circuits.QTildeEval` | crates/eu-id-ec-coprocessor/src/circuit.rs:83-128 | The fold over terms is the wiring polynomial; the first wrong point length is reported. |
| `Circuits.Layer.New` | crates/eu-id-ec-coprocessor/src/circuit.rs:47-69 | Accepts exactly layers whose sizes shift and whose term indices are in range. |
| `Circuits.Circuit.New` | crates/eu-id-ec-coprocessor/src/circuit.rs:149-159 | Accepts exactly non-empty chains of matching layers. |
| `Multilinear.EvalIsWeightedSum` | crates/eu-id-ec-coprocessor/src/mle.rs:32-44 | Binding variable by variable is the sum of values times equality weights. |
| `Multilinear.Mle.Eval` | crates/eu-id-ec-coprocessor/src/mle.rs:32-44 | `eval_at` returns that sum, or the length error. |
| `Multilinear.Mle.New` | crates/eu-id-ec-coprocessor/src/mle.rs:15-22 | Padding with zeros to the next power of two. |
| `Multilinear.EqTable` | crates/eu-id-ec-coprocessor/src/sumcheck.rs:1222-1235 | The doubling loop fills in the equality weight of every index. |
| `Multilinear.EqTensor` | crates/eu-id-ec-coprocessor/src/ligero.rs:1416-1429 | The in-place doubling loop fills in the same weights. |
| `Multilinear.PrefixEqLoop` | crates/eu-id-ec-coprocessor/src/sumcheck.rs:1245-1256 | The bit loop computes one such weight. |
| `Multilinear.FoldAllDot` | crates/eu-id-ec-coprocessor/src/sumcheck.rs:1278-1283 | Partial evaluation is adjoint to spreading weights: an inner product of a folded table, over the unfolded one. |
| `Transcripts.HashedDetermines` | crates/eu-id-ec-coprocessor/src/channel.rs:17-43 | The byte stream a draw hashes determines every absorbed string and the draw counter, so different transcripts never hash alike. |
| `Transcripts.CoprocessorChannel.DrawFp` | crates/eu-id-ec-coprocessor/src/channel.rs:35-43 | A draw hashes the framed stream of all absorbed strings and the counter, reduces the digest to a field element and advances the counter only. |
| `Transcripts.CoprocessorChannel.MixElement` | crates/eu-id-ec-coprocessor/src/channel.rs:26-33 | Absorbs the 32 big-endian bytes of the element as one string. |
| `Transcripts.CoprocessorChannel.DrawMany` | crates/eu-id-ec-coprocessor/src/sumcheck.rs:669-671 | One draw per coordinate. |
| `Field.BatchInverse` | crates/eu-id-ec-coprocessor/src/field.rs:74-97 | Every non-zero slot is inverted exactly, zero slots stay zero. |
| `Field.InvMul` | crates/eu-id-ec-coprocessor/src/field.rs:61-64 | Inverses exist for all non-zero elements (extended Euclid over the prime modulus). |
| `FieldBytes.SubBe` | crates/eu-id-ec-coprocessor/src/field.rs:171-186 | Byte-wise subtraction with borrow is big-endian subtraction; the borrow left over says whether it went below zero. |
| `FieldBytes.AtLeast` | crates/eu-id-ec-coprocessor/src/field.rs:167-169 | Lexicographic comparison is comparison of the numbers. |
| `FieldBytes.FromTranscript` | crates/eu-id-ec-coprocessor/src/field.rs:46-53 | One conditional subtraction reduces any transcript bytes and the strict decoding never fails. |
| `FieldBytes.FromBytesBe` | crates/eu-id-ec-coprocessor/src/field.rs:27-31 | Accepts exactly canonical encodings, with their value. |
| `FieldBytes.ModulusBytes` | crates/eu-id-ec-coprocessor/src/field.rs:10-13 | The 32 bytes are the P-256 modulus, and one subtraction is enough for 256 bits. |
| `ReedSolomon.RsEncoder.Encode` | crates/eu-id-ec-coprocessor/src/rs.rs:181-186 | The finite-difference codeword consists of the values of the message polynomial at 0, 1, 2, ... |
| `ReedSolomon.RsEncoder.Evaluate` | crates/eu-id-ec-coprocessor/src/rs.rs:198-217 | The Lagrange route gives the symbol that `encode` puts at that index. |
| `ReedSolomon.RsEncoder.EncodePadded` | crates/eu-id-ec-coprocessor/src/rs.rs:188-196 | Shorter messages are padded with zeros. |
| `ReedSolomon.RsEncoder.New` | crates/eu-id-ec-coprocessor/src/rs.rs:161-179 | Which lengths are refused, and a valid encoder otherwise. |
| `ReedSolomon.EquispacedCodeword` | crates/eu-id-ec-coprocessor/src/rs.rs:220-234 | The whole extension loop, for every message and length. |
| `ReedSolomon.AdvanceTailDifferencesOne` | crates/eu-id-ec-coprocessor/src/rs.rs:249-253 | One in-place pass moves all backward differences one point on. |
| `ReedSolomon.TailDifferences` | crates/eu-id-ec-coprocessor/src/rs.rs:236-247 | The backward differences of every order at the last message point. |
| `ReedSolomon.LagrangeWeights` | crates/eu-id-ec-coprocessor/src/rs.rs:255-265 | All denominators of the Lagrange basis, inverted in one batch. |
| `ReedSolomon.ExtensionCoefficients` | crates/eu-id-ec-coprocessor/src/rs.rs:267-280 | The values at x of all Lagrange basis polynomials. |
| `ReedSolomon.MessagePolyUnique` | crates/eu-id-ec-coprocessor/src/rs.rs:160-280 | The message polynomial is the only one of that length through the message. |
| `ReedSolomon.Interpolates` | crates/eu-id-ec-coprocessor/src/rs.rs:220-234 | It passes through the message (the code is systematic). |
| `ReedSolomon.CodeDistance` | crates/eu-id-ec-coprocessor/src/rs.rs:99-107 | Codewords of different polynomials of length k agree in fewer than k positions. |
| `ReedSolomon.IsCodeword` | crates/eu-id-ec-coprocessor/src/rs.rs:99-107 | Accepts exactly the words that are values of some polynomial of the message length. |
| `CircleCode.Code.MinimumDistance` | crates/eu-id-ec-coprocessor/src/circle_fft.rs:384-402 | Encodings of different coefficient vectors of length d agree in at most d positions. |
| `CircleSpaces.CircleZeros` | crates/eu-id-ec-coprocessor/src/circle_fft.rs:12-20 | A non-zero coefficient vector of length d vanishes at no more than d points of the circle. |
| `CircleSpaces.ProductEvaluates` | crates/eu-id-ec-coprocessor/src/ligero.rs:145-153 | For even a and b the product of members of the a- and b-dimensional spaces is a member of the (a + b + 2)-dimensional one, as a function on the circle. |
| `CircleSpaces.MultipleEvaluates` | crates/eu-id-ec-coprocessor/src/circle_fft.rs:550-595 | Multiplying by a function of x of degree h adds 2h coefficients, as a function on the circle. |
| `CircleSpaces.ZeroNorm` | crates/eu-id-ec-coprocessor/src/circle_fft.rs:12-20 | The norm of f0(x) + y f1(x) is the zero function only if both parts are, because -1 is not a square. |
| `CircleTables.Tables.FftEvaluates` | crates/eu-id-ec-coprocessor/src/circle_fft.rs:356-366 | The transform leaves the value at domain point i in slot i. |
| `CircleTables.Tables.IfftFft` | crates/eu-id-ec-coprocessor/src/circle_fft.rs:369-382 | `ifft` after `fft` is the identity. |
| `CircleTables.Tables.FftIfft` | crates/eu-id-ec-coprocessor/src/circle_fft.rs:369-382 | `fft` after `ifft` is the identity. |
| `CircleTables.FftInPlace` | crates/eu-id-ec-coprocessor/src/circle_fft.rs:356-366 | The in-place level loops compute that transform. |
| `CircleTables.IfftInPlace` | crates/eu-id-ec-coprocessor/src/circle_fft.rs:369-382 | The in-place inverse loops, with the final scaling, compute the inverse transform. |
| `CircleTables.Combine` | crates/eu-id-ec-coprocessor/src/circle_fft.rs:301-326 | One in-place block: every slot is read before it is overwritten, and nothing outside the block changes. |
| `CircleTables.Icombine` | crates/eu-id-ec-coprocessor/src/circle_fft.rs:330-352 | The same for the inverse block. |
| `CircleTables.BitReverse` | crates/eu-id-ec-coprocessor/src/circle_fft.rs:287-295 | The swap loop is the bit-reversal permutation. |
| `CircleTransform.BitReversedTwice` | crates/eu-id-ec-coprocessor/src/circle_fft.rs:287-295 | Which is its own inverse. |
| `CircleTransform.ForwardEvaluates` | crates/eu-id-ec-coprocessor/src/circle_fft.rs:440-467 | On any mirrored domain the transform of bit-reversed coefficients is direct evaluation. |
| `CircleTransform.BackwardForward` | crates/eu-id-ec-coprocessor/src/circle_fft.rs:328-382 | Undoing all levels multiplies by the length. |
| `CircleTransform.ForwardBackward` | crates/eu-id-ec-coprocessor/src/circle_fft.rs:328-382 | In the other order too. |
| `CircleTransform.CanonicalDomain` | crates/eu-id-ec-coprocessor/src/circle_fft.rs:212-260 | The odd multiples of a generator form a mirrored domain whose twiddles are all non-zero. |
| `CircleTables.Tables.FromDomain` | crates/eu-id-ec-coprocessor/src/circle_fft.rs:233-260 | The tower built from an explicit domain, with its inverses and 1/n, makes valid tables. |
| `CircleTables.Tables.New` | crates/eu-id-ec-coprocessor/src/circle_fft.rs:213-225 | So do the odd multiples of a generator. |
| `CircleTables.FindGenerator` | crates/eu-id-ec-coprocessor/src/circle_fft.rs:160-198 | The search is deterministic: with the right cofactor it returns the point of the least t from 1 to 63 for which 1 + t^2 is not a square, cleared of the cofactor and doubled down, and none if there is no such t; any point it returns is a generator of exact order 2^(log_n + 1), so the final assertion never fires. |
| `CircleP256.Generator` | crates/eu-id-ec-coprocessor/src/circle_fft.rs:110-198 | With the cofactor bytes of the source the search never panics over P-256, for any domain below 2^96 points, and returns the point of t = 5 cleared of that cofactor. |
| `CircleP256.FiveIsFirst` | crates/eu-id-ec-coprocessor/src/circle_fft.rs:160-198 | Over P-256 the least t of the search is 5: 2, 5, 10 and 17 are squares, 26 is not. |
| `Frobenius.HalfOrderOfParametrized` | crates/eu-id-ec-coprocessor/src/circle_fft.rs:161-190 | Half the group order times the parametrized point of t is the identity if 1 + t^2 is a square, and the half turn if it is not. |
| `Frobenius.GroupOrder` | crates/eu-id-ec-coprocessor/src/circle_fft.rs:174-176 | P + 1 times any point of the circle is the identity. |
| `Frobenius.PowerIsMirror` | crates/eu-id-ec-coprocessor/src/circle_fft.rs:174-176 | Raising x + iy to the P-th power is conjugation, by the binomial theorem. |
| `CircleTables.ScalarMul` | crates/eu-id-ec-coprocessor/src/circle_fft.rs:146-157 | Double-and-add computes the multiple the scalar names. |
| `CircleGroup.ExactOrder` | crates/eu-id-ec-coprocessor/src/circle_fft.rs:160-198 | No smaller multiple of a generator is the identity. |
| `CircleGroup.DomainSteps` | crates/eu-id-ec-coprocessor/src/circle_fft.rs:212-222 | The domain of odd multiples starts at the generator, and every point is the one before it plus twice the generator, which is how the code builds it. |
| `CircleGroup.DomainDistinct` | crates/eu-id-ec-coprocessor/src/circle_fft.rs:213-225 | Domain points are pairwise distinct. |
| `CircleGroup.DomainMirror` | crates/eu-id-ec-coprocessor/src/circle_fft.rs:300-326 | Points i and n - 1 - i are mirror images, which is what the butterflies pair. |
| `CircleGroup.DomainYNonzero` | crates/eu-id-ec-coprocessor/src/circle_fft.rs:233-260 | No twiddle of the first level is zero. |
| `CircleGroup.GridNonzero` | crates/eu-id-ec-coprocessor/src/circle_fft.rs:233-260 | No twiddle of the later levels is zero. |
| `CircleGroup.PlusAssoc` | crates/eu-id-ec-coprocessor/src/circle_fft.rs:135-140 | The circle addition is associative. |
| `CircleBasis.EvaluateAt` | crates/eu-id-ec-coprocessor/src/circle_fft.rs:440-467 | The running-product loop computes the value in the universal basis. |
| `CircleBasis.BuildBasisSums` | crates/eu-id-ec-coprocessor/src/circle_fft.rs:518-548 | The accumulated sums of every basis function over a domain. |
| `CircleBasis.SumByBasis` | crates/eu-id-ec-coprocessor/src/circle_fft.rs:654-666 | The inner product with those sums is the sum of the values, point by point. |
| `CircleCode.GeometriesValid` | crates/eu-id-ec-coprocessor/src/circle_fft.rs:81-110 | The three shipped geometries meet every condition. |
| `CircleCode.BuildCode` | crates/eu-id-ec-coprocessor/src/circle_fft.rs:550-595 | Tables and window data built from generators make a valid code. |
| `CircleP256.ShippedCode` | crates/eu-id-ec-coprocessor/src/circle_fft.rs:81-110 | Over the P-256 field the code of every shipped geometry is built, from the generator search to the tables, and all its domains are those of the points that the search finds. |
| `CircleCode.DomainsDisjoint` | crates/eu-id-ec-coprocessor/src/circle_fft.rs:550-595 | Domains of different sizes share no point. |
| `CircleCode.Code.EncodeRow` | crates/eu-id-ec-coprocessor/src/circle_fft.rs:612-644 | For all data and pads: the coefficients take the data on the window, carry the pads, and the codeword is their direct evaluation. |
| `CircleCode.Code.WindowVanishes` | crates/eu-id-ec-coprocessor/src/circle_fft.rs:550-595 | The mask polynomial vanishes on the window. |
| `CircleCode.Code.MaskNonzero` | crates/eu-id-ec-coprocessor/src/circle_fft.rs:550-595 | And nowhere on the codeword domain, so every codeword symbol is masked. |
| `CircleCode.Code.WindowSumOfProduct` | crates/eu-id-ec-coprocessor/src/circle_fft.rs:654-682 | The window sum of weights times row is the inner product of weights and data. |
| `CircleCode.Code.DataSum` | crates/eu-id-ec-coprocessor/src/circle_fft.rs:654-666 | The basis-sum route equals summation over the window. |
| `CircleCode.Code.WeightCoeffs` | crates/eu-id-ec-coprocessor/src/circle_fft.rs:674-682 | The window interpolant of the weights. |
| `CircleCode.Code.Encode` | crates/eu-id-ec-coprocessor/src/circle_fft.rs:387-402 | Length errors, and otherwise direct evaluation on the codeword domain. |
| `CircleCode.Code.IfftCodeword` | crates/eu-id-ec-coprocessor/src/circle_fft.rs:406-415 | Coefficients with these values. |
| `CircleCode.Code.ProductFft` | crates/eu-id-ec-coprocessor/src/circle_fft.rs:420-428 | Evaluation on the product domain. |
| `CircleCode.Code.ProductIfft` | crates/eu-id-ec-coprocessor/src/circle_fft.rs:432-438 | The unique coefficients of the domain's size with these values. |
| `CircleCode.Code.Evaluate` | crates/eu-id-ec-coprocessor/src/circle_fft.rs:471-483 | One symbol of the codeword. |
| `Merkle.Binding` | crates/eu-id-ec-coprocessor/src/merkle.rs:98-108 | Under an ideal, domain-separated hash an accepted opening, with a path of any length and any directions, has an index inside the matrix and exactly the committed column. |
| `Merkle.MerkleCommitment.Open` | crates/eu-id-ec-coprocessor/src/merkle.rs:68-95 | Every opening verifies, for every width including odd levels. |
| `Merkle.VerifyColumn` | crates/eu-id-ec-coprocessor/src/merkle.rs:98-108 | The path loop computes acceptance. |
| `Merkle.BuildLevels` | crates/eu-id-ec-coprocessor/src/merkle.rs:110-122 | Levels up to a single root; the last node of an odd level is paired with itself. |
| `Merkle.CommitColumns` | crates/eu-id-ec-coprocessor/src/merkle.rs:33-61 | Empty and ragged matrices are refused, otherwise a valid commitment to the columns. |
| `LigeroVerifier.HonestBatchAccepted` | crates/eu-id-ec-coprocessor/src/ligero.rs:1117-1196 | For every witness, pads, valid true claims and gamma, the batch owed for them is accepted at every set of honestly opened columns, under both codes. |
| `LigeroVerifier.CommitBatchVerify` | crates/eu-id-ec-coprocessor/src/ligero.rs:259-558 | The pipeline end to end: commit, open, batch, verify, accept. |
| `LigeroVerifier.VerifyClaimBatch` | crates/eu-id-ec-coprocessor/src/ligero.rs:1117-1196 | Verdict and error for every input, including malformed ones, as specified. |
| `LigeroVerifier.WeightsPairToValues` | crates/eu-id-ec-coprocessor/src/ligero.rs:1395-1411 | The weights of true claims against the witness give the batched values. |
| `LigeroSoundness.BatchSoundness` | crates/eu-id-ec-coprocessor/src/ligero.rs:1117-1196 | An accepted batch over any committed matrix, compared with any messages and blind row: it is the batch owed to them, and then the gamma-weighted errors of the claims equal the sum of the blind row; or every opened column departs from their codewords or lies among at most as many positions as the claim bound. |
| `LigeroSoundness.TwoBatches` | crates/eu-id-ec-coprocessor/src/ligero.rs:1117-1196 | Two accepted batches whose weights differ for one claim. The first determines a blind row and, with the messages, the batch owed for the second weights. If the second is that batch, the claim is true of the witness in the messages; otherwise every opened column of the second departs from the codewords, breaks the equation of the first, or lies in the set, at most as large as the claim bound, where the second batch agrees with the owed one. |
| `LigeroSoundness.FalseClaimColumns` | crates/eu-id-ec-coprocessor/src/ligero.rs:1117-1196 | For a false claim and two fixed batches there is one set of at most as many columns as the claim bound, chosen before the second opening, such that any opening accepted for the second batch stays among it and the columns off code or off the first batch. |
| `LigeroSoundness.BlindUnique` | crates/eu-id-ec-coprocessor/src/ligero.rs:466-500 | Messages, weights and batch determine the blind row. |
| `LigeroSoundness.ProximityExtracts` | crates/eu-id-ec-coprocessor/src/ligero.rs:1076-1115 | From proximity rows for gamma and for one change of gamma per row, messages whose codewords the matrix holds at every column where all these rows pass. |
| `LigeroSoundness.AcceptedProximity` | crates/eu-id-ec-coprocessor/src/ligero.rs:1076-1115 | An accepted proximity row passes at every opened column of the commitment. |
| `LigeroSoundness.BatchUnique` | crates/eu-id-ec-coprocessor/src/ligero.rs:466-500 | Messages, blind row and weights determine the owed batch. |
| `LigeroSoundness.AgreementBound` | crates/eu-id-ec-coprocessor/src/ligero.rs:155-165 | Two different messages of the claim bound agree in at most that many codeword positions, under both codes. |
| `LigeroSoundness.CommittedOnCode` | crates/eu-id-ec-coprocessor/src/ligero.rs:259-382 | Every column of an honest commitment holds the codewords of its rows. |
| `LigeroSoundness.ColumnPassesIff` | crates/eu-id-ec-coprocessor/src/ligero.rs:1168-1187 | At a column that holds the codewords of the messages the check passes if and only if the batch agrees with the owed one there. |
| `LigeroSoundness.OwedSumIff` | crates/eu-id-ec-coprocessor/src/ligero.rs:1188-1195 | With blind claim zero the owed batch passes the sum check if and only if the gamma-weighted claim errors equal the sum of the blind row. |
| `LigeroSoundness.OneBadGamma` | crates/eu-id-ec-coprocessor/src/ligero.rs:1117-1196 | For a wrong claim, all other weights fixed, at most one weight brings the errors to a given constant. |
| `LigeroProver.ClaimBatchFor` | crates/eu-id-ec-coprocessor/src/ligero.rs:466-500 | The prover's batch is the owed one, or the specified error. |
| `LigeroProver.RsClaimBatch` | crates/eu-id-ec-coprocessor/src/ligero.rs:466-500 | The accumulated products at the first positions determine the owed message. |
| `LigeroProver.CircleClaimBatch` | crates/eu-id-ec-coprocessor/src/ligero.rs:510-558 | Products on the small domain, one inverse transform: the owed coefficients; the tail-zero assertion cannot fire. |
| `LigeroProver.ProximityClaim` | crates/eu-id-ec-coprocessor/src/ligero.rs:414-429 | Mask plus gamma times rows, coefficient by coefficient, or the specified error. |
| `LigeroProver.CombinedRowEval` | crates/eu-id-ec-coprocessor/src/ligero.rs:1076-1115 | Combining rows and evaluating at a position commute. |
| `LigeroCodes.BatchExists` | crates/eu-id-ec-coprocessor/src/ligero.rs:145-153 | There is a message of the claim bound that has the batch's value at every position, and it extracts to the pairing of weights and data. |
| `LigeroCodes.RowProduct` | crates/eu-id-ec-coprocessor/src/ligero.rs:145-153 | The same for one row: weights times row fits the claim bound and extracts to their inner product. |
| `LigeroCodes.WeightEval` | crates/eu-id-ec-coprocessor/src/ligero.rs:1277-1287 | Evaluating a weight vector at a position is linear in the weights. |
| `LigeroEvaluation.EvalCoeffs` | crates/eu-id-ec-coprocessor/src/ligero.rs:1333-1348 | One value per opened column equals evaluation at its position, for both codes; out-of-range columns are refused. |
| `LigeroEvaluation.EvalWeights` | crates/eu-id-ec-coprocessor/src/ligero.rs:1363-1373 | A row's weights at every opened column. |
| `LigeroEvaluation.CodeEvaluate` | crates/eu-id-ec-coprocessor/src/ligero.rs:1263-1271 | A message's value at one codeword position. |
| `LigeroEvaluation.ClaimExtractionSum` | crates/eu-id-ec-coprocessor/src/ligero.rs:1378-1389 | The sum over the systematic prefix or the data window. |
| `Ligero.CommitWitness` | crates/eu-id-ec-coprocessor/src/ligero.rs:259-382 | Errors, and otherwise a commitment to rows that carry the witness and the drawn pads, the drawn mask row, and a blind row that extracts to zero and is the drawn one except in entry 0. |
| `Ligero.EncodeWitness` | crates/eu-id-ec-coprocessor/src/ligero.rs:273-301 | Each row carries its chunk of the witness and its pads, and is encoded. |
| `Ligero.ZeroSumBlind` | crates/eu-id-ec-coprocessor/src/ligero.rs:320-346 | The blind row extracts to zero and is the drawn row except in entry 0, under both codes. |
| `Ligero.BlindDetermined` | crates/eu-id-ec-coprocessor/src/ligero.rs:320-346 | That fixes entry 0 too: two rows that agree from entry 1 on and have the same extraction are equal. |
| `Ligero.OpenColumns` | crates/eu-id-ec-coprocessor/src/ligero.rs:398-406 | Exactly the asked columns, each with a valid path, or the specified error. |
| `LigeroPlan.ClaimWeightPlan` | crates/eu-id-ec-coprocessor/src/ligero.rs:799-840 | Structured or not, residual rows plus scaled templates equal the dense row weights, for all offsets, lengths and overlaps. |
| `LigeroPlan.FactorClaimWeights` | crates/eu-id-ec-coprocessor/src/ligero.rs:758-797 | Templates grow by exactly the claim's weights, also for unaligned offsets and partial last blocks. |
| `LigeroPlan.AddClaimWeightTemplate` | crates/eu-id-ec-coprocessor/src/ligero.rs:729-756 | Merging into equal templates deposits exactly the scaled values in the row. |
| `LigeroPlan.EqSplit` | crates/eu-id-ec-coprocessor/src/ligero.rs:758-797 | An equality weight splits into low and high digits. |
| `LigeroPlan.PlanCombined` | crates/eu-id-ec-coprocessor/src/ligero.rs:842-865 | At any column a plan evaluates to what the dense rows evaluate to. |
| `LigeroWeights.BatchedRowWeights` | crates/eu-id-ec-coprocessor/src/ligero.rs:1226-1260 | The dense scatter, zero rows left out, or the specified error. |
| `LigeroWeights.ScatterClaim` | crates/eu-id-ec-coprocessor/src/ligero.rs:1395-1411 | One claim adds gamma times the truncated equality weights to its own cells and nothing elsewhere. |
| `LigeroWeights.ValidClaimIff` | crates/eu-id-ec-coprocessor/src/ligero.rs:1198-1214 | A claim is accepted if and only if it names some cells, all within the rows, and its point has exactly the coordinates it takes to number them. |
| `LigeroSplitTheorems.HonestSplitBatchAccepted` | crates/eu-id-ec-coprocessor/src/ligero.rs:867-979 | Two commitments with blind rows that extract to zero, claims true of the joined cells: the batch owed to all rows and the sum of the blind rows is accepted at every pair of honest openings at equal indices. |
| `LigeroSplitTheorems.SplitPairPassesIff` | crates/eu-id-ec-coprocessor/src/ligero.rs:926-969 | A pair of columns on code passes if and only if the batch has there the value of both blind rows plus the weighted values of all rows of both commitments. |
| `LigeroSplitTheorems.SplitBatchSoundness` | crates/eu-id-ec-coprocessor/src/ligero.rs:867-979 | An accepted split batch over any two committed matrices, compared with any messages and blind rows: it is the owed one, and the gamma-weighted claim errors equal the sum of both blind rows; or every opened pair departs from the codewords in one matrix or lies among at most as many positions as the claim bound. |
| `LigeroSplit.VerifySplitClaimBatch` | crates/eu-id-ec-coprocessor/src/ligero.rs:867-979 | The verdict for every input, its errors in order, and it does not depend on the structured flag. |
| `LigeroSplit.CombinePlan` | crates/eu-id-ec-coprocessor/src/ligero.rs:926-969 | At one opened column pair the plan gives the dense value, which `SplitPairPassesIff` states through the committed rows. |
| `LigeroSplit.VerifyOpenings` | crates/eu-id-ec-coprocessor/src/ligero.rs:1076-1115 | Errors in order, otherwise the proximity verdict. |
| `LigeroSplit.HonestProximityAccepted` | crates/eu-id-ec-coprocessor/src/ligero.rs:1076-1115 | The honest combination passes at every honest set of openings. |
| `LigeroParameters.ValidParams` | crates/eu-id-ec-coprocessor/src/ligero.rs:117-143 | What validation buys: room for pads, products that fit the claim bound, a proximity radius below half of what the claim bound leaves, a sound geometry. |
| `LigeroParameters.ValidIff` | crates/eu-id-ec-coprocessor/src/ligero.rs:117-143 | The exact condition on the parameters under which `validate` accepts. |
| `LigeroParameters.ShippedParams` | crates/eu-id-ec-coprocessor/src/ligero.rs:168-250 | Five shipped sets validate; the first one is refused. |
| `Gf128.Gf128Mul` | crates/eu-id-ec-coprocessor/src/mac.rs:14-34 | The byte product is the remainder of the product polynomial modulo x^128 + x^7 + x^2 + x + 1. |
| `Gf128.Reduce` | crates/eu-id-ec-coprocessor/src/mac.rs:23-30 | The reduction loop leaves the remainder. |
| `Gf128.RemainderUnique` | crates/eu-id-ec-coprocessor/src/mac.rs:14-34 | There is only one such remainder. |
| `Gf128.Gf128Tag` | crates/eu-id-ec-coprocessor/src/mac.rs:10-12 | The tag is (ap + av) x, and splits into ap x + av x. |
| `Gf128.BitsRoundTrip` | crates/eu-id-ec-coprocessor/src/mac.rs:36-54 | Bits to bytes to bits. |
| `Gf128.BytesRoundTrip` | crates/eu-id-ec-coprocessor/src/mac.rs:36-54 | Bytes to bits to bytes. |
| `Gf128.BytesToBits` | crates/eu-id-ec-coprocessor/src/mac.rs:36-44 | The loop fills in the bits, lowest bit of the first byte first. |
| `Gf128.BitsToBytes` | crates/eu-id-ec-coprocessor/src/mac.rs:46-54 | The loop fills in the bytes. |
| `Gf128.Xor128Bits` | crates/eu-id-ec-coprocessor/src/mac.rs:6-8 | Byte-wise exclusive or is bit-wise exclusive or. |
| `Gf128Forms.NibbleProduct` | crates/eu-id-prover/examples/mdoc_mac_spike.rs:918-979 | The sum of nibble-pair contributions is the schoolbook product. |
| `Gf128Forms.LadderProduct` | crates/eu-id-prover/examples/mdoc_mac_spike.rs:1099-1136 | The sum of the ladder rungs the bits of av select is the schoolbook product. |
| `Gf128Forms.TagFromForms` | crates/eu-id-prover/examples/mdoc_mac_spike.rs:918-979 | Both forms together are the tag. |
| `Gf128Forms.SLadder` | crates/eu-id-prover/examples/mdoc_mac_spike.rs:1322-1337 | Rung k is x times X^k. |
| `Gf128Forms.ReducedMonomialMask` | crates/eu-id-prover/examples/mdoc_mac_spike.rs:1186-1200 | The reduced monomial of any degree below 255. |
| `Gf128Forms.ReducedProductContribution` | crates/eu-id-prover/examples/mdoc_mac_spike.rs:1202-1213 | The residue of the seven product bits moved to their nibble position. |
| `Gf128Forms.Clmul4` | crates/eu-id-prover/examples/mdoc_mac_spike.rs:1215-1224 | The carry-less product of two nibbles. |
| `Gf128Forms.PairContribution` | crates/eu-id-prover/examples/mdoc_mac_spike.rs:1202-1224 | A nibble pair contributes the product of its nibbles in place. |
| `Gf128Forms.ProductComm` | crates/eu-id-ec-coprocessor/src/mac.rs:14-34 | The product is commutative. |
| `MacTheorems.MacSoundness` | crates/eu-id-ec-coprocessor/src/ecdsa.rs:3064-3081 | Constant wire one and zero outputs force bits on all x, ap and q wires and tag = (ap + av) x. |
| `MacTheorems.MacCircuitExact` | crates/eu-id-ec-coprocessor/src/ecdsa.rs:3064-3081 | The outputs are zero if and only if all wires are bits and every count is twice its quotient plus the tag bit, as integers. |
| `MacTheorems.MacHalfInput` | crates/eu-id-ec-coprocessor/src/ecdsa.rs:3109-3155 | The honest input has these properties for the true tag, and its layout: x at wires 1 to 128, ap at 129 to 256, quotient bit k of tag bit b at 512 + 9 b + k, one at 0, zero elsewhere. |
| `MacTheorems.MacWires` | crates/eu-id-ec-coprocessor/src/ecdsa.rs:3064-3081 | The wires of the built circuit in literal positions: av folds at 256 + b, quotient sums at 384 + b, tag pins at 1920 + b. |
| `MacHalves.RecomposeInput` | crates/eu-id-ec-coprocessor/src/ecdsa.rs:2781-2796 | The x wires that recomposition reads in that input carry the number x. |
| `MacHalves.SplitAndRecompose` | crates/eu-id-ec-coprocessor/src/ecdsa.rs:3208-3222 | Splitting 32 big-endian bytes into two halves and recomposing them in the field gives the number of the bytes. |
| `MacHalves.HalvesFromBe32` | crates/eu-id-ec-coprocessor/src/ecdsa.rs:3208-3216 | Both halves, least significant byte first. |
| `MacHalves.RecomposeHalves` | crates/eu-id-ec-coprocessor/src/ecdsa.rs:3218-3222 | The field image of low + 2^128 high, for any two halves. |
| `MacTheorems.BuildAndSatisfy` | crates/eu-id-ec-coprocessor/src/ecdsa.rs:3064-3155 | For all ap, av, x the circuit built for the true tag is satisfied by the honest input. |
| `MacTheorems.PinImage` | crates/eu-id-ec-coprocessor/src/ecdsa.rs:3362-3407 | A tag pin carries the image of the integer count - 2 q - tag bit. |
| `MacTheorems.SmallZero` | crates/eu-id-ec-coprocessor/src/ecdsa.rs:3362-3407 | An integer of that size is zero if its image is: no constraint wraps. |
| `MacCircuit.BuildMacHalfCircuit` | crates/eu-id-ec-coprocessor/src/ecdsa.rs:3064-3081 | Three layers that compute the specified wires on every input. |
| `MacCircuit.InputLayer` | crates/eu-id-ec-coprocessor/src/ecdsa.rs:3224-3283 | Product, fold, quotient and bit-test wires of the input layer. |
| `MacCircuit.ReduceLayer` | crates/eu-id-ec-coprocessor/src/ecdsa.rs:3362-3407 | Bit tests carried on, one pin per tag bit. |
| `MacReduction.CountBound` | crates/eu-id-ec-coprocessor/src/ecdsa.rs:48-52 | For all ap, av, x no parity count exceeds 632. |
| `MacReduction.CountParity` | crates/eu-id-ec-coprocessor/src/ecdsa.rs:3709-3745 | The parity of the count is the tag bit. |
| `MacReduction.QWitness` | crates/eu-id-ec-coprocessor/src/ecdsa.rs:3709-3745 | Nine quotient bits per count, exact. |
| `MacReduction.MonomialReductionBits` | crates/eu-id-ec-coprocessor/src/ecdsa.rs:3692-3707 | The out bits of x^power. |
| `MacReduction.AvLinearFoldSlots` | crates/eu-id-ec-coprocessor/src/ecdsa.rs:3747-3760 | Slot (o, j) is bit o of av times x^j. |
| `Recomposition.RecomposeClaimPoint` | crates/eu-id-ec-coprocessor/src/ecdsa.rs:2798-2813 | The equality weight of every i below 128 at that point is scale times 2^i, and scale is not zero. |
| `Recomposition.RecomposeOpens` | crates/eu-id-ec-coprocessor/src/ecdsa.rs:2781-2813 | So the claim opens scale times the recomposed number. |
| `Recomposition.RecomposeClaimDetermines` | crates/eu-id-ec-coprocessor/src/ecdsa.rs:2737-2779 | A recompose claim is true of the bits if and only if its value is the number they stand for. |
| `Recomposition.AddRecomposeClaim` | crates/eu-id-ec-coprocessor/src/ecdsa.rs:2737-2755 | The pushed claim is the recompose claim of the returned number and true of the x bits; the number is recorded; too few values add nothing. |
| `Recomposition.TakeRecomposeClaim` | crates/eu-id-ec-coprocessor/src/ecdsa.rs:2757-2779 | The verifier pushes the recompose claim of the next recorded number. |
| `Recomposition.RecomposedValue` | crates/eu-id-ec-coprocessor/src/ecdsa.rs:2781-2796 | The number the bits stand for, or none if one is missing. |
| `Recomposition.SplitEval` | crates/eu-id-ec-coprocessor/src/ecdsa.rs:2452-2494 | (1 - t) A(sub) + t B(sub) is the extension of the concatenation. |
| `Recomposition.SplitInputClaim` | crates/eu-id-ec-coprocessor/src/ecdsa.rs:2465-2478 | For vectors of any length: half values exactly if both pad to 2^13 entries, the point has 14 coordinates and the claim is true of the padded halves; they are the true ones. |
| `Recomposition.AddSplitInputClaims` | crates/eu-id-ec-coprocessor/src/ecdsa.rs:2452-2494 | The whole loop: succeeds exactly if all claims are true, and appends the half values and half claims in order. |
| `Recomposition.TakeSplitInputClaims` | crates/eu-id-ec-coprocessor/src/ecdsa.rs:2496-2539 | The verifier's loop: succeeds exactly if the sent values interpolate to all claims, and appends the matching half claims. |
| `Recomposition.TakenClaimsSound` | crates/eu-id-ec-coprocessor/src/ecdsa.rs:2496-2539 | If the sent values it accepts are true of the halves, all claims are true. |
| `Recomposition.SentValuesAccepted` | crates/eu-id-ec-coprocessor/src/ecdsa.rs:2452-2539 | The verifier's loop accepts what the prover's loop sends, wherever it stands in the list. |
| `OpenedInputs.TakenClaimsOpened` | crates/eu-id-ec-coprocessor/src/ecdsa.rs:2496-2539 | If the claims that the verifier takes are true of a committed vector, every input claim is true of the cells it holds for the two inputs. |
| `OpenedInputs.AddedClaimsTrue` | crates/eu-id-ec-coprocessor/src/ecdsa.rs:2452-2494 | On a commitment that holds both inputs the claims that the prover adds are true. |
| `OpenedInputs.SplitClaimsTrueIff` | crates/eu-id-ec-coprocessor/src/ecdsa.rs:2452-2539 | The half claims are true of a commitment exactly where the sent values are the extensions of its cells. |
| `OpenedInputs.HalfRecomposes` | crates/eu-id-ec-coprocessor/src/ecdsa.rs:2737-2779 | Where a commitment holds the wires of a half, a recompose claim on it is true if and only if its value is the number x of that half. |
| `OpenedInputs.RecomposeClaimTrueIff` | crates/eu-id-ec-coprocessor/src/ecdsa.rs:2737-2779 | Any recompose claim is true of a commitment exactly if its value is the number of the 128 cells it names. |

## Left out

- Primality of the P-256 modulus: a hypothesis of `Modulus.P256Qualifies`, not proved.
- Merkle.Binding: assumes an ideal hash; collisions of Blake2s are outside.
- LigeroVerifier.CommitBatchVerify: takes the opened positions and gamma as parameters instead of drawing them.
- LigeroSplitTheorems.HonestSplitBatchAccepted: takes the owed batch as given; the split provers and the split proximity check (`split_claim_batch`, `split_proximity_claim`, `verify_split_openings`) would repeat the unsplit loops for two commitments.
- Public-constant claims (`add_mac_half_public_const_claim`): fixed single-cell claims.
- `verify_input_claims_from_systematic_openings` and `open_systematic_columns`: direct reading of opened prefixes.
- `prove_sum`, `verify_sum`: the single-table sumcheck that the layered one replaces.
- `draw_fps`, `draw_gf128`: bulk pads and the MAC share are parameters.
- The MAC batch circuit for six halves: copies of the half circuit at an offset.
- `MAC_HALF_TREE_BLOCK_SIZE` is 1, so there are no reduce-tree layers to model.
- The ECDSA circuits (families C1 to C15 and the ladder): their constraints alone do not decide that a signature verifies.
- LigeroSoundness.BatchSoundness: deterministic, like `TwoBatches`, `FalseClaimColumns` and `ProximityExtracts`; how likely random columns all fall into an agreement set or off code, and random weights on the bad value, is not stated.
- `soundness_error`, zero knowledge, every probability.
- One-time-pad values, beyond their streams and the equality the sumcheck verifier checks.
- Caches, profiling, operation counters, serialisation of proofs, the credential layout, fixtures, FFI.
- The STARK side (`crates/air-core`, `crates/eu-id-prover/src`).
- Vectors that the source folds or extends in place are sequence-valued variables or fields; aliasing between them cannot occur in the source and is not modelled.
