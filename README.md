# A verified model of the tachyon PLONK prover core

This project models, in Dafny, the prover-side bookkeeping of tachyon's PLONK/Halo2-style proving system. It also models three small self-contained pieces from the same repository: the xorshift128 random generator, the sumcheck list of products and its prover, and the sparse evaluation and polynomial containers. For each piece it proves the properties the C++ code promises.

The model is organised as one Dafny module per source header:

- **Transcript** (`sha256_transcript.dfy`, `transcript.dfy`, with `byte_codec.dfy`). The running SHA-256 context is the byte string absorbed since the last reset, and SHA-256 is an uninterpreted function of it.
  - `Sha256Writer` and `Sha256Reader` are classes over that state and the proof buffer.
  - Every absorption is framed as 31 zero bytes, a one-byte tag and fixed-width big-endian coordinates.
  - A squeeze hashes the stream followed by `0x00`, restarts from the 32-byte digest and reduces the digest, read little-endian, into the scalar field.
  - The generic `ReadFromProof` / `WriteToProof` are short-circuit compositions of hooks.
  - A Reader replaying a Writer's proof reaches the same state and draws the same challenges at every step (`ReplaySymmetry`).
- **Cell-assignment backends** (`witness_collection.dfy`, `assembly.dfy`).
  - `WitnessCollection` (proving) checks, in this order, the phase gate, the usable row and the column, and writes exactly one advice cell.
  - `Assembly` (key generation) makes an unusable row fatal, sets selectors and fixed cells, logs copies, and fills a row range. The fill is idempotent.
- **Per-circuit column lifecycle** (`instance_single.dfy`, `advice_single.dfy`, `advice_factory.dfy`, `synthesizer.dfy`).
  - `InstanceSingle::Generate` checks the size, pads each column to the domain, and then either commits or absorbs it. Its effects on the prover are a log of events.
  - `AdviceSingle` is write-once per column.
  - `AdviceFactory` selects the current phase's columns and evaluates them in one batch. A batch result is the same as evaluating each column on its own. It then sets the last row to one and commits each column under its original index.
  - `Synthesizer` runs the phases in order and stores each circuit's advice. After every circuit has been processed for a phase, it squeezes that phase's challenges in ascending slot order into an insert-only map.
- **XORShift RNG** (`xor_shift_rng.dfy`): four `bv32` registers, the default seed `0xBAD5EED`, `FromSeed` and `NextUint32`.
- **Sumcheck** (`sumcheck_data_structures.dfy`, `ml_prover.dfy`).
  - `AddProduct` deduplicates multiplicands by object identity; `Evaluate` is the sum of products.
  - `ProverInit` and `ProveRound` form the round and error-flag state machine. The per-round message is related to the sumcheck sum.
- **Sparse containers** (`multilinear_sparse_evaluations.dfy`, `univariate_sparse_polynomial.dfy`, with `decimal_text.dfy`).
  - `MultilinearSparseEvaluations` is an ordered map from hypercube index to value, with `Get`, `IsZero`, `IsOne`, `Zero`, `One`, `Degree`, the two pair-list constructors and `ToString`.
  - `UnivariateSparsePolynomial` over GF(7) is a canonical term list. Addition, subtraction, multiplication, evaluation, degree, fold and `FromRoots` are each proved against their algebraic meaning: coefficientwise laws, evaluation homomorphisms and the vanishing product. `ToString` is proved equal to a " + "-join of the term texts in descending degree. All of them are also checked against the concrete values the polynomial's unit tests fix.

Where the code disagrees with its own comments, the model follows the code: `InstanceSingle::Generate` puts the instance values first and the zero padding after them, even though its comment speaks of leading zeros.

Three operations do not do what they evidently intend (see "## Findings"). Each has a member that models it as written, with a lemma that exhibits the defect, and a member that models the intended behaviour. The bullets say which of the two the class method follows.
- `WitnessCollection::GetChallenge`: `GetChallengeAsWritten` is the code as written, and `WitnessCollection.GetChallenge` performs it too. `GetChallengeDenseAgrees` shows it agrees with the intended `GetChallengeIntended` whenever the keys are 0 .. n-1.
- The advice loop of `Synthesizer::GenerateAdviceColumns`: `InnerLoopAsWritten` is the loop as written. `Synthesizer.GenerateAdviceColumns` runs the intended loop over the current phase's advice columns.
- The round message of `IPForMLSumcheck::ProveRound`: `RoundMessageAsWritten` starts each product at zero, as written. `ProverState.ProveRound` answers with the intended `RoundMessage`, which starts each product at its coefficient.

Conventions:
- A failed `CHECK`, and undefined behaviour such as indexing a vector out of range, are preconditions (`requires`).
- Errors returned to the caller are modelled as results.
- Field elements are natural numbers (`Common.Fr`). The sumcheck prover computes over integers, so its identities hold modulo any prime.

## Model

| member | source | states |
|---|---|---|
| Common.Until | tachyon/zk/plonk/plonk_prover/witness_collection.h:45-55 | the usable-row range `[0, n)` contains exactly the rows below n |
| Common.SizeSub | tachyon/zk/plonk/plonk_prover/witness_collection.h:70 | `size_t` subtraction of the blinding factors from the maximum degree: the plain difference when it does not underflow, and the difference plus 2^64 when it does |
| ByteCodec.ToBytesBE | tachyon/zk/transcript/sha256_transcript.h:150-151 | the big-endian encoding always has exactly `kByteNums` bytes |
| ByteCodec.BigEndianRoundTrip | tachyon/zk/transcript/sha256_transcript.h:150-151 | decoding the big-endian encoding of a value that fits the width gives the value back |
| ByteCodec.BigEndianInjective | tachyon/zk/transcript/sha256_transcript.h:140-143 | two in-range values with the same encoding are equal |
| ByteCodec.BigEndianReencode | tachyon/zk/transcript/sha256_transcript.h:150-151 | every byte string of the width is the encoding of its own value, so decoding then encoding is the identity |
| ByteCodec.FromBytesBEBound | tachyon/zk/transcript/sha256_transcript.h:150-151 | a big-endian value always fits the width it was read from |
| ByteCodec.FromBytesLEBound | tachyon/zk/transcript/sha256_transcript.h:129-131 | the little-endian digest value is below 256^32 |
| Sha256Transcript.Squeeze | tachyon/zk/transcript/sha256_transcript.h:120-134 | the challenge is the digest of the absorbed bytes followed by `0x00`, read little-endian and reduced into the scalar field; the new state is exactly the 32 digest bytes |
| Sha256Transcript.ScalarAbsorptionLayout | tachyon/zk/transcript/sha256_transcript.h:147-153 | a scalar absorption is 31 zero bytes, the tag `0x02`, then the scalar in `kByteNums` big-endian bytes, and the scalar can be read back from it |
| Sha256Transcript.PointAbsorptionLayout | tachyon/zk/transcript/sha256_transcript.h:137-145 | a point absorption is 31 zero bytes, the tag `0x01`, then x and y big-endian, and both coordinates can be read back from it |
| Sha256Transcript.DomainSeparation | tachyon/zk/transcript/sha256_transcript.h:24-34 | scalar, point and challenge absorptions never coincide, and equal scalar absorptions mean equal scalars |
| Sha256Transcript.ScalarRoundTrip | tachyon/zk/transcript/sha256_transcript.h:93-95 | parsing the bytes the writer appends for a scalar, followed by anything, returns that scalar and exactly the rest |
| Sha256Transcript.PointRoundTrip | tachyon/zk/transcript/sha256_transcript.h:89-91 | parsing the bytes the writer appends for a point, followed by anything, returns that point and exactly the rest |
| Sha256Transcript.Sha256Writer.constructor | tachyon/zk/transcript/sha256_transcript.h:111-114 | a fresh hash state and the given output buffer |
| Sha256Transcript.Sha256Writer.SqueezeChallenge | tachyon/zk/transcript/sha256_transcript.h:120-135 | the returned challenge and the new state are those of Squeeze on the old state |
| Sha256Transcript.Sha256Writer.WriteScalarToTranscript | tachyon/zk/transcript/sha256_transcript.h:147-153 | returns true and appends exactly the scalar absorption |
| Sha256Transcript.Sha256Writer.WritePointToTranscript | tachyon/zk/transcript/sha256_transcript.h:137-145 | returns true and appends exactly the point absorption |
| Sha256Transcript.Sha256Writer.WriteScalarToProof | tachyon/zk/transcript/sha256_transcript.h:160-162 | absorbs the scalar, then appends its encoding to the buffer, and returns true |
| Sha256Transcript.Sha256Writer.WritePointToProof | tachyon/zk/transcript/sha256_transcript.h:156-158 | absorbs the point, then appends its encoding to the buffer, and returns true |
| Sha256Transcript.Sha256Reader.constructor | tachyon/zk/transcript/sha256_transcript.h:45-47 | a fresh hash state, with the whole input unread |
| Sha256Transcript.Sha256Reader.SqueezeChallenge | tachyon/zk/transcript/sha256_transcript.h:53-68 | the same squeeze as the writer's |
| Sha256Transcript.Sha256Reader.WriteScalarToTranscript | tachyon/zk/transcript/sha256_transcript.h:80-86 | the same scalar absorption as the writer's |
| Sha256Transcript.Sha256Reader.WritePointToTranscript | tachyon/zk/transcript/sha256_transcript.h:70-78 | the same point absorption as the writer's |
| Sha256Transcript.Sha256Reader.ReadScalar | tachyon/zk/transcript/sha256_transcript.h:93-95 | on a failed read (input too short or value out of range) returns false and changes neither the state nor the read position; otherwise returns the scalar, absorbs it and consumes exactly its bytes |
| Sha256Transcript.Sha256Reader.ReadPoint | tachyon/zk/transcript/sha256_transcript.h:89-91 | the same as ReadScalar, for a point's two coordinates |
| Sha256Transcript.ReplaySymmetry | tachyon/zk/transcript/sha256_transcript.h:53-95 | a reader replaying a writer's script over the writer's bytes reaches the same hash state, squeezes the same challenges and consumes exactly those bytes |
| Sha256Transcript.StepSymmetry | tachyon/zk/transcript/sha256_transcript.h:120-162 | the same agreement for one operation of a script |
| Sha256Transcript.PrefixRun | tachyon/zk/transcript/sha256_transcript.h:120-162 | running a prefix of a script yields a prefix of the bytes and of the challenges, so replay agrees at every step |
| Transcript.WriteToProofStep | tachyon/crypto/transcripts/transcript.h:168-176 | succeeds iff both the absorption and the buffer write succeed; the buffer is written only after a successful absorption |
| Transcript.ReadFromProofStep | tachyon/crypto/transcripts/transcript.h:100-108 | a failed read returns false and leaves the transcript state unchanged; a successful one absorbs the value it read |
| Transcript.TranscriptWriter.constructor | tachyon/crypto/transcripts/transcript.h:158-159 | holds the given state and buffer |
| Transcript.TranscriptWriter.WriteToProof | tachyon/crypto/transcripts/transcript.h:205-207 | the result and new state are those of WriteToProofStep |
| Transcript.TranscriptReader.constructor | tachyon/crypto/transcripts/transcript.h:92-93 | holds the given state and buffer |
| Transcript.TranscriptReader.ReadFromProof | tachyon/crypto/transcripts/transcript.h:133-135 | the result and new state are those of ReadFromProofStep; a failed read leaves the state unchanged |
| Transcript.AbsorbingNeverFailsWrite | tachyon/crypto/transcripts/transcript.h:174-176 | when absorption always succeeds, writing to the proof succeeds exactly when the buffer write does |
| Transcript.ReplayStep | tachyon/crypto/transcripts/transcript.h:100-108 | a reader that reads back the writer's value ends in the writer's transcript state |
| Transcript.Sha256ScalarReplay | tachyon/crypto/transcripts/transcript.h:168-176 | the SHA-256 reader reads back a scalar the SHA-256 writer wrote, ends in the same state and consumes exactly its bytes |
| Transcript.Sha256PointReplay | tachyon/crypto/transcripts/transcript.h:168-170 | the same for a point |
| WitnessCollectionModule.BitCeil | tachyon/zk/plonk/plonk_prover/witness_collection.h:63 | `absl::bit_ceil`: the smallest power of two that is at least n |
| WitnessCollectionModule.GetChallengeAsWritten | tachyon/zk/plonk/plonk_prover/witness_collection.h:136-139 | Unknown for an index at or past the map's size; otherwise Known of the stored value, or Known(0) with 0 inserted when the key is missing (what `operator[]` does) |
| WitnessCollectionModule.GetChallengeIntended | tachyon/zk/plonk/plonk_prover/witness_collection.h:136-139 | Known exactly when a challenge is stored under the index, and then that challenge |
| WitnessCollectionModule.GetChallengeDenseAgrees | tachyon/zk/plonk/plonk_prover/witness_collection.h:136-139 | with keys exactly 0..n-1 the written lookup returns the intended value and leaves the map unchanged |
| WitnessCollectionModule.GetChallengeSparseCounterexample | tachyon/zk/plonk/plonk_prover/witness_collection.h:137-138 | with the map {1: c}, the stored index 1 is reported Unknown, and the missing index 0 is reported Known(0) and inserted |
| WitnessCollectionModule.WitnessCollection.constructor | tachyon/zk/plonk/plonk_prover/witness_collection.h:45-55 | every advice column holds `kDomainSize` rational zeros, the usable rows are `[0, unusable_row_start)`, and phase, challenges and instances are the given ones |
| WitnessCollectionModule.WitnessCollection.Synthesized | tachyon/zk/plonk/plonk_prover/witness_collection.h:59-80 | k is `bit_ceil(kDomainSize)` and the usable rows end at `kMaxDegree - blinding_factors`, computed with `size_t` wrap-around |
| WitnessCollectionModule.WitnessCollection.EnableSelector | tachyon/zk/plonk/plonk_prover/witness_collection.h:92-94 | returns `kNone` and changes nothing |
| WitnessCollectionModule.WitnessCollection.AssignFixed | tachyon/zk/plonk/plonk_prover/witness_collection.h:122-125 | returns `kNone` and changes nothing |
| WitnessCollectionModule.WitnessCollection.Copy | tachyon/zk/plonk/plonk_prover/witness_collection.h:128-130 | returns `kNone` and changes nothing |
| WitnessCollectionModule.WitnessCollection.FillFromRow | tachyon/zk/plonk/plonk_prover/witness_collection.h:132-134 | returns `kNone` and changes nothing |
| WitnessCollectionModule.WitnessCollection.EnterRegion | tachyon/zk/plonk/plonk_prover/witness_collection.h:83 | entering a region is a no-op: it may change nothing (no `modifies`) |
| WitnessCollectionModule.WitnessCollection.NameColumn | tachyon/zk/plonk/plonk_prover/witness_collection.h:86 | naming a column is a no-op |
| WitnessCollectionModule.WitnessCollection.ExitRegion | tachyon/zk/plonk/plonk_prover/witness_collection.h:89 | leaving a region is a no-op |
| WitnessCollectionModule.WitnessCollection.PushNamespace | tachyon/zk/plonk/plonk_prover/witness_collection.h:142 | entering a namespace is a no-op |
| WitnessCollectionModule.WitnessCollection.PopNamespace | tachyon/zk/plonk/plonk_prover/witness_collection.h:145 | leaving a namespace is a no-op |
| WitnessCollectionModule.WitnessCollection.QueryInstance | tachyon/zk/plonk/plonk_prover/witness_collection.h:96-106 | an unusable row gives `kNotEnoughRowsAvailable`, then an unknown column gives `kBoundsFailure`, both leaving the out-parameter as it was; otherwise `Known(instances[col][row])` |
| WitnessCollectionModule.WitnessCollection.AssignAdvice | tachyon/zk/plonk/plonk_prover/witness_collection.h:108-119 | a column of a later phase is ignored without running the callback; then the row is checked, then the column; on success exactly that one cell receives the callback's value |
| WitnessCollectionModule.WitnessCollection.GetChallenge | tachyon/zk/plonk/plonk_prover/witness_collection.h:136-139 | the result and the new map are those of the as-written lookup, and they agree with the intended lookup when the keys are dense |
| AssemblyModule.Filled | tachyon/zk/plonk/keys/assembly.h:73-77 | the filled column keeps its length; rows in [from, to) hold the value and every other row keeps its old value |
| AssemblyModule.FillIdempotent | tachyon/zk/plonk/keys/assembly.h:70-78 | filling the same rows with the same value twice has the effect of filling them once |
| AssemblyModule.FillOverrides | tachyon/zk/plonk/keys/assembly.h:70-78 | a later fill whose range covers an earlier one's range leaves no trace of the earlier value |
| AssemblyModule.Assembly.constructor | tachyon/zk/plonk/keys/assembly.h:29-36 | fixed columns, permutation copies, selectors and usable rows are the given ones |
| AssemblyModule.Assembly.EnableSelector | tachyon/zk/plonk/keys/assembly.h:46-50 | with the row usable, exactly one selector cell becomes true |
| AssemblyModule.Assembly.QueryInstance | tachyon/zk/plonk/keys/assembly.h:52-55 | with the row usable, the result is always `Unknown` |
| AssemblyModule.Assembly.AssignFixed | tachyon/zk/plonk/keys/assembly.h:57-61 | with the row usable, exactly one fixed cell receives the callback's value |
| AssemblyModule.Assembly.Copy | tachyon/zk/plonk/keys/assembly.h:63-68 | with both rows usable, exactly one copy constraint is appended to the permutation assembly |
| AssemblyModule.Assembly.FillFromRow | tachyon/zk/plonk/keys/assembly.h:70-78 | the chosen fixed column becomes `Filled` over rows [usable.from + from_row, usable.to); all other columns are unchanged |
| AdviceSingleModule.AdviceSingle.constructor | tachyon/zk/plonk/plonk_prover/advice_single.h:32-36 | `num_advice_columns` default polynomials and blinds, and no column assigned |
| AdviceSingleModule.AdviceSingle.SetBlindedPolynomial | tachyon/zk/plonk/plonk_prover/advice_single.h:38-45 | with the index in range and not yet assigned, exactly that column's polynomial and blind are replaced and the column becomes assigned |
| AdviceSingleModule.AdviceSingle.IsAssigned | tachyon/zk/plonk/plonk_prover/advice_single.h:47-50 | true exactly when the column has been set |
| AdviceSingleModule.AssignAll | tachyon/zk/plonk/plonk_prover/advice_single.h:38-45 | a run of assignments passes every write-once check exactly when no column was assigned before and none repeats, and then adds exactly those columns |
| InstanceSingleModule.Padded | tachyon/zk/plonk/plonk_prover/instance_single.h:51-55 | the evaluation table has `kDomainSize` rows: the instance values in their own rows, then zeros |
| InstanceSingleModule.Prover.CommitLagrangeEvals | tachyon/zk/plonk/plonk_prover/instance_single.h:61-62 | `CommitLagrange` records exactly one commitment of the given table in the prover log |
| InstanceSingleModule.Prover.WriteToTranscript | tachyon/zk/plonk/plonk_prover/instance_single.h:64-66 | absorbing a value records exactly one scalar absorption in the prover log |
| InstanceSingleModule.Absorbs | tachyon/zk/plonk/plonk_prover/instance_single.h:64-66 | one scalar absorption per value, in the values' order |
| InstanceSingleModule.FirstOverflow | tachyon/zk/plonk/plonk_prover/instance_single.h:45-49 | every column before the result fits the bound, and the column at the result (if any) exceeds it |
| InstanceSingleModule.AllFitAt | tachyon/zk/plonk/plonk_prover/instance_single.h:46-47 | the prefix-recursive fit predicate holds exactly when every column holds at most the bound |
| InstanceSingleModule.CommitModeEvents | tachyon/zk/plonk/plonk_prover/instance_single.h:61-62 | with `query_instance`, column j issues exactly one Lagrange commitment, of its padded table, and nothing is absorbed |
| InstanceSingleModule.AbsorbModeEvents | tachyon/zk/plonk/plonk_prover/instance_single.h:63-67 | without `query_instance`, the effects are exactly one absorption per raw instance value, column after column |
| InstanceSingleModule.ThreeByThreeFits | tachyon/zk/plonk/plonk_prover/instance_single_unittest.cc:25-37 | three columns of three values each never overflow when the domain leaves three rows after the blinding rows |
| InstanceSingleModule.Tables | tachyon/zk/plonk/plonk_prover/instance_single.h:55-69 | one padded table per accepted column, in column order |
| InstanceSingleModule.Polys | tachyon/zk/plonk/plonk_prover/instance_single.h:58-70 | one inverse-FFT polynomial per table, in order |
| InstanceSingleModule.TablesAt | tachyon/zk/plonk/plonk_prover/instance_single.h:55-69 | table j is the padded form of column j |
| InstanceSingleModule.PolysAt | tachyon/zk/plonk/plonk_prover/instance_single.h:58-70 | polynomial j is the inverse FFT of table j |
| InstanceSingleModule.EventsOfSnoc | tachyon/zk/plonk/plonk_prover/instance_single.h:45-71 | accepting one more column appends exactly that column's effects |
| InstanceSingleModule.FirstOverflowAt | tachyon/zk/plonk/plonk_prover/instance_single.h:45-49 | the loop stops at i exactly when every earlier column fits and column i does not |
| InstanceSingleModule.AllFitWeaken | tachyon/zk/plonk/plonk_prover/instance_single.h:46-53 | columns that fit `kDomainSize - blinding_factors` also fit `kDomainSize`, so padding never underflows |
| InstanceSingleModule.FitsDomain | tachyon/zk/plonk/plonk_prover/instance_single.h:52-53 | every column fits the domain, which is what keeps the padding length `kDomainSize - instance.size()` from wrapping |
| InstanceSingleModule.WrappedBoundAcceptsAll | tachyon/zk/plonk/plonk_prover/instance_single.h:46-49 | when the blinding factors exceed the domain the `size_t` bound wraps above the domain size, and every column that fits the domain is accepted |
| InstanceSingleModule.AcceptColumns | tachyon/zk/plonk/plonk_prover/instance_single.h:45-71 | accepts exactly the columns before the first one over the wrapping `size_t` bound, with their prover effects, tables and polynomials in order |
| InstanceSingleModule.InstanceSingle.constructor | tachyon/zk/plonk/plonk_prover/instance_single.h:34 | no tables and no polynomials |
| InstanceSingleModule.InstanceSingle.Generate | tachyon/zk/plonk/plonk_prover/instance_single.h:36-77 | `kInstanceTooLarge` exactly when some column holds more than `kDomainSize - blinding_factors` values (a `size_t` difference that wraps when the blinding factors exceed the domain), after the effects of the earlier columns and with the target untouched; otherwise `kNone` and the target holds every padded table and its polynomial |
| AdviceFactoryModule.PhaseIndices | tachyon/zk/plonk/plonk_prover/advice_factory.h:65-74 | strictly ascending indices, each of a column of the given phase |
| AdviceFactoryModule.PhaseIndicesCovers | tachyon/zk/plonk/plonk_prover/advice_factory.h:68-72 | every column of the phase is listed |
| AdviceFactoryModule.ParseIndices | tachyon/zk/plonk/plonk_prover/advice_factory.h:65-74 | the loop's output is exactly the ascending list of indices of the phase |
| AdviceFactoryModule.ParseIndicesExampleHalf | tachyon/zk/plonk/plonk_prover/advice_factory.h:65-74 | phases 0, 1, 0 select columns 0 and 2 for phase 0 |
| AdviceFactoryModule.ParseIndicesExample | tachyon/zk/plonk/plonk_prover/advice_factory_unittest.cc:54-67 | phases 0, 1, 0, 1, 0, 1 select columns 0, 2 and 4 for phase 0 |
| AdviceFactoryModule.EvaluateBatch | tachyon/zk/plonk/plonk_prover/advice_factory.h:115-119 | succeeds exactly when every rational of the batch evaluates, and then position j holds the evaluation of rational j |
| AdviceFactoryModule.OffsetMonotone | tachyon/zk/plonk/plonk_prover/advice_factory.h:124-129 | chunk offsets `i * kDomainSize` grow with i |
| AdviceFactoryModule.ConcatLength | tachyon/zk/plonk/plonk_prover/advice_factory.h:107-117 | the merged batch has exactly `columns * kDomainSize` entries |
| AdviceFactoryModule.ConcatChunk | tachyon/zk/plonk/plonk_prover/advice_factory.h:107-129 | chunk i of the merged batch is column i |
| AdviceFactoryModule.ConcatMembers | tachyon/zk/plonk/plonk_prover/advice_factory.h:107-113 | a rational is in the merged batch exactly when it is in some column |
| AdviceFactoryModule.EvaluateSlice | tachyon/zk/plonk/plonk_prover/advice_factory.h:115-129 | slicing an evaluated batch is evaluating the slice |
| AdviceFactoryModule.SucceedsByMembers | tachyon/zk/plonk/plonk_prover/advice_factory.h:118 | a batch evaluates exactly when each of its members does |
| AdviceFactoryModule.ConcatSucceeds | tachyon/zk/plonk/plonk_prover/advice_factory.h:107-119 | the merged batch evaluates exactly when every column evaluates |
| AdviceFactoryModule.BatchIsPerColumn | tachyon/zk/plonk/plonk_prover/advice_factory_unittest.cc:71-86 | batching is per-column evaluation: the merged batch succeeds exactly when every column does, and chunk i is column i evaluated on its own |
| AdviceFactoryModule.BatchChunk | tachyon/zk/plonk/plonk_prover/advice_factory.h:121-129 | chunk i of the evaluated merged batch is column i evaluated alone |
| AdviceFactoryModule.BatchEvaluate | tachyon/zk/plonk/plonk_prover/advice_factory.h:103-132 | true exactly when the merged batch evaluates; then one result per column, result i being chunk i; on failure the results are as they were |
| AdviceFactoryModule.Select | tachyon/zk/plonk/plonk_prover/advice_factory.h:92-96 | the columns at the given indices, in index order |
| AdviceFactoryModule.SelectedEvals | tachyon/zk/plonk/plonk_prover/advice_factory.h:85-99 | defined exactly when every selected column evaluates, and then the evaluation of each, in selection order |
| AdviceFactoryModule.SelectiveBatchEvaluate | tachyon/zk/plonk/plonk_prover/advice_factory.h:85-99 | true exactly when every selected column evaluates; then result k is selected column k evaluated alone; on failure the results are as they were |
| AdviceFactoryModule.WithLastRowOne | tachyon/zk/plonk/plonk_prover/advice_factory.h:46 | the row `kMaxDegree` is one and every other row is unchanged |
| AdviceFactoryModule.CommitLog.constructor | tachyon/zk/plonk/plonk_prover/advice_factory.h:49 | nothing committed yet |
| AdviceFactoryModule.CommitLog.CommitEvalsWithBlind | tachyon/zk/plonk/plonk_prover/advice_factory.h:48-49 | records exactly the committed table and returns its blinded polynomial |
| AdviceFactoryModule.StoreFirst | tachyon/zk/plonk/plonk_prover/advice_factory.h:51-53 | storing keeps the length |
| AdviceFactoryModule.StoreFirstSpec | tachyon/zk/plonk/plonk_prover/advice_factory.h:51-53 | with distinct positions, each stored value is at its own index and every other entry is unchanged |
| AdviceFactoryModule.MarkAll | tachyon/zk/plonk/plonk_prover/advice_factory.h:44-46 | each table with its last row set to one |
| AdviceFactoryModule.Commits | tachyon/zk/plonk/plonk_prover/advice_factory.h:48-49 | the blinded polynomial committed for each table, in order |
| AdviceFactoryModule.PolyParts | tachyon/zk/plonk/plonk_prover/advice_factory.h:52-53 | the polynomial of each blinded polynomial, in order |
| AdviceFactoryModule.BlindParts | tachyon/zk/plonk/plonk_prover/advice_factory.h:52-53 | the blind of each blinded polynomial, in order |
| AdviceFactoryModule.AdviceFactory.DoStepAdvice | tachyon/zk/plonk/plonk_prover/advice_factory.h:31-54 | when every column of the current phase evaluates, each is committed with its last row set to one, in order, and stored under its own column index, with exactly those columns newly assigned and the others unchanged; when the batch fails nothing is committed or stored |
| AdviceFactoryModule.CommitAndStore | tachyon/zk/plonk/plonk_prover/advice_factory.h:44-54 | column by column: table k is committed with its last row set to one and stored at `selected[k]`; no other column changes |
| AdviceFactoryModule.CommitSelected | tachyon/zk/plonk/plonk_prover/advice_factory.h:44-54 | the loop's commitments are exactly the marked tables in order, and the stored polynomials and blinds are theirs |
| AdviceFactoryModule.CommitOne | tachyon/zk/plonk/plonk_prover/advice_factory.h:45-53 | one loop step: one commitment appended, one column stored and marked assigned |
| SynthesizerModule.Squeezes | tachyon/zk/plonk/prover/synthesizer.h:125 | one challenge per squeeze, n in all, in order, with the transcript after them |
| SynthesizerModule.ElementsSnoc | tachyon/zk/plonk/prover/synthesizer.h:122-128 | the set of a list's members grows by the last member |
| SynthesizerModule.SqueezesSnoc | tachyon/zk/plonk/prover/synthesizer.h:122-128 | squeezing once more appends the next challenge and advances the transcript |
| SynthesizerModule.InsertAll | tachyon/zk/plonk/prover/synthesizer.h:120-128 | reference definition of the challenge inserts: `keys[k]` receives `vs[k]`, one after another; `InsertAllSpec` proves that fresh distinct keys are added and old entries kept |
| SynthesizerModule.InsertAllSnoc | tachyon/zk/plonk/prover/synthesizer.h:124-126 | inserting one more key is a map update at that key |
| SynthesizerModule.PhaseIndicesSnoc | tachyon/zk/plonk/prover/synthesizer.h:122-123 | looking at one more slot adds it to the phase's slots exactly when it belongs to the phase |
| SynthesizerModule.InsertAllSpec | tachyon/zk/plonk/prover/synthesizer.h:124-126 | inserting fresh, distinct keys adds exactly those keys, each with its own value, and keeps every old entry (so every `try_emplace` succeeds) |
| SynthesizerModule.InsertAllLast | tachyon/zk/plonk/prover/synthesizer.h:124-126 | the key inserted last is neither an old key nor an earlier one, so its `CHECK(it.second)` passes |
| SynthesizerModule.PhaseStep | tachyon/zk/plonk/prover/synthesizer.h:53-79 | reference definition of one phase: every circuit commits its columns of the phase under the challenges at the start of the phase, then the phase's slots are squeezed in ascending order; `PhaseSeesEarlierChallenges` and `SqueezeInto` state what this means |
| SynthesizerModule.RunPhases | tachyon/zk/plonk/prover/synthesizer.h:53-79 | reference definition of the run over `GetPhases()` in order; `RunPhasesKeys` proves the map only grows by the run's slots |
| SynthesizerModule.AbsorbAllConcat | tachyon/zk/plonk/prover/synthesizer.h:73 | absorbing two runs of commitments is absorbing the first and then the second |
| SynthesizerModule.SlotsOfSnoc | tachyon/zk/plonk/prover/synthesizer.h:53-79 | the challenge slots of a run of phases are those of the run without its last phase plus the last phase's own |
| SynthesizerModule.SlotsOfLastFresh | tachyon/zk/plonk/prover/synthesizer.h:53-79 | with distinct phases, the last phase's slots belong to no earlier phase |
| SynthesizerModule.RunPhasesKeys | tachyon/zk/plonk/prover/synthesizer.h:53-79 | the challenge map only grows: it keeps its entries unchanged and gains exactly the slots of the phases run |
| SynthesizerModule.PhaseSeesEarlierChallenges | tachyon/zk/plonk/prover/synthesizer.h:53-79 | the synthesis of a phase sees exactly the challenges of the earlier phases and none of its own |
| SynthesizerModule.AllPhasesDense | tachyon/zk/plonk/prover/synthesizer.h:53-79 | when every challenge's phase runs, the keys end up exactly 0 .. n-1 |
| SynthesizerModule.UnsortedSlotsAreSparse | tachyon/zk/plonk/prover/synthesizer.h:53-79 | with challenge phases 1, 0, after phase 0 the map holds slot 1 only, so the witness of phase 1 sees non-dense keys |
| SynthesizerModule.IndexOf | tachyon/zk/plonk/prover/synthesizer.h:53 | the first position of a phase in the run, or the run's length when it is absent |
| SynthesizerModule.InnerLoopNeverFinishes | tachyon/zk/plonk/prover/synthesizer.h:63 | with at least one challenge the loop as written never finishes: it keeps spinning or aborts in `SetAdviceColumn` |
| SynthesizerModule.InnerLoopAsWritten | tachyon/zk/plonk/prover/synthesizer.h:61-76 | the inner loop as written, with fuel: it tests `j` against the challenge phases but increments `i`, and aborts where `SetAdviceColumn`'s `CHECK_LT(i, num_circuits)` fails; `InnerLoopNeverFinishes` proves it never completes |
| SynthesizerModule.InnerLoopExample | tachyon/zk/plonk/prover/synthesizer.h:63-76 | one challenge of phase 0 and two circuits: phase 0 aborts in the third step and phase 1 never ends |
| SynthesizerModule.KeysBelow | tachyon/zk/plonk/prover/synthesizer.h:83-88 | the keys below n, strictly ascending |
| SynthesizerModule.KeysBelowCovers | tachyon/zk/plonk/prover/synthesizer.h:83-88 | every key below n is listed |
| SynthesizerModule.KeyBound | tachyon/zk/plonk/prover/synthesizer.h:135 | a bound above every key |
| SynthesizerModule.SortedKeys | tachyon/zk/plonk/prover/synthesizer.h:135 | the keys in ascending order, as a btree iterates them: same members and strictly ascending |
| SynthesizerModule.KeysBelowStable | tachyon/zk/plonk/prover/synthesizer.h:83-88 | any two bounds above every key list the same keys |
| SynthesizerModule.KeysBelowDense | tachyon/zk/plonk/prover/synthesizer.h:83-88 | with keys 0 .. n-1, the keys below b are 0 .. min(b, n)-1 |
| SynthesizerModule.DenseSortedKeys | tachyon/zk/plonk/prover/synthesizer.h:83-88 | with keys 0 .. n-1 the exported order is slot order 0 .. n-1 |
| SynthesizerModule.Synthesizer.constructor | tachyon/zk/plonk/prover/synthesizer.h:29-40 | every circuit holds one zero column and one zero blind per advice column, and there are no challenges |
| SynthesizerModule.Synthesizer.SetAdviceColumn | tachyon/zk/plonk/prover/synthesizer.h:91-97 | with both indices in range, exactly one column and one blind are replaced |
| SynthesizerModule.Synthesizer.UpdateChallenges | tachyon/zk/plonk/prover/synthesizer.h:120-129 | one squeezed challenge per slot of the phase, in ascending slot order, each inserted under its slot; a slot already present is excluded by the abort |
| SynthesizerModule.Synthesizer.ExportChallenges | tachyon/zk/plonk/prover/synthesizer.h:83-88 | the challenge values in ascending slot order |
| SynthesizerModule.Synthesizer.GenerateColumn | tachyon/zk/plonk/prover/synthesizer.h:65-75 | one column of a circuit is synthesized, committed and stored with its blind; nothing else changes |
| SynthesizerModule.Synthesizer.GenerateCircuit | tachyon/zk/plonk/prover/synthesizer.h:55-76 | the intended inner loop: every advice column of the phase is synthesized with the phase's challenge map, committed in column order and stored; only that circuit's row changes |
| SynthesizerModule.Synthesizer.GenerateCircuits | tachyon/zk/plonk/prover/synthesizer.h:54-77 | every circuit in order, with the same challenge map |
| SynthesizerModule.Synthesizer.GeneratePhase | tachyon/zk/plonk/prover/synthesizer.h:53-78 | one phase: all circuits' columns of the phase, then that phase's challenges |
| SynthesizerModule.Synthesizer.GenerateAdviceColumns | tachyon/zk/plonk/prover/synthesizer.h:44-80 | the intended algorithm: challenge map, transcript, columns and blinds are exactly those of running the phases in order |
| SynthesizerModule.PhaseRow | tachyon/zk/plonk/prover/synthesizer.h:63-76 | the row after the loop has looked at n columns keeps its length |
| SynthesizerModule.BlindRow | tachyon/zk/plonk/prover/synthesizer.h:74-75 | the blind row keeps its length |
| SynthesizerModule.UpdateTwice | tachyon/zk/plonk/prover/synthesizer.h:95-96 | a second store to the same cell overrides the first |
| SynthesizerModule.PhaseRowStep | tachyon/zk/plonk/prover/synthesizer.h:64-74 | looking at column j stores its synthesized value exactly when it belongs to the phase |
| SynthesizerModule.BlindRowStep | tachyon/zk/plonk/prover/synthesizer.h:64-75 | looking at column j stores its blind exactly when it belongs to the phase |
| SynthesizerModule.CircuitAbsorbedSpec | tachyon/zk/plonk/prover/synthesizer.h:63-76 | the loop absorbs exactly the circuit's columns of the phase, in column order |
| SynthesizerModule.CircuitCommitsStep | tachyon/zk/plonk/prover/synthesizer.h:64-73 | looking at column j absorbs its commitment exactly when it belongs to the phase |
| SynthesizerModule.PhaseColumns | tachyon/zk/plonk/prover/synthesizer.h:54-77 | the columns after n circuits have run keep their count |
| SynthesizerModule.PhaseBlinds | tachyon/zk/plonk/prover/synthesizer.h:54-77 | the blinds after n circuits have run keep their count |
| SynthesizerModule.PhaseColumnsStep | tachyon/zk/plonk/prover/synthesizer.h:54-77 | running circuit i replaces its row only |
| SynthesizerModule.PhaseBlindsStep | tachyon/zk/plonk/prover/synthesizer.h:54-77 | running circuit i replaces its blind row only |
| SynthesizerModule.RunColumns | tachyon/zk/plonk/prover/synthesizer.h:53-79 | the columns after the run keep their count |
| SynthesizerModule.RunBlinds | tachyon/zk/plonk/prover/synthesizer.h:53-79 | the blinds after the run keep their count |
| SynthesizerModule.RunColumnsSnoc | tachyon/zk/plonk/prover/synthesizer.h:53-79 | one more phase changes only the cells of that phase's columns |
| SynthesizerModule.RunBlindsSnoc | tachyon/zk/plonk/prover/synthesizer.h:53-79 | one more phase sets only the blinds of that phase's columns |
| SynthesizerModule.RunColumnsSpec | tachyon/zk/plonk/prover/synthesizer.h:53-79 | column j of circuit c holds what its own phase synthesized from the challenges of the phases before it, or its old value when that phase did not run |
| SynthesizerModule.RunBlindsSpec | tachyon/zk/plonk/prover/synthesizer.h:53-79 | a cell holds its blind exactly when its column's phase ran |
| SynthesizerModule.SqueezeAtSpec | tachyon/zk/plonk/prover/synthesizer.h:121-128 | after i slots the loop has squeezed the phase's slots among them in ascending order, each under its slot |
| SynthesizerModule.SqueezeInto | tachyon/zk/plonk/prover/synthesizer.h:121-128 | the loop's map and transcript are the phase's slots inserted with consecutive squeezes |
| SynthesizerModule.BoundOf | tachyon/zk/plonk/prover/synthesizer.h:83-88 | a bound above every key |
| SynthesizerModule.ValuesBelow | tachyon/zk/plonk/prover/synthesizer.h:83-88 | the values under the keys below the bound, in ascending key order |
| SynthesizerModule.FreshBeforePhase | tachyon/zk/plonk/prover/synthesizer.h:122-126 | before a phase runs, none of its slots is in the map, so no `try_emplace` fails |
| XorShiftRng.UnmixWord | tachyon/crypto/random/xor_shift/xor_shift_rng.h:49 | the last shift-xor of the step is undone given the old w |
| XorShiftRng.Next | tachyon/crypto/random/xor_shift/xor_shift_rng.h:44-51 | reference definition of one xorshift128 step on bv32 registers; `PreviousUndoesNext` and `NextInjective` prove it is a bijection |
| XorShiftRng.UnXorShift8Word | tachyon/crypto/random/xor_shift/xor_shift_rng.h:49 | `t ^ (t >> 8)` is undone by three more right shifts |
| XorShiftRng.UnscrambleWord | tachyon/crypto/random/xor_shift/xor_shift_rng.h:45 | `x ^ (x << 11)` is undone by two more left shifts |
| XorShiftRng.UnmixMix | tachyon/crypto/random/xor_shift/xor_shift_rng.h:49 | the mixing of the new w is invertible |
| XorShiftRng.UnXorShift8XorShift8 | tachyon/crypto/random/xor_shift/xor_shift_rng.h:49 | the right shift-xor by 8 is invertible |
| XorShiftRng.UnscrambleScramble | tachyon/crypto/random/xor_shift/xor_shift_rng.h:45 | the left shift-xor by 11 is invertible |
| XorShiftRng.PreviousUndoesNext | tachyon/crypto/random/xor_shift/xor_shift_rng.h:44-51 | the step run backwards recovers the state before the step |
| XorShiftRng.NextInjective | tachyon/crypto/random/xor_shift/xor_shift_rng.h:44-51 | no two states lead to the same state, so the generator's states never merge |
| XorShiftRng.ZeroIsFixed | tachyon/crypto/random/xor_shift/xor_shift_rng.h:44-51 | the all-zero state steps to itself |
| XorShiftRng.NonZeroStaysNonZero | tachyon/crypto/random/xor_shift/xor_shift_rng.h:44-51 | any other state never steps to the all-zero state |
| XorShiftRng.Outputs | tachyon/crypto/random/xor_shift/xor_shift_rng.h:44-51 | n outputs, output i being the w of the state after i + 1 steps |
| XorShiftRng.AdvanceNonZero | tachyon/crypto/random/xor_shift/xor_shift_rng.h:44-58 | from a non-zero state (the default state included) no number of steps reaches the all-zero state |
| XorShiftRng.StoreWord | tachyon/crypto/random/xor_shift/xor_shift_rng.h:28-31 | four bytes per word |
| XorShiftRng.BytesOfWord | tachyon/crypto/random/xor_shift/xor_shift_rng.h:28-31 | byte k of a little-endian loaded word is seed byte k |
| XorShiftRng.WordOfBytes | tachyon/crypto/random/xor_shift/xor_shift_rng.h:28-31 | loading the four bytes of a word gives the word back |
| XorShiftRng.LoadStoreWord | tachyon/crypto/random/xor_shift/xor_shift_rng.h:28-31 | loading a stored word gives the word back |
| XorShiftRng.StoreLoadWord | tachyon/crypto/random/xor_shift/xor_shift_rng.h:28-31 | storing a loaded word gives the four bytes back |
| XorShiftRng.StateSeed | tachyon/crypto/random/xor_shift/xor_shift_rng.h:26-33 | sixteen seed bytes |
| XorShiftRng.SeedRoundTrip | tachyon/crypto/random/xor_shift/xor_shift_rng.h:26-33 | every state is loaded by the seed it stores to |
| XorShiftRng.StateRoundTrip | tachyon/crypto/random/xor_shift/xor_shift_rng.h:26-33 | every seed is the one stored by the state it loads, so loading is a bijection between 16-byte seeds and states |
| XorShiftRng.XORShiftRNG.constructor | tachyon/crypto/random/xor_shift/xor_shift_rng.h:54-57 | every register holds `0xBAD5EED` |
| XorShiftRng.XORShiftRNG.FromSeed | tachyon/crypto/random/xor_shift/xor_shift_rng.h:26-33 | x, y, z and w are seed bytes 0-3, 4-7, 8-11 and 12-15 read little-endian |
| XorShiftRng.XORShiftRNG.NextUint32 | tachyon/crypto/random/xor_shift/xor_shift_rng.h:44-51 | one xorshift128 step, returning the new w |
| XorShiftRng.XORShiftRNG.NextUint32s | tachyon/crypto/random/xor_shift/xor_shift_rng.h:44-51 | n successive calls return exactly the n outputs of the starting state and leave the state n steps on |
| XorShiftRng.DefaultOutputs | tachyon/crypto/random/xor_shift/xor_shift_rng.h:44-57 | the first three outputs of the default generator |
| XorShiftRng.CountingSeed | tachyon/crypto/random/xor_shift/xor_shift_rng.h:26-33 | the seed 0, 1, ..., 15 loads x = 0x03020100 through w = 0x0F0E0D0C |
| SumcheckData.IndexOf | tachyon/math/polynomials/sumcheck/data_structures.h:53-56 | a position at which the element is stored |
| SumcheckData.InternIndices | tachyon/math/polynomials/sumcheck/data_structures.h:45-63 | the flat list only grows, keeping its old entries in place, and the k-th index names the k-th multiplicand |
| SumcheckData.Intern | tachyon/math/polynomials/sumcheck/data_structures.h:52-63 | reference definition of the deduplication by identity; `InternIndices` and `InternNoDuplicates` prove that index k names multiplicand k and no object is stored twice |
| SumcheckData.InternNoDuplicates | tachyon/math/polynomials/sumcheck/data_structures.h:52-62 | an object is appended only when not yet present, so the flat list never holds an object twice, and only multiplicands of the product are added |
| SumcheckData.EvaluateAll | tachyon/math/polynomials/sumcheck/data_structures.h:75-76 | position i holds the evaluation of flattened multiplicand i at the point |
| SumcheckData.TermValueExtend | tachyon/math/polynomials/sumcheck/data_structures.h:73-77 | a product only reads the values its indices name |
| SumcheckData.SumValueExtend | tachyon/math/polynomials/sumcheck/data_structures.h:72-80 | the sum only reads the values its products' indices name, so appending multiplicands does not change it |
| SumcheckData.TermValueDirect | tachyon/math/polynomials/sumcheck/data_structures.h:73-77 | multiplying multiplicands looked up through indices equals multiplying them directly |
| SumcheckData.LookupAppend | tachyon/math/polynomials/sumcheck/data_structures.h:58-60 | appending a new object at the next position keeps the lookup table exact |
| SumcheckData.LookupIndex | tachyon/math/polynomials/sumcheck/data_structures.h:53-56 | the table's position for an object is the position it has in the flat list |
| SumcheckData.LookupNoDuplicates | tachyon/math/polynomials/sumcheck/data_structures.h:101-102 | an exact lookup table means no object is stored twice |
| SumcheckData.ListOfProductsOfPolynomials.constructor | tachyon/math/polynomials/sumcheck/data_structures.h:39-40 | no products, no multiplicands, `max_multiplicands` 0 and the given number of variables |
| SumcheckData.ListOfProductsOfPolynomials.AddProduct | tachyon/math/polynomials/sumcheck/data_structures.h:42-67 | with every multiplicand of the right size, the product is interned by identity and appended with its coefficient, and `max_multiplicands` becomes the larger of its old value and the product's size |
| SumcheckData.ListOfProductsOfPolynomials.Evaluate | tachyon/math/polynomials/sumcheck/data_structures.h:69-83 | the sum over the products of coefficient times the product of the multiplicands' evaluations at the point |
| SumcheckData.AddProductValue | tachyon/math/polynomials/sumcheck/data_structures.h:42-83 | adding a product raises the value at every point by exactly its coefficient times its multiplicands' evaluations: sharing changes the representation, never the value |
| MlProver.Column | tachyon/math/polynomials/sumcheck/ml_prover.h:103-105 | entry x of every table: the multiplicands' values at hypercube point x |
| MlProver.RoundMessage | tachyon/math/polynomials/sumcheck/ml_prover.h:96-116 | the intended message: degree + 1 entries, entry t being the sum over the pairs of every product's line value at t, starting from its coefficient |
| MlProver.ProductAtEnds | tachyon/math/polynomials/sumcheck/ml_prover.h:105-110 | at t = 0 and t = 1 a product's line passes through its values at the pair's two points |
| MlProver.RoundTermsEnds | tachyon/math/polynomials/sumcheck/ml_prover.h:99-115 | at t = 0 and t = 1 all products together give the polynomial's value at the pair's two points |
| MlProver.CubeSumEnds | tachyon/math/polynomials/sumcheck/ml_prover.h:98-116 | entries 0 and 1 of the summed lines add up to the polynomial's sum over all 2n points |
| MlProver.MessageSumcheck | tachyon/math/polynomials/sumcheck/ml_prover.h:96-118 | the sumcheck identity: the intended message's entries at 0 and 1 add up to the polynomial's sum over the current hypercube |
| MlProver.ZeroCoefficients | tachyon/math/polynomials/sumcheck/ml_prover.h:101 | every coefficient replaced by zero, indices kept |
| MlProver.RoundMessageAsWritten | tachyon/math/polynomials/sumcheck/ml_prover.h:96-118 | the message as written, each product starting from zero: degree + 1 entries |
| MlProver.ProductAtZero | tachyon/math/polynomials/sumcheck/ml_prover.h:101-111 | a product started at zero stays zero |
| MlProver.RoundTermsZero | tachyon/math/polynomials/sumcheck/ml_prover.h:99-115 | products with zero coefficients contribute nothing |
| MlProver.CubeSumZero | tachyon/math/polynomials/sumcheck/ml_prover.h:98-116 | with zero coefficients the summed lines vanish |
| MlProver.AsWrittenMessageIsZero | tachyon/math/polynomials/sumcheck/ml_prover.h:101 | as written, every message is all zeros whatever the polynomial |
| MlProver.AsWrittenCounterexample | tachyon/math/polynomials/sumcheck/ml_prover.h:101 | one product of coefficient 1 over the table [1, 1] sums to 2, but the message as written is [0, 0] |
| MlProver.InitValue | tachyon/math/polynomials/sumcheck/ml_prover.h:37-58 | the error flag is raised exactly for a polynomial without variables; round 0, no randomness, the polynomial's products and sizes, and the tables copied only when there are variables |
| MlProver.ProverInitFourVariables | tachyon/math/polynomials/sumcheck/sumcheck_unittest.cc:25-32 | a polynomial of four variables is accepted and keeps its number of variables |
| MlProver.FixAll | tachyon/math/polynomials/sumcheck/ml_prover.h:77-79 | every table is fixed at r, in order |
| MlProver.RoundBookkeeping | tachyon/math/polynomials/sumcheck/ml_prover.h:60-118 | a message refused (after an error, at round 0 with a message, later without one) only raises the flag with an empty answer; an accepted one advances the round, appends its randomness, raises the flag exactly when the rounds are used up, and otherwise answers with `max_multiplicands + 1` entries |
| MlProver.RoundDefined | tachyon/math/polynomials/sumcheck/ml_prover.h:68-103 | the conditions under which the round reads only existing randomness, tables and pairs and the shift `1 << (num_vars - round)` stays within 64 bits |
| MlProver.ProveRoundSpec | tachyon/math/polynomials/sumcheck/ml_prover.h:60-118 | reference definition of one round on values, answering with the corrected message; `RoundBookkeeping` and `AcceptedMessageSumcheck` state what it guarantees |
| MlProver.AcceptedMessageSumcheck | tachyon/math/polynomials/sumcheck/ml_prover.h:85-118 | an accepted round's intended answer satisfies the sumcheck identity over the tables after fixing |
| MlProver.RoundKeepsRandomnessTracking | tachyon/math/polynomials/sumcheck/ml_prover.h:68-85 | after round 0 there stays one randomness value per answered verifier message |
| MlProver.FixedAtMessage | tachyon/math/polynomials/sumcheck/ml_prover.h:73-79 | with the randomness tracking the round, `randomness[round - 1]` is the value just sent, so every table is fixed at it |
| MlProver.Run | tachyon/math/polynomials/sumcheck/ml_prover.h:60-118 | one message per round |
| MlProver.ErrorIsSticky | tachyon/math/polynomials/sumcheck/ml_prover.h:64-66 | once raised, the error flag stays raised: every later round answers empty and changes nothing |
| MlProver.Challenges | tachyon/math/polynomials/sumcheck/ml_prover.h:68 | an honest verifier's messages, one value each |
| MlProver.MidwayStep | tachyon/math/polynomials/sumcheck/ml_prover.h:68-118 | an honest round between the first and the last keeps the state well formed, advances it by one and answers with `max_multiplicands + 1` entries |
| MlProver.HonestRounds | tachyon/math/polynomials/sumcheck/ml_prover.h:68-118 | honest rounds after the first are all accepted, collect their challenges in order and answer with `max_multiplicands + 1` entries each |
| MlProver.FirstRound | tachyon/math/polynomials/sumcheck/ml_prover.h:37-118 | round 0 of a fresh prover of n >= 1 variables, without a message, is accepted |
| MlProver.RoundAfterLast | tachyon/math/polynomials/sumcheck/ml_prover.h:85-90 | a round after the last one raises the error flag |
| MlProver.HonestRun | tachyon/math/polynomials/sumcheck/ml_prover.h:37-118 | a whole honest run of n rounds is accepted, ending with the n - 1 challenges as randomness and max_multiplicands + 1 entries per answer; one more round raises the flag |
| MlProver.ProverState.constructor | tachyon/math/polynomials/sumcheck/ml_prover.h:19-30 | no randomness and no tables, the given products and sizes, round 0, no error |
| MlProver.ProverState.FixTables | tachyon/math/polynomials/sumcheck/ml_prover.h:77-79 | every multiplicand's table is fixed at r in place |
| MlProver.ProverState.ProveRound | tachyon/math/polynomials/sumcheck/ml_prover.h:60-119 | the new state and the answer are exactly those of the round function, whose answer is the corrected message (each product starting at its coefficient, not at zero as line 101 does) |
| MlProver.ProverInit | tachyon/math/polynomials/sumcheck/ml_prover.h:37-58 | a fresh prover state equal to the initial-state function of the polynomial |
| MlProver.ScaleByLine | tachyon/math/polynomials/sumcheck/ml_prover.h:105-110 | entry t is multiplied by the line through the pair at step t |
| MlProver.ProductVector | tachyon/math/polynomials/sumcheck/ml_prover.h:101-111 | entry t of one product's vector at pair b, starting from its coefficient |
| MlProver.AddInto | tachyon/math/polynomials/sumcheck/ml_prover.h:112-114 | entrywise addition into the running sum |
| MlProver.ComputeMessage | tachyon/math/polynomials/sumcheck/ml_prover.h:96-116 | the nested loops compute the intended round message |
| MultilinearSparse.Lookup | tachyon/math/polynomials/multivariate/multilinear_sparse_evaluations.h:86-92 | found exactly when some stored entry has the index, and then the value is one stored under it |
| MultilinearSparse.LookupLast | tachyon/math/polynomials/multivariate/multilinear_sparse_evaluations.h:121-128 | found exactly when some pair has the index, and then the value is one stored under it |
| MultilinearSparse.LookupFirst | tachyon/math/polynomials/multivariate/multilinear_sparse_evaluations.h:43-47 | an index's first pair is the one found |
| MultilinearSparse.LookupLastAt | tachyon/math/polynomials/multivariate/multilinear_sparse_evaluations.h:121-128 | an index's last pair is the one the last-wins lookup finds |
| MultilinearSparse.LookupAbsentBelow | tachyon/math/polynomials/multivariate/multilinear_sparse_evaluations.h:86-92 | an index below every stored index is absent |
| MultilinearSparse.LookupSnoc | tachyon/math/polynomials/multivariate/multilinear_sparse_evaluations.h:43-47 | appending a pair changes a lookup only for an index that was absent |
| MultilinearSparse.InsertAbove | tachyon/math/polynomials/multivariate/multilinear_sparse_evaluations.h:121-128 | inserting an index above a bound keeps every index above it |
| MultilinearSparse.Insert | tachyon/math/polynomials/multivariate/multilinear_sparse_evaluations.h:43-128 | reference definition of a btree insert: keeping the stored value (range insert) or replacing it (`operator[]` assignment); `LookupInsert` proves its meaning |
| MultilinearSparse.InsertAscending | tachyon/math/polynomials/multivariate/multilinear_sparse_evaluations.h:121-128 | inserting keeps the indices strictly ascending, as in a btree |
| MultilinearSparse.LookupInsert | tachyon/math/polynomials/multivariate/multilinear_sparse_evaluations.h:121-128 | after inserting, the index holds the new value when replacing or when it was absent, the old one otherwise, and every other index is unchanged |
| MultilinearSparse.InsertGreatest | tachyon/math/polynomials/multivariate/multilinear_sparse_evaluations.h:121-128 | inserting an index above all stored ones appends it |
| MultilinearSparse.HeadsAgree | tachyon/math/polynomials/multivariate/multilinear_sparse_evaluations.h:78-80 | two ascending maps with the same lookups start with the same entry |
| MultilinearSparse.TailsAgree | tachyon/math/polynomials/multivariate/multilinear_sparse_evaluations.h:78-80 | maps with the same first entry and the same lookup at k agree at k after dropping it |
| MultilinearSparse.Extensionality | tachyon/math/polynomials/multivariate/multilinear_sparse_evaluations.h:78-80 | two btree maps with the same lookups are equal |
| MultilinearSparse.AllTailsAgree | tachyon/math/polynomials/multivariate/multilinear_sparse_evaluations.h:78-80 | after a shared first entry, the rests are ascending and have the same lookups |
| MultilinearSparse.SameHeadSameTail | tachyon/math/polynomials/multivariate/multilinear_sparse_evaluations.h:78-80 | same first entry and same rest is the same sequence |
| MultilinearSparse.EmptyIffNoKeys | tachyon/math/polynomials/multivariate/multilinear_sparse_evaluations.h:108-111 | a map is empty exactly when no index is found |
| MultilinearSparse.BuildAscending | tachyon/math/polynomials/multivariate/multilinear_sparse_evaluations.h:43-54 | building a btree from pairs gives strictly ascending indices |
| MultilinearSparse.Build | tachyon/math/polynomials/multivariate/multilinear_sparse_evaluations.h:43-128 | reference definition of building the map from pairs by repeated insertion; `BuildFirstWins` and `BuildLastWins` prove which value each index keeps |
| MultilinearSparse.BuildFirstWins | tachyon/math/polynomials/multivariate/multilinear_sparse_evaluations.h:43-54 | range construction keeps, for each index, the first pair with it |
| MultilinearSparse.BuildLastWins | tachyon/math/polynomials/multivariate/multilinear_sparse_evaluations.h:121-128 | assignment by `operator[]` keeps, for each index, the last pair with it |
| MultilinearSparse.Default | tachyon/math/polynomials/multivariate/multilinear_sparse_evaluations.h:35-37 | the default holds exactly index 0 with value zero |
| MultilinearSparse.FromPairs | tachyon/math/polynomials/multivariate/multilinear_sparse_evaluations.h:43-54 | the constructor from pairs finds each index's first pair and nothing else |
| MultilinearSparse.Get | tachyon/math/polynomials/multivariate/multilinear_sparse_evaluations.h:86-92 | found exactly when the index is stored, and then its stored value |
| MultilinearSparse.AllValuesMeaning | tachyon/math/polynomials/multivariate/multilinear_sparse_evaluations.h:94-106 | `IsZero` (and `IsOne`) holds exactly when every value Get finds is zero (one); an empty map is both |
| MultilinearSparse.IsZero | tachyon/math/polynomials/multivariate/multilinear_sparse_evaluations.h:94-99 | all stored values are zero; `AllValuesMeaning` proves it means zero at every stored index, vacuously true when empty |
| MultilinearSparse.IsOne | tachyon/math/polynomials/multivariate/multilinear_sparse_evaluations.h:101-106 | all stored values are one; `AllValuesMeaning` proves the same for one |
| MultilinearSparse.Equal | tachyon/math/polynomials/multivariate/multilinear_sparse_evaluations.h:78-84 | `==` compares the underlying maps; `EqualMeansSameValues` proves it holds iff `Get` agrees at every index |
| MultilinearSparse.EqualMeansSameValues | tachyon/math/polynomials/multivariate/multilinear_sparse_evaluations.h:78-84 | `==` holds exactly when Get agrees at every index |
| MultilinearSparse.TuplesToTreemap | tachyon/math/polynomials/multivariate/multilinear_sparse_evaluations.h:121-128 | the loop's map is ascending and holds, for each index, the last pair with it |
| MultilinearSparse.Filled | tachyon/math/polynomials/multivariate/multilinear_sparse_evaluations.h:57-60 | 2^d entries, entry i being (i, v) |
| MultilinearSparse.BuildFilled | tachyon/math/polynomials/multivariate/multilinear_sparse_evaluations.h:57-61 | building from already ascending distinct pairs keeps them |
| MultilinearSparse.Constant | tachyon/math/polynomials/multivariate/multilinear_sparse_evaluations.h:56-70 | the shared loop of Zero and One: entries (i, v) for i below 2^degree |
| MultilinearSparse.FilledValues | tachyon/math/polynomials/multivariate/multilinear_sparse_evaluations.h:56-70 | every index below 2^degree holds v and no other index is stored |
| MultilinearSparse.Zero | tachyon/math/polynomials/multivariate/multilinear_sparse_evaluations.h:56-62 | zero at every index below 2^degree and nothing else stored; `IsZero` holds |
| MultilinearSparse.One | tachyon/math/polynomials/multivariate/multilinear_sparse_evaluations.h:64-70 | one at every index below 2^degree and nothing else stored; `IsOne` holds |
| MultilinearSparse.Log2Ceiling | tachyon/math/polynomials/multivariate/multilinear_sparse_evaluations.h:118 | the least d with n <= 2^d |
| MultilinearSparse.Pow2Monotone | tachyon/math/polynomials/multivariate/multilinear_sparse_evaluations.h:118 | powers of two grow with the exponent |
| MultilinearSparse.Log2CeilingUnique | tachyon/math/polynomials/multivariate/multilinear_sparse_evaluations.h:118 | any d with 2^(d-1) < n <= 2^d is the ceiling logarithm |
| MultilinearSparse.MaxKey | tachyon/math/polynomials/multivariate/multilinear_sparse_evaluations.h:113-116 | the largest stored index, and 0 for an empty map |
| MultilinearSparse.Degree | tachyon/math/polynomials/multivariate/multilinear_sparse_evaluations.h:108-119 | 0 for an empty map, otherwise the ceiling base-2 logarithm of the largest stored index |
| MultilinearSparse.DegreeBounds | tachyon/math/polynomials/multivariate/multilinear_sparse_evaluations.h:108-119 | every stored index is at most 2^Degree, and for a positive degree some stored index exceeds 2^(Degree - 1) |
| MultilinearSparse.DegreeOfFilled | tachyon/math/polynomials/multivariate/multilinear_sparse_evaluations.h:56-119 | Zero(d) and One(d) have degree d, except d = 1, where the indices 0 and 1 give degree 0 |
| MultilinearSparse.FilledMaxKey | tachyon/math/polynomials/multivariate/multilinear_sparse_evaluations.h:56-70 | the largest index of 2^d filled entries is 2^d - 1 |
| MultilinearSparse.Log2CeilingBelowPower | tachyon/math/polynomials/multivariate/multilinear_sparse_evaluations.h:118 | for d >= 2 the ceiling logarithm of 2^d - 1 is d |
| MultilinearSparse.JoinedAgrees | tachyon/math/polynomials/multivariate/multilinear_sparse_evaluations.h:178-185 | the entries' texts in order, separated by ", ", with no separator before the first or after the last |
| MultilinearSparse.JoinedFrontSnoc | tachyon/math/polynomials/multivariate/multilinear_sparse_evaluations.h:178-185 | one more entry appends ", " and its text |
| MultilinearSparse.ToString | tachyon/math/polynomials/multivariate/multilinear_sparse_evaluations.h:174-189 | "[" then each entry as "(index, value)" in ascending order, separated by ", ", then "]" |
| MultilinearSparse.RenderExamples | tachyon/math/polynomials/multivariate/multilinear_sparse_evaluations.h:174-189 | an empty map prints "[]" and the default prints "[(0, 0)]" |
| MultilinearSparse.FirstWinsLastWins | tachyon/math/polynomials/multivariate/multilinear_sparse_evaluations.h:43-128 | the pairs (0, 1), (0, 2) give 1 through the constructor and 2 through tuples_to_treemap |
| DecimalText.DecimalString | tachyon/math/polynomials/multivariate/multilinear_sparse_evaluations.h:182 | `std::to_string`: at least one digit, only digits, and no leading zero except for 0 itself |
| DecimalText.Digit | tachyon/math/polynomials/multivariate/multilinear_sparse_evaluations.h:182 | a decimal digit character |
| DecimalText.DecimalRoundTrip | tachyon/math/polynomials/multivariate/multilinear_sparse_evaluations.h:182 | reading the printed digits gives the number back |
| DecimalText.DecimalValueSnoc | tachyon/math/polynomials/multivariate/multilinear_sparse_evaluations.h:182 | one more digit multiplies the value by ten and adds the digit |
| UnivariateSparse.ConsCanonical | tachyon/math/polynomials/univariate/univariate_sparse_polynomial_unittest.cc:25-31 | a non-zero term below a canonical polynomial's terms keeps it canonical (ascending degrees, no zero coefficient) |
| UnivariateSparse.TailCanonical | tachyon/math/polynomials/univariate/univariate_sparse_polynomial_unittest.cc:25-31 | the rest of a canonical polynomial is canonical and lies above its first degree |
| UnivariateSparse.Get | tachyon/math/polynomials/univariate/univariate_sparse_polynomial_unittest.cc:94-121 | `operator[]`: found exactly when a term of that degree is stored, and then its coefficient |
| UnivariateSparse.CoeffAbove | tachyon/math/polynomials/univariate/univariate_sparse_polynomial_unittest.cc:94-121 | every degree below all stored ones has coefficient zero |
| UnivariateSparse.CoeffAt | tachyon/math/polynomials/univariate/univariate_sparse_polynomial_unittest.cc:94-121 | a stored term's coefficient is the coefficient at its degree |
| UnivariateSparse.EmptyIffNoCoefficients | tachyon/math/polynomials/univariate/univariate_sparse_polynomial_unittest.cc:40-48 | a canonical polynomial is empty exactly when every coefficient is zero |
| UnivariateSparse.HeadsAgree | tachyon/math/polynomials/univariate/univariate_sparse_polynomial_unittest.cc:224-241 | canonical polynomials with the same coefficients share their first term |
| UnivariateSparse.AllTailsAgree | tachyon/math/polynomials/univariate/univariate_sparse_polynomial_unittest.cc:224-241 | after a shared first term the rests are canonical with the same coefficients |
| UnivariateSparse.Extensionality | tachyon/math/polynomials/univariate/univariate_sparse_polynomial_unittest.cc:224-241 | two canonical polynomials with the same coefficients are equal, so `==` is equality of polynomials |
| UnivariateSparse.MergeAbove | tachyon/math/polynomials/univariate/univariate_sparse_polynomial_unittest.cc:172-243 | merging keeps every degree above a bound both operands are above |
| UnivariateSparse.Merge | tachyon/math/polynomials/univariate/univariate_sparse_polynomial_unittest.cc:172-243 | reference definition of the sorted merge behind `+` and `-`; `MergeCanonical` and `MergeCoeff` prove it stays canonical and acts coefficientwise |
| UnivariateSparse.Add | tachyon/math/polynomials/univariate/univariate_sparse_polynomial_unittest.cc:172-243 | `a + b` as the merge that adds; `AddCommutes`, `AddAssociates`, `AddZero` and `EvaluateAddSub` state its laws |
| UnivariateSparse.Sub | tachyon/math/polynomials/univariate/univariate_sparse_polynomial_unittest.cc:172-243 | `a - b` as the merge that subtracts; `AddSubCancel` and `EvaluateAddSub` state its laws |
| UnivariateSparse.MergeCanonical | tachyon/math/polynomials/univariate/univariate_sparse_polynomial_unittest.cc:172-243 | the sum and the difference of canonical polynomials are canonical |
| UnivariateSparse.CoeffCons | tachyon/math/polynomials/univariate/univariate_sparse_polynomial_unittest.cc:94-121 | the coefficients of a polynomial with one more first term |
| UnivariateSparse.MergeCoeff | tachyon/math/polynomials/univariate/univariate_sparse_polynomial_unittest.cc:172-243 | every coefficient of the sum (difference) is the sum (difference) of the operands' coefficients |
| UnivariateSparse.MergeCoeffLow | tachyon/math/polynomials/univariate/univariate_sparse_polynomial_unittest.cc:172-243 | the merge step taking b's first term keeps the coefficient law |
| UnivariateSparse.MergeCoeffHigh | tachyon/math/polynomials/univariate/univariate_sparse_polynomial_unittest.cc:172-243 | the merge step taking a's first term keeps the coefficient law |
| UnivariateSparse.MergeCoeffBoth | tachyon/math/polynomials/univariate/univariate_sparse_polynomial_unittest.cc:172-243 | the merge step combining two terms of one degree keeps the coefficient law |
| UnivariateSparse.AddCommutes | tachyon/math/polynomials/univariate/univariate_sparse_polynomial_unittest.cc:228-229 | a + b == b + a |
| UnivariateSparse.AddAssociates | tachyon/math/polynomials/univariate/univariate_sparse_polynomial_unittest.cc:228-241 | (a + b) + c == a + (b + c) |
| UnivariateSparse.AddSubCancel | tachyon/math/polynomials/univariate/univariate_sparse_polynomial_unittest.cc:237-241 | (a + b) - b == a, the in-place round trip the test checks |
| UnivariateSparse.AddZero | tachyon/math/polynomials/univariate/univariate_sparse_polynomial_unittest.cc:215-221 | adding the zero polynomial on either side changes nothing |
| UnivariateSparse.EvaluateMerge | tachyon/math/polynomials/univariate/univariate_sparse_polynomial_unittest.cc:172-243 | evaluating a merge is combining the evaluations |
| UnivariateSparse.Evaluate | tachyon/math/polynomials/univariate/univariate_sparse_polynomial_unittest.cc:138-151 | reference definition of evaluation as the sum of coefficient times x to the degree, in GF(7); `EvaluateAddSub`, `EvaluateMul` and the test vectors relate it to the operations |
| UnivariateSparse.EvaluateMergeLow | tachyon/math/polynomials/univariate/univariate_sparse_polynomial_unittest.cc:172-243 | the merge step taking b's first term keeps the evaluation law |
| UnivariateSparse.EvaluateMergeHigh | tachyon/math/polynomials/univariate/univariate_sparse_polynomial_unittest.cc:172-243 | the merge step taking a's first term keeps the evaluation law |
| UnivariateSparse.EvaluateMergeBoth | tachyon/math/polynomials/univariate/univariate_sparse_polynomial_unittest.cc:172-243 | the merge step combining two terms keeps the evaluation law |
| UnivariateSparse.EvaluateAddSub | tachyon/math/polynomials/univariate/univariate_sparse_polynomial_unittest.cc:172-243 | evaluation maps + and - of polynomials to + and - in GF(7) |
| UnivariateSparse.TermMulAbove | tachyon/math/polynomials/univariate/univariate_sparse_polynomial_unittest.cc:245-321 | multiplying by a term shifts every degree by the term's degree |
| UnivariateSparse.TermMul | tachyon/math/polynomials/univariate/univariate_sparse_polynomial_unittest.cc:245-321 | one term times a polynomial, with zero products dropped; `TermMulCanonical` and `TermMulCoeff` prove its coefficients |
| UnivariateSparse.Mul | tachyon/math/polynomials/univariate/univariate_sparse_polynomial_unittest.cc:245-321 | `a * b` as the sum of term products; `MulCanonical`, `EvaluateMul`, `MulCommutes` and `MulUnitAndZero` state its laws |
| UnivariateSparse.TermMulCanonical | tachyon/math/polynomials/univariate/univariate_sparse_polynomial_unittest.cc:245-321 | a term times a canonical polynomial is canonical |
| UnivariateSparse.TermMulCoeff | tachyon/math/polynomials/univariate/univariate_sparse_polynomial_unittest.cc:245-321 | coefficient i of term times b is the term's coefficient times b's coefficient at i minus its degree, and zero below its degree |
| UnivariateSparse.TermMulCoeffStep | tachyon/math/polynomials/univariate/univariate_sparse_polynomial_unittest.cc:245-321 | one term of b at a time keeps the coefficient law |
| UnivariateSparse.TermMulFront | tachyon/math/polynomials/univariate/univariate_sparse_polynomial_unittest.cc:245-321 | the first product term is kept exactly when it is non-zero |
| UnivariateSparse.CanonicalFront | tachyon/math/polynomials/univariate/univariate_sparse_polynomial_unittest.cc:94-121 | in a canonical polynomial the first degree's coefficient is the first term's, and the rest has zero there |
| UnivariateSparse.MulCanonical | tachyon/math/polynomials/univariate/univariate_sparse_polynomial_unittest.cc:245-321 | the product is canonical |
| UnivariateSparse.EvaluateTermMul | tachyon/math/polynomials/univariate/univariate_sparse_polynomial_unittest.cc:245-321 | evaluating term times b is the term's value times b's value |
| UnivariateSparse.EvaluateTermMulStep | tachyon/math/polynomials/univariate/univariate_sparse_polynomial_unittest.cc:245-321 | one term of b at a time keeps that evaluation law |
| UnivariateSparse.EvaluateTermMulHead | tachyon/math/polynomials/univariate/univariate_sparse_polynomial_unittest.cc:245-321 | the first product term contributes its value whether or not it is dropped as zero |
| UnivariateSparse.EvaluateMul | tachyon/math/polynomials/univariate/univariate_sparse_polynomial_unittest.cc:245-321 | evaluation maps * of polynomials to * in GF(7) |
| UnivariateSparse.MulZero | tachyon/math/polynomials/univariate/univariate_sparse_polynomial_unittest.cc:281-289 | a times zero and zero times a are zero |
| UnivariateSparse.TermMulOne | tachyon/math/polynomials/univariate/univariate_sparse_polynomial_unittest.cc:272-280 | the term 1 times b is b |
| UnivariateSparse.MulOneLeftPoly | tachyon/math/polynomials/univariate/univariate_sparse_polynomial_unittest.cc:272-280 | one times a is a |
| UnivariateSparse.TermMulCons | tachyon/math/polynomials/univariate/univariate_sparse_polynomial_unittest.cc:245-321 | term times (t, rest): coefficient i adds the product with t at its degree to the product with the rest |
| UnivariateSparse.MulConsRight | tachyon/math/polynomials/univariate/univariate_sparse_polynomial_unittest.cc:245-321 | b times (t, rest) is t times b plus b times the rest |
| UnivariateSparse.MulConsRightStep | tachyon/math/polynomials/univariate/univariate_sparse_polynomial_unittest.cc:245-321 | one term of b at a time keeps that law |
| UnivariateSparse.MulCommutes | tachyon/math/polynomials/univariate/univariate_sparse_polynomial_unittest.cc:296-297 | a * b == b * a |
| UnivariateSparse.MulUnitAndZero | tachyon/math/polynomials/univariate/univariate_sparse_polynomial_unittest.cc:272-289 | one is the unit of * on both sides and zero absorbs on both sides |
| UnivariateSparse.Zero | tachyon/math/polynomials/univariate/univariate_sparse_polynomial_unittest.cc:31-48 | canonical, with every coefficient zero |
| UnivariateSparse.One | tachyon/math/polynomials/univariate/univariate_sparse_polynomial_unittest.cc:50-57 | canonical, with coefficient one at degree 0 and zero elsewhere |
| UnivariateSparse.IsZeroMeaning | tachyon/math/polynomials/univariate/univariate_sparse_polynomial_unittest.cc:40-48 | `IsZero` holds exactly when every coefficient is zero; on a polynomial without stored zeros it means nothing is stored |
| UnivariateSparse.IsZero | tachyon/math/polynomials/univariate/univariate_sparse_polynomial_unittest.cc:40-48 | every stored coefficient is zero; `IsZeroMeaning` proves its meaning |
| UnivariateSparse.IsOne | tachyon/math/polynomials/univariate/univariate_sparse_polynomial_unittest.cc:50-57 | the single term 1 * x^0; `IsOneMeaning` proves its meaning |
| UnivariateSparse.Degree | tachyon/math/polynomials/univariate/univariate_sparse_polynomial_unittest.cc:123-136 | the last stored degree, 0 when empty; `DegreeIsLargest` proves it is the largest exponent of a canonical list |
| UnivariateSparse.IsOneMeaning | tachyon/math/polynomials/univariate/univariate_sparse_polynomial_unittest.cc:50-57 | on a canonical polynomial `IsOne` holds exactly when it is the constant one |
| UnivariateSparse.GetMeaning | tachyon/math/polynomials/univariate/univariate_sparse_polynomial_unittest.cc:94-121 | on a canonical polynomial, `operator[]` finds exactly the non-zero coefficients |
| UnivariateSparse.DegreeIsLargest | tachyon/math/polynomials/univariate/univariate_sparse_polynomial_unittest.cc:123-136 | no stored degree exceeds `Degree`, every coefficient above it is zero, and a non-zero polynomial's coefficient at it is non-zero |
| UnivariateSparse.FoldedCoefficients | tachyon/math/polynomials/univariate/univariate_sparse_polynomial_unittest.cc:384-444 | n folded coefficients, entry i being the fold of the pair (2i, 2i + 1) |
| UnivariateSparse.FoldCoefficient | tachyon/math/polynomials/univariate/univariate_sparse_polynomial_unittest.cc:384-444 | coefficient i of the fold: r * c[2i] + c[2i+1] for the even fold, c[2i] + r * c[2i+1] for the odd one |
| UnivariateSparse.Fold | tachyon/math/polynomials/univariate/univariate_sparse_polynomial_unittest.cc:384-444 | the folded coefficients with zero terms erased; `FoldCoeff` proves every coefficient for all inputs |
| UnivariateSparse.SnocCanonical | tachyon/math/polynomials/univariate/univariate_sparse_polynomial_unittest.cc:384-444 | a non-zero term above all degrees keeps a polynomial canonical |
| UnivariateSparse.CoeffSnoc | tachyon/math/polynomials/univariate/univariate_sparse_polynomial_unittest.cc:384-444 | appending a term above all degrees sets only that coefficient |
| UnivariateSparse.FromDenseShape | tachyon/math/polynomials/univariate/univariate_sparse_polynomial_unittest.cc:392-394 | a dense coefficient list with its zeros erased is canonical and below its length |
| UnivariateSparse.FromDenseCoeff | tachyon/math/polynomials/univariate/univariate_sparse_polynomial_unittest.cc:392-395 | erasing zeros keeps every coefficient, and nothing is stored past the list |
| UnivariateSparse.CoeffSnocIf | tachyon/math/polynomials/univariate/univariate_sparse_polynomial_unittest.cc:392-394 | appending a coefficient that may be zero sets only that coefficient |
| UnivariateSparse.FoldCoeff | tachyon/math/polynomials/univariate/univariate_sparse_polynomial_unittest.cc:384-444 | the fold is canonical, and its coefficient i is r * c[2i] + c[2i + 1] for the even fold and c[2i] + r * c[2i + 1] for the odd fold, for every i |
| UnivariateSparse.Linear | tachyon/math/polynomials/univariate/univariate_sparse_polynomial_unittest.cc:362-376 | x - root as a canonical polynomial |
| UnivariateSparse.EvaluateLinear | tachyon/math/polynomials/univariate/univariate_sparse_polynomial_unittest.cc:369-376 | x - root evaluates to x - root |
| UnivariateSparse.EvaluateFromRoots | tachyon/math/polynomials/univariate/univariate_sparse_polynomial_unittest.cc:369-376 | `FromRoots` is canonical and evaluates everywhere to `EvaluateVanishingPolyByRoots` |
| UnivariateSparse.FromRoots | tachyon/math/polynomials/univariate/univariate_sparse_polynomial_unittest.cc:362-367 | the product of x - root over the roots; `EvaluateFromRoots` and `RootsVanish` state its meaning |
| UnivariateSparse.VanishingAt | tachyon/math/polynomials/univariate/univariate_sparse_polynomial_unittest.cc:369-376 | reference definition of `EvaluateVanishingPolyByRoots`: the product of x - root in GF(7) |
| UnivariateSparse.RootsVanish | tachyon/math/polynomials/univariate/univariate_sparse_polynomial_unittest.cc:362-376 | the vanishing product is zero at every root |
| UnivariateSparse.TermText | tachyon/math/polynomials/univariate/univariate_sparse_polynomial_unittest.cc:153-170 | a term's text is never empty |
| UnivariateSparse.ToString | tachyon/math/polynomials/univariate/univariate_sparse_polynomial_unittest.cc:153-170 | the text is empty exactly for the empty polynomial |
| UnivariateSparse.Descending | tachyon/math/polynomials/univariate/univariate_sparse_polynomial_unittest.cc:153-170 | the terms in reverse order, term i being the i-th from the back |
| UnivariateSparse.DescendingDegrees | tachyon/math/polynomials/univariate/univariate_sparse_polynomial_unittest.cc:153-170 | reversing a canonical list lists its terms from the highest degree down, strictly |
| UnivariateSparse.JoinTerms | tachyon/math/polynomials/univariate/univariate_sparse_polynomial_unittest.cc:153-170 | reference definition of the printed form: the term texts first to last with " + " between neighbours |
| UnivariateSparse.ToStringJoinsDescending | tachyon/math/polynomials/univariate/univariate_sparse_polynomial_unittest.cc:153-170 | `ToString` equals the " + "-join of the term texts in descending order of degree, for every polynomial |
| UnivariateSparse.ZeroAndOneExamples | tachyon/math/polynomials/univariate/univariate_sparse_polynomial_unittest.cc:40-57 | the expected IsZero and IsOne answers for Zero, One, (0, 0), (1, 1) and the seven test polynomials |
| UnivariateSparse.IndexingExamples | tachyon/math/polynomials/univariate/univariate_sparse_polynomial_unittest.cc:94-121 | the expected `operator[]` answers for the test polynomials |
| UnivariateSparse.DegreeExamples | tachyon/math/polynomials/univariate/univariate_sparse_polynomial_unittest.cc:123-136 | the degrees 4, 0, 3, 4, 1, 2, 0 of the test polynomials |
| UnivariateSparse.EvaluateExamples | tachyon/math/polynomials/univariate/univariate_sparse_polynomial_unittest.cc:138-151 | the values at 3 of the short test polynomials |
| UnivariateSparse.EvaluateLongExamples | tachyon/math/polynomials/univariate/univariate_sparse_polynomial_unittest.cc:138-151 | the values 6 and 3 at 3 of the two longer test polynomials |
| UnivariateSparse.DigitTextExamples | tachyon/math/polynomials/univariate/univariate_sparse_polynomial_unittest.cc:153-170 | the digits the test texts use |
| UnivariateSparse.TermTextExamples | tachyon/math/polynomials/univariate/univariate_sparse_polynomial_unittest.cc:153-170 | the texts of single terms: "c * x^d", "c * x" and "c" |
| UnivariateSparse.ToStringLongExample | tachyon/math/polynomials/univariate/univariate_sparse_polynomial_unittest.cc:158 | "2 * x^4 + 1 * x^2 + 3" |
| UnivariateSparse.ToStringQuadraticExample | tachyon/math/polynomials/univariate/univariate_sparse_polynomial_unittest.cc:163 | "1 * x^2 + 4 * x + 3" |
| UnivariateSparse.ToStringExamples | tachyon/math/polynomials/univariate/univariate_sparse_polynomial_unittest.cc:159-164 | the texts of the remaining test polynomials, the zero polynomial printing as "" |
| UnivariateSparse.ExampleTails | tachyon/math/polynomials/univariate/univariate_sparse_polynomial_unittest.cc:25-31 | the tails of the test polynomials |
| UnivariateSparse.AdditiveExamplesP1 | tachyon/math/polynomials/univariate/univariate_sparse_polynomial_unittest.cc:180-186 | a + b, a - b and b - a for the second test polynomial |
| UnivariateSparse.AdditiveExamplesP2 | tachyon/math/polynomials/univariate/univariate_sparse_polynomial_unittest.cc:187-193 | a + b, a - b and b - a for the third test polynomial |
| UnivariateSparse.AdditiveExamplesP3 | tachyon/math/polynomials/univariate/univariate_sparse_polynomial_unittest.cc:194-200 | a + b (where the x^4 terms cancel), a - b and b - a for the fourth |
| UnivariateSparse.AdditiveExamplesP4 | tachyon/math/polynomials/univariate/univariate_sparse_polynomial_unittest.cc:201-207 | a + b, a - b and b - a for the fifth |
| UnivariateSparse.AdditiveExamplesP5 | tachyon/math/polynomials/univariate/univariate_sparse_polynomial_unittest.cc:208-214 | a + b, a - b and b - a for the sixth |
| UnivariateSparse.AdditiveExamplesP6 | tachyon/math/polynomials/univariate/univariate_sparse_polynomial_unittest.cc:215-221 | a + 0, a - 0 and 0 - a |
| UnivariateSparse.MulSingle | tachyon/math/polynomials/univariate/univariate_sparse_polynomial_unittest.cc:245-321 | a single term times b is that term's product |
| UnivariateSparse.MulStep | tachyon/math/polynomials/univariate/univariate_sparse_polynomial_unittest.cc:245-321 | a polynomial times b is its first term's product plus the rest's product |
| UnivariateSparse.MultiplicativeExample | tachyon/math/polynomials/univariate/univariate_sparse_polynomial_unittest.cc:263-271 | (3 + x)(5 + 2x + 5x^2) == 1 + 4x + 3x^2 + 5x^3 |
| UnivariateSparse.MultiplicativeSum | tachyon/math/polynomials/univariate/univariate_sparse_polynomial_unittest.cc:263-271 | the two partial products of that example add up to the expected product |
| UnivariateSparse.QuadraticSums | tachyon/math/polynomials/univariate/univariate_sparse_polynomial_unittest.cc:362-367 | the sums inside (x - 1)(x - 2) and the next factor |
| UnivariateSparse.CubicSums | tachyon/math/polynomials/univariate/univariate_sparse_polynomial_unittest.cc:362-367 | the sums inside the cubic and quartic steps |
| UnivariateSparse.QuarticSums | tachyon/math/polynomials/univariate/univariate_sparse_polynomial_unittest.cc:362-367 | the sums of the last factor's partial products |
| UnivariateSparse.QuarticProducts | tachyon/math/polynomials/univariate/univariate_sparse_polynomial_unittest.cc:362-367 | the partial products with x - 5 |
| UnivariateSparse.FromRootsQuadraticExample | tachyon/math/polynomials/univariate/univariate_sparse_polynomial_unittest.cc:362-367 | (x - 1)(x - 2) == 2 + 4x + x^2 |
| UnivariateSparse.FromRootsCubicExample | tachyon/math/polynomials/univariate/univariate_sparse_polynomial_unittest.cc:362-367 | (x - 1)(x - 2)(x - 6) == 2 + 6x + 5x^2 + x^3 |
| UnivariateSparse.FromRootsExample | tachyon/math/polynomials/univariate/univariate_sparse_polynomial_unittest.cc:362-367 | the roots 1, 2, 6, 5 give x^4 + 2x^2 + 4 |

## Left out

- SHA-256 (FIPS 180-4) and the OpenSSL context calls: the hash is the uninterpreted parameter `hash`, applied to the bytes absorbed since the last reset.
- Production field and curve arithmetic. Field elements are natural numbers, and a point is a pair of coordinates; curve membership and point decompression are not modelled.
- The proof-buffer encoding belongs to a buffer library that is not part of this model: values are written as fixed-width big-endian, and a read fails on short input or on an out-of-range value.
- `RationalField::BatchEvaluate` is a partial element-wise map `eval`, so only its per-element meaning is modelled, not the batch inversion.
- The inverse FFT, `CommitLagrange`, `CommitEvalsWithBlind` and the blinder's randomness are collaborators: they are parameters, and their calls appear in event logs.
- `XORShiftRNG::FromRandomSeed` reads system randomness, which has no model.
- `XorShiftRng.FromSeed`: `memcpy` of the seed bytes is modelled on a little-endian host; a big-endian host would load each register byte-reversed.
- The permutation assembly behind `Assembly::Copy` is modelled only as the log of copies it receives; its cycle structure is not modelled.
- `AdviceFactory` constructor (resizing `advice_singles_` to default objects): the model takes the per-circuit `AdviceSingle` objects as given.
- The challenge part of `AdviceFactory::DoStep` is not modelled. It assigns into a map that was only reserved, under a CHECK that the key is already present. It indexes by loop position and returns no value. Challenge derivation is modelled by `Synthesizer::UpdateChallenges`.
- `AdviceFactoryModule.AdviceFactory.DoStepAdvice` ignores the result of `SelectiveBatchEvaluate`, as the source does: after a failed batch nothing is committed or stored.
- Circuit synthesis (`floor_planner().Synthesize`, `GenerateRationalAdvices`) and its `WitnessCollection` construction and `TakeAdvices`, which do not match the shown header, are the abstract step `synthesize`.
- `SynthesizerModule.Synthesizer.GenerateAdviceColumns` requires the phases to be distinct (as `GetPhases()` returns them) and the phase's challenge slots to be still unused. The second is the fatal insert CHECK of `UpdateChallenges`, stated as a precondition. Through `GenerateColumn` it also assumes that the two CHECKs of the column step always pass (next line).
- `SynthesizerModule.Synthesizer.GenerateColumn` assumes that `CHECK(RationalField::BatchEvaluate(...))` (synthesizer.h:67-68) and `CHECK(prover->CommitEvals(...))` (synthesizer.h:73) always pass: the hooks `synthesize` and `absorb` are total. The write `evaluated[N - 1] = F::One()` (synthesizer.h:70) happens inside `synthesize`, so its column is not constrained here. The same batch evaluation and last-row write are modelled concretely, with their failure path, by `AdviceFactory.DoStepAdvice` (`SelectedEvals`, `WithLastRowOne`).
- The challenge map is a value copied into and out of the objects; aliasing of `challenges_` between the synthesizer and a backend is not modelled.
- `WitnessCollectionModule.WitnessCollection.constructor`: blinding factors larger than `kMaxDegree` only show through the wrapping `Common.SizeSub`; the values of such a huge usable range are not explored further.
- `InstanceSingleModule.InstanceSingle.Generate` also uses the wrapping bound `SizeSub(kDomainSize, blinding_factors)`. When the blinding factors exceed the domain, it requires every column to fit the domain: a longer column passes the wrapped size check and then makes `CreateVector(kDomainSize - instance.size(), ...)` wrap in turn, which has no defined outcome. `WrappedBoundAcceptsAll` shows that such inputs are all accepted.
- `ListOfProductsOfPolynomials` default constructor: it leaves `max_multiplicands_` uninitialised, so there is nothing to model.
- Multilinear extension evaluation and `FixVariables` are the parameters `evaluate` and `fix`. The sumcheck values are integers, with no reduction modulo the field's prime.
- `ml_verifier.h` does not compile: it uses undefined names and duplicates the prover template. It is not part of this model.
- `MultilinearSparseEvaluations::Evaluate`, `Random` and `RandWithConfig` are not modelled. `Evaluate` relies on the unshown `FixVariables` and an uninitialised `num_vars_`; the other two use randomness.
- The `CHECK_LE(NumVars, MaxDegree)` template guard is a compile-time relation between template parameters and has no counterpart.
- The field's `ToString` is the parameter `show` of `MultilinearSparse.ToString`.
- `MultilinearSparse.Log2Ceiling` stands for `base::bits::SafeLog2Ceiling`. base/bits.h is not part of this model, so the definition follows the function's documented meaning: 0 for n <= 1, otherwise the least d with n <= 2^d.
- The implementation of `UnivariateSparsePolynomial` is not part of this model. Its semantics over GF(7) are the ones its unit tests fix, and each test vector is a concrete lemma.
- Univariate `Random`, `Linearize`, scalar multiplication and division, polynomial `/` and `%`, `ToDense`, serialisation and hashing are not modelled. The in-place operators (`+=`, `*=`, `LinearizeInPlace`) are covered by the pure forms, which the tests assert equal to them.

## Findings

| source | as written | input that shows it | evidently intended | confidence | as-written member | corrected member |
|---|---|---|---|---|---|---|
| tachyon/zk/plonk/plonk_prover/witness_collection.h:136-139 | `GetChallenge` returns Unknown when `idx >= challenges_.size()` and otherwise reads with `operator[]`, which inserts a zero on a missing key | the map `{1: c}`: index 1 gives Unknown although c is stored, and index 0 gives Known(0) and adds key 0 | Known exactly for a stored index, with its value; the two agree when the keys are 0 .. n-1 | not executed | WitnessCollectionModule.GetChallengeAsWritten, WitnessCollectionModule.GetChallengeSparseCounterexample | WitnessCollectionModule.GetChallengeIntended, WitnessCollectionModule.GetChallengeDenseAgrees |
| tachyon/zk/plonk/prover/synthesizer.h:61-63 | the advice loop tests `j < phases.size()` but increments `i`, and filters by `challenge_phases` instead of the advice columns' phases | one challenge of phase 0 and two circuits: running phase 0 (with at least one advice column) aborts at the third step on `CHECK_LT(i, num_circuits)`, and phase 1 never ends | for each circuit, store exactly the advice columns of the current phase | not executed | SynthesizerModule.InnerLoopAsWritten, SynthesizerModule.InnerLoopNeverFinishes, SynthesizerModule.InnerLoopExample | SynthesizerModule.Synthesizer.GenerateAdviceColumns, SynthesizerModule.RunColumnsSpec |
| tachyon/math/polynomials/sumcheck/ml_prover.h:101 | each product in the round message starts at `F::Zero()`, so the coefficient is multiplied into nothing and every entry is zero | one product with coefficient 1 over the table [1, 1]: the polynomial sums to 2, but the message is [0, 0] | start each product at its coefficient, so that the message's entries at 0 and 1 add up to the remaining sum | not executed | MlProver.RoundMessageAsWritten, MlProver.AsWrittenCounterexample | MlProver.RoundMessage, MlProver.MessageSumcheck |
