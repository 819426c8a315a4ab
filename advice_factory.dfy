/** `AdviceFactory`: selects the advice columns of the current phase, turns
    their rational evaluations into field evaluations in one batch, and
    commits each one into the circuit's `AdviceSingle`.

    `RationalField::BatchEvaluate` is modelled element-wise: a partial map
    `eval` from a rational (and the batch coefficient) to a field element;
    the batch succeeds when every element evaluates, and then yields the
    elements' values in order. */
module AdviceFactoryModule {
  import opened Common
  import opened AdviceSingleModule

  /** The indices `i` with `phases[i] == phase`, in ascending order. */
  function PhaseIndices(phases: seq<nat>, phase: nat): (r: seq<nat>)
    ensures forall k | 0 <= k < |r| :: r[k] < |phases| && phases[r[k]] == phase
    ensures forall k, l | 0 <= k < l < |r| :: r[k] < r[l]
  {
    if phases == [] then []
    else
      var init := PhaseIndices(phases[..|phases| - 1], phase);
      if phases[|phases| - 1] == phase then init + [|phases| - 1] else init
  }

  /** Every column of the phase is listed. */
  lemma {:induction false} PhaseIndicesCovers(phases: seq<nat>, phase: nat)
    ensures forall i | 0 <= i < |phases| && phases[i] == phase :: i in PhaseIndices(phases, phase)
  {
    if phases != [] {
      var n := |phases| - 1;
      PhaseIndicesCovers(phases[..n], phase);
    }
  }

  /** `ParseIndices`: collects the indices of the given phase. */
  method ParseIndices(currentPhase: nat, phases: seq<nat>) returns (indices: seq<nat>)
    ensures indices == PhaseIndices(phases, currentPhase)
  {
    indices := [];
    var i := 0;
    while i < |phases|
      invariant 0 <= i <= |phases|
      invariant indices == PhaseIndices(phases[..i], currentPhase)
    {
      assert phases[..i + 1][..i] == phases[..i];
      if phases[i] == currentPhase {
        indices := indices + [i];
      }
      i := i + 1;
    }
    assert phases[..i] == phases;
  }

  /** The phases 0, 1, 0 select columns 0 and 2 for phase 0. */
  lemma ParseIndicesExampleHalf()
    ensures PhaseIndices([0, 1, 0], 0) == [0, 2]
  {
    assert [0][..0] == [];
    assert PhaseIndices([0], 0) == [0];
    assert [0, 1][..1] == [0];
    assert PhaseIndices([0, 1], 0) == [0];
    assert [0, 1, 0][..2] == [0, 1];
  }

  /** The phases 0, 1, 0, 1, 0, 1 select columns 0, 2 and 4 for phase 0. */
  lemma ParseIndicesExample()
    ensures PhaseIndices([0, 1, 0, 1, 0, 1], 0) == [0, 2, 4]
  {
    ParseIndicesExampleHalf();
    assert [0, 1, 0, 1][..3] == [0, 1, 0];
    assert PhaseIndices([0, 1, 0, 1], 0) == [0, 2];
    assert [0, 1, 0, 1, 0][..4] == [0, 1, 0, 1];
    assert PhaseIndices([0, 1, 0, 1, 0], 0) == [0, 2, 4];
    assert [0, 1, 0, 1, 0, 1][..5] == [0, 1, 0, 1, 0];
  }

  /** Every rational of the batch evaluates. */
  predicate BatchSucceeds(batch: seq<Rational>, coeff: Fr, eval: (Rational, Fr) -> Option<Fr>) {
    forall j | 0 <= j < |batch| :: eval(batch[j], coeff).Some?
  }

  /** The element-wise model of `RationalField::BatchEvaluate`. */
  function EvaluateBatch(batch: seq<Rational>, coeff: Fr, eval: (Rational, Fr) -> Option<Fr>): (r: Option<seq<Fr>>)
    ensures r.Some? <==> BatchSucceeds(batch, coeff, eval)
    ensures r.Some? ==> |r.value| == |batch| && forall j | 0 <= j < |batch| :: Some(r.value[j]) == eval(batch[j], coeff)
    decreases |batch|
  {
    if batch == [] then Some([])
    else
      var n := |batch| - 1;
      var init := EvaluateBatch(batch[..n], coeff, eval);
      var last := eval(batch[n], coeff);
      assert forall j | 0 <= j < n :: batch[..n][j] == batch[j];
      if init.Some? && last.Some? then Some(init.value + [last.value]) else None
  }

  /** The columns one after another. */
  function Concat(columns: seq<seq<Rational>>): seq<Rational> {
    if columns == [] then [] else Concat(columns[..|columns| - 1]) + columns[|columns| - 1]
  }

  predicate AllOfSize(columns: seq<seq<Rational>>, domainSize: nat) {
    forall i | 0 <= i < |columns| :: |columns[i]| == domainSize
  }

  /** Where chunk i starts: i times the chunk size, written as repeated
      addition so that no proof about chunks needs nonlinear arithmetic. */
  function Offset(i: nat, domainSize: nat): nat {
    if i == 0 then 0 else Offset(i - 1, domainSize) + domainSize
  }

  lemma {:induction false} OffsetMonotone(i: nat, j: nat, domainSize: nat)
    requires i <= j
    ensures Offset(i, domainSize) <= Offset(j, domainSize)
    decreases j
  {
    if i < j {
      OffsetMonotone(i, j - 1, domainSize);
    }
  }

  lemma {:induction false} ConcatLength(columns: seq<seq<Rational>>, domainSize: nat)
    requires AllOfSize(columns, domainSize)
    ensures |Concat(columns)| == Offset(|columns|, domainSize)
  {
    if columns != [] {
      var init := columns[..|columns| - 1];
      assert AllOfSize(init, domainSize);
      ConcatLength(init, domainSize);
    }
  }

  /** Chunk i of a batch: the `domainSize` positions from `Offset(i)`, or
      nothing when the batch is too short. */
  function ChunkAt<T>(batch: seq<T>, domainSize: nat, i: nat): seq<T> {
    var lo := Offset(i, domainSize);
    if lo + domainSize <= |batch| then batch[lo..lo + domainSize] else []
  }

  /** Column i is chunk i of the concatenation. */
  lemma {:induction false} ConcatChunk(columns: seq<seq<Rational>>, domainSize: nat, i: nat)
    requires AllOfSize(columns, domainSize) && i < |columns|
    ensures Offset(i, domainSize) + domainSize <= |Concat(columns)|
    ensures ChunkAt(Concat(columns), domainSize, i) == columns[i]
  {
    var n := |columns|;
    var init := columns[..n - 1];
    assert AllOfSize(init, domainSize);
    ConcatLength(init, domainSize);
    var lo := Offset(i, domainSize);
    assert Concat(columns) == Concat(init) + columns[n - 1];
    if i == n - 1 {
      assert Concat(columns)[lo..lo + domainSize] == columns[n - 1];
    } else {
      ConcatChunk(init, domainSize, i);
      assert init[i] == columns[i];
      assert Concat(columns)[lo..lo + domainSize] == Concat(init)[lo..lo + domainSize];
    }
  }

  /** Every rational of the concatenation is a rational of some column. */
  lemma {:induction false} ConcatMembers(columns: seq<seq<Rational>>)
    ensures forall x :: x in Concat(columns) <==> exists i | 0 <= i < |columns| :: x in columns[i]
  {
    if columns != [] {
      var init := columns[..|columns| - 1];
      ConcatMembers(init);
      forall x | x in Concat(columns)
        ensures exists i | 0 <= i < |columns| :: x in columns[i]
      {
        if x in Concat(init) {
          var i :| 0 <= i < |init| && x in init[i];
          assert columns[i] == init[i];
        } else {
          assert x in columns[|columns| - 1];
        }
      }
      forall x, i | 0 <= i < |columns| && x in columns[i]
        ensures x in Concat(columns)
      {
        if i < |columns| - 1 {
          assert init[i] == columns[i];
        }
      }
    }
  }

  /** Evaluating a batch and then slicing is evaluating the slice. */
  lemma EvaluateSlice(batch: seq<Rational>, a: nat, b: nat, coeff: Fr, eval: (Rational, Fr) -> Option<Fr>)
    requires a <= b <= |batch| && BatchSucceeds(batch, coeff, eval)
    ensures EvaluateBatch(batch[a..b], coeff, eval).Some?
    ensures EvaluateBatch(batch, coeff, eval).value[a..b] == EvaluateBatch(batch[a..b], coeff, eval).value
  {
    assert forall j | 0 <= j < b - a :: batch[a..b][j] == batch[a + j];
  }

  /** A batch succeeds when each of its members evaluates. */
  lemma SucceedsByMembers(batch: seq<Rational>, coeff: Fr, eval: (Rational, Fr) -> Option<Fr>)
    ensures BatchSucceeds(batch, coeff, eval) <==> forall x | x in batch :: eval(x, coeff).Some?
  {
    if !BatchSucceeds(batch, coeff, eval) {
      var j :| 0 <= j < |batch| && eval(batch[j], coeff).None?;
      assert batch[j] in batch;
    }
  }

  /** The concatenated batch succeeds exactly when every column does. */
  lemma ConcatSucceeds(columns: seq<seq<Rational>>, coeff: Fr, eval: (Rational, Fr) -> Option<Fr>)
    ensures BatchSucceeds(Concat(columns), coeff, eval) <==>
      forall i | 0 <= i < |columns| :: BatchSucceeds(columns[i], coeff, eval)
  {
    ConcatMembers(columns);
    SucceedsByMembers(Concat(columns), coeff, eval);
    forall i | 0 <= i < |columns| {
      SucceedsByMembers(columns[i], coeff, eval);
    }
    if !BatchSucceeds(Concat(columns), coeff, eval) {
      var x :| x in Concat(columns) && eval(x, coeff).None?;
      var i :| 0 <= i < |columns| && x in columns[i];
      assert !BatchSucceeds(columns[i], coeff, eval);
    }
  }

  /** Batching is per-column evaluation: the concatenated batch succeeds
      exactly when every column evaluates on its own, and then chunk i of the
      batch's result is column i's own result. */
  lemma BatchIsPerColumn(columns: seq<seq<Rational>>, domainSize: nat, coeff: Fr, eval: (Rational, Fr) -> Option<Fr>)
    requires AllOfSize(columns, domainSize)
    ensures EvaluateBatch(Concat(columns), coeff, eval).Some? <==>
      forall i | 0 <= i < |columns| :: EvaluateBatch(columns[i], coeff, eval).Some?
    ensures EvaluateBatch(Concat(columns), coeff, eval).Some? ==>
      forall i | 0 <= i < |columns| ::
        ChunkAt(EvaluateBatch(Concat(columns), coeff, eval).value, domainSize, i)
          == EvaluateBatch(columns[i], coeff, eval).value
  {
    var batch := Concat(columns);
    ConcatSucceeds(columns, coeff, eval);
    if BatchSucceeds(batch, coeff, eval) {
      forall i | 0 <= i < |columns|
        ensures ChunkAt(EvaluateBatch(batch, coeff, eval).value, domainSize, i) == EvaluateBatch(columns[i], coeff, eval).value
      {
        BatchChunk(columns, domainSize, i, coeff, eval);
      }
    }
  }

  lemma BatchChunk(columns: seq<seq<Rational>>, domainSize: nat, i: nat, coeff: Fr, eval: (Rational, Fr) -> Option<Fr>)
    requires AllOfSize(columns, domainSize) && i < |columns|
    requires BatchSucceeds(Concat(columns), coeff, eval)
    ensures BatchSucceeds(columns[i], coeff, eval)
    ensures ChunkAt(EvaluateBatch(Concat(columns), coeff, eval).value, domainSize, i)
         == EvaluateBatch(columns[i], coeff, eval).value
  {
    var batch := Concat(columns);
    ConcatChunk(columns, domainSize, i);
    var lo := Offset(i, domainSize);
    assert batch[lo..lo + domainSize] == columns[i];
    EvaluateSlice(batch, lo, lo + domainSize, coeff, eval);
  }

  /** `BatchEvaluate`: concatenates the columns in order, evaluates the
      batch once (with coefficient one) and splits the result into
      domain-sized chunks. On failure the prior results are returned as they
      were. */
  method BatchEvaluate(columns: seq<seq<Rational>>, domainSize: nat, eval: (Rational, Fr) -> Option<Fr>,
                       prior: seq<seq<Fr>>) returns (ok: bool, results: seq<seq<Fr>>)
    requires AllOfSize(columns, domainSize)
    ensures ok <==> EvaluateBatch(Concat(columns), 1, eval).Some?
    ensures !ok ==> results == prior
    ensures ok ==> |results| == |columns|
    ensures ok ==> forall i | 0 <= i < |columns| ::
      results[i] == ChunkAt(EvaluateBatch(Concat(columns), 1, eval).value, domainSize, i)
  {
    var batch: seq<Rational> := [];
    var c := 0;
    while c < |columns|
      invariant 0 <= c <= |columns|
      invariant batch == Concat(columns[..c])
    {
      assert columns[..c + 1][..c] == columns[..c];
      batch := batch + columns[c];
      c := c + 1;
    }
    assert columns[..c] == columns;
    ConcatLength(columns, domainSize);
    var evaluated := EvaluateBatch(batch, 1, eval);
    if evaluated.None? {
      return false, prior;
    }
    var values := evaluated.value;
    results := [];
    var i, pos := 0, 0;
    while i < |columns|
      invariant 0 <= i <= |columns|
      invariant pos == Offset(i, domainSize)
      invariant |results| == i
      invariant forall k | 0 <= k < i :: results[k] == ChunkAt(values, domainSize, k)
    {
      OffsetMonotone(i + 1, |columns|, domainSize);
      results := results + [values[pos..pos + domainSize]];
      i, pos := i + 1, pos + domainSize;
    }
    ok := true;
  }

  /** The columns at the given indices, in index order. */
  function Select(columns: seq<seq<Rational>>, indices: seq<nat>): (r: seq<seq<Rational>>)
    requires forall k | 0 <= k < |indices| :: indices[k] < |columns|
    ensures |r| == |indices| && forall k | 0 <= k < |indices| :: r[k] == columns[indices[k]]
  {
    seq(|indices|, k requires 0 <= k < |indices| => columns[indices[k]])
  }

  /** Each selected column evaluated on its own, in selection order; None
      when any of them fails. */
  function SelectedEvals(indices: seq<nat>, columns: seq<seq<Rational>>, eval: (Rational, Fr) -> Option<Fr>)
    : (r: Option<seq<seq<Fr>>>)
    requires forall k | 0 <= k < |indices| :: indices[k] < |columns|
    ensures r.Some? <==> forall k | 0 <= k < |indices| :: EvaluateBatch(columns[indices[k]], 1, eval).Some?
    ensures r.Some? ==> |r.value| == |indices|
    ensures r.Some? ==>
      forall k | 0 <= k < |indices| :: r.value[k] == EvaluateBatch(columns[indices[k]], 1, eval).value
    decreases |indices|
  {
    if indices == [] then Some([])
    else
      var n := |indices| - 1;
      var init := SelectedEvals(indices[..n], columns, eval);
      var last := EvaluateBatch(columns[indices[n]], 1, eval);
      assert forall k | 0 <= k < n :: indices[..n][k] == indices[k];
      if init.Some? && last.Some? then Some(init.value + [last.value]) else None
  }

  /** `SelectiveBatchEvaluate`: batch-evaluates the selected columns. On
      success result k is column `indices[k]` evaluated on its own. */
  method SelectiveBatchEvaluate(indices: seq<nat>, columns: seq<seq<Rational>>, domainSize: nat,
                                eval: (Rational, Fr) -> Option<Fr>, prior: seq<seq<Fr>>)
    returns (ok: bool, results: seq<seq<Fr>>)
    requires forall k | 0 <= k < |indices| :: indices[k] < |columns|
    requires AllOfSize(columns, domainSize)
    ensures ok <==> forall k | 0 <= k < |indices| :: EvaluateBatch(columns[indices[k]], 1, eval).Some?
    ensures !ok ==> results == prior
    ensures ok ==> |results| == |indices|
    ensures ok ==> forall k | 0 <= k < |indices| :: results[k] == EvaluateBatch(columns[indices[k]], 1, eval).value
    ensures ok ==> SelectedEvals(indices, columns, eval) == Some(results)
  {
    var selected: seq<seq<Rational>> := [];
    var i := 0;
    while i < |indices|
      invariant 0 <= i <= |indices|
      invariant |selected| == i
      invariant forall k | 0 <= k < i :: selected[k] == columns[indices[k]]
    {
      selected := selected + [columns[indices[i]]];
      i := i + 1;
    }
    assert selected == Select(columns, indices);
    assert AllOfSize(selected, domainSize);
    ok, results := BatchEvaluate(selected, domainSize, eval, prior);
    BatchIsPerColumn(selected, domainSize, 1, eval);
    if ok {
      assert SelectedEvals(indices, columns, eval).value == results;
    }
  }

  /** The evaluated column with its last row (`kMaxDegree`) set to one. */
  function WithLastRowOne(evals: seq<Fr>): (r: seq<Fr>)
    requires |evals| > 0
    ensures |r| == |evals| && r[|evals| - 1] == 1
    ensures forall t | 0 <= t < |evals| - 1 :: r[t] == evals[t]
  {
    evals[|evals| - 1 := 1]
  }

  /** The prover's commitment effects: each `CommitEvalsWithBlind` call, in
      order. The blinded polynomial it produces is the parameter `commit`. */
  class CommitLog {
    var committed: seq<seq<Fr>>

    constructor ()
      ensures committed == []
    {
      committed := [];
    }

    method CommitEvalsWithBlind<P>(evals: seq<Fr>, commit: seq<Fr> -> BlindedPolynomial<P>)
      returns (bp: BlindedPolynomial<P>)
      modifies this`committed
      ensures committed == old(committed) + [evals] && bp == commit(evals)
    {
      committed := committed + [evals];
      bp := commit(evals);
    }
  }

  /** The values `vs[0..n)` stored one after another at positions
      `idx[0..n)` of `base`. */
  function StoreFirst<T>(base: seq<T>, idx: seq<nat>, vs: seq<T>, n: nat): (r: seq<T>)
    requires n <= |idx| == |vs|
    requires forall k | 0 <= k < |idx| :: idx[k] < |base|
    ensures |r| == |base|
    decreases n
  {
    if n == 0 then base else StoreFirst(base, idx, vs, n - 1)[idx[n - 1] := vs[n - 1]]
  }

  /** With distinct positions, each stored value is found at its position
      and every other position keeps its old value. */
  lemma {:induction false} StoreFirstSpec<T>(base: seq<T>, idx: seq<nat>, vs: seq<T>, n: nat)
    requires n <= |idx| == |vs|
    requires forall k | 0 <= k < |idx| :: idx[k] < |base|
    requires forall k, l | 0 <= k < l < |idx| :: idx[k] < idx[l]
    ensures forall k | 0 <= k < n :: StoreFirst(base, idx, vs, n)[idx[k]] == vs[k]
    ensures forall c | 0 <= c < |base| && c !in idx[..n] :: StoreFirst(base, idx, vs, n)[c] == base[c]
    decreases n
  {
    if n > 0 {
      StoreFirstSpec(base, idx, vs, n - 1);
      assert idx[..n] == idx[..n - 1] + [idx[n - 1]];
    }
  }

  /** Each column with its last row set to one. */
  function MarkAll(evalsVec: seq<seq<Fr>>): (r: seq<seq<Fr>>)
    requires forall k | 0 <= k < |evalsVec| :: |evalsVec[k]| > 0
    ensures |r| == |evalsVec| && forall k | 0 <= k < |evalsVec| :: r[k] == WithLastRowOne(evalsVec[k])
  {
    seq(|evalsVec|, k requires 0 <= k < |evalsVec| => WithLastRowOne(evalsVec[k]))
  }

  /** The blinded polynomial committed for each column. */
  function Commits<P>(commit: seq<Fr> -> BlindedPolynomial<P>, marked: seq<seq<Fr>>): (r: seq<BlindedPolynomial<P>>)
    ensures |r| == |marked| && forall k | 0 <= k < |marked| :: r[k] == commit(marked[k])
  {
    seq(|marked|, k requires 0 <= k < |marked| => commit(marked[k]))
  }

  function PolyParts<P>(bps: seq<BlindedPolynomial<P>>): (r: seq<P>)
    ensures |r| == |bps| && forall k | 0 <= k < |bps| :: r[k] == bps[k].poly
  {
    seq(|bps|, k requires 0 <= k < |bps| => bps[k].poly)
  }

  function BlindParts<P>(bps: seq<BlindedPolynomial<P>>): (r: seq<Fr>)
    ensures |r| == |bps| && forall k | 0 <= k < |bps| :: r[k] == bps[k].blind
  {
    seq(|bps|, k requires 0 <= k < |bps| => bps[k].blind)
  }

  class AdviceFactory<P> {
    var adviceSingles: seq<AdviceSingle<P>>

    /** The advice part of `DoStep`: every advice column of the current phase
        is evaluated, its last row is set to one, it is committed, and it is
        stored under its own column index in the circuit's `AdviceSingle`. A
        failed batch evaluation (whose result `DoStep` ignores) commits
        nothing. */
    method DoStepAdvice(prover: CommitLog, commit: seq<Fr> -> BlindedPolynomial<P>, circuitIdx: nat,
                        currentPhase: nat, advices: seq<seq<Rational>>, advicePhases: seq<nat>,
                        domainSize: nat, eval: (Rational, Fr) -> Option<Fr>)
      requires circuitIdx < |adviceSingles|
      requires 0 < domainSize && AllOfSize(advices, domainSize) && |advicePhases| <= |advices|
      requires adviceSingles[circuitIdx].Valid()
      requires SelectedEvals(PhaseIndices(advicePhases, currentPhase), advices, eval).Some? ==>
        forall i | 0 <= i < |advicePhases| && advicePhases[i] == currentPhase ::
          i < |adviceSingles[circuitIdx].polys| && i !in adviceSingles[circuitIdx].assignedColumns
      modifies prover, adviceSingles[circuitIdx]
      ensures adviceSingles[circuitIdx].Valid()
      ensures |adviceSingles[circuitIdx].polys| == |old(adviceSingles[circuitIdx].polys)|
      ensures var single := adviceSingles[circuitIdx];
        SelectedEvals(PhaseIndices(advicePhases, currentPhase), advices, eval).None? ==>
          && single.polys == old(single.polys) && single.blinds == old(single.blinds)
          && single.assignedColumns == old(single.assignedColumns)
          && prover.committed == old(prover.committed)
      ensures var selected := PhaseIndices(advicePhases, currentPhase);
        var evals := SelectedEvals(selected, advices, eval);
        evals.Some? ==>
          && |prover.committed| == |old(prover.committed)| + |selected|
          && forall k | 0 <= k < |selected| ::
               prover.committed[|old(prover.committed)| + k] == WithLastRowOne(evals.value[k])
      ensures var single := adviceSingles[circuitIdx];
        var selected := PhaseIndices(advicePhases, currentPhase);
        SelectedEvals(selected, advices, eval).Some? ==>
          single.assignedColumns == old(single.assignedColumns) + (set k | 0 <= k < |selected| :: selected[k])
      ensures var single := adviceSingles[circuitIdx];
        var selected := PhaseIndices(advicePhases, currentPhase);
        var evals := SelectedEvals(selected, advices, eval);
        evals.Some? ==>
          forall k | 0 <= k < |selected| ::
            var bp := commit(WithLastRowOne(evals.value[k]));
            single.polys[selected[k]] == bp.poly && single.blinds[selected[k]] == bp.blind
      ensures var single := adviceSingles[circuitIdx];
        var selected := PhaseIndices(advicePhases, currentPhase);
        SelectedEvals(selected, advices, eval).Some? ==>
          forall c | 0 <= c < |single.polys| && c !in selected ::
            single.polys[c] == old(single.polys)[c] && single.blinds[c] == old(single.blinds)[c]
    {
      var single := adviceSingles[circuitIdx];
      var selected := ParseIndices(currentPhase, advicePhases);
      var ok, evalsVec := SelectiveBatchEvaluate(selected, advices, domainSize, eval, []);
      if ok {
        CommitAndStore(prover, single, commit, selected, evalsVec, domainSize);
      }
    }
  }

  /** The commit-and-store loop of `DoStep`, stated column by column: table
      k is committed k-th with its last row set to one, and stored in column
      `selected[k]`; every other column is left as it was. */
  method CommitAndStore<P>(prover: CommitLog, single: AdviceSingle<P>, commit: seq<Fr> -> BlindedPolynomial<P>,
                           selected: seq<nat>, evalsVec: seq<seq<Fr>>, domainSize: nat)
    requires single.Valid() && |evalsVec| == |selected|
    requires forall k | 0 <= k < |evalsVec| :: |evalsVec[k]| == domainSize > 0
    requires forall k | 0 <= k < |selected| :: selected[k] < |single.polys| && selected[k] !in single.assignedColumns
    requires forall k, l | 0 <= k < l < |selected| :: selected[k] < selected[l]
    modifies prover, single
    ensures single.Valid() && |single.polys| == |old(single.polys)|
    ensures |prover.committed| == |old(prover.committed)| + |selected|
    ensures forall k | 0 <= k < |selected| ::
      prover.committed[|old(prover.committed)| + k] == WithLastRowOne(evalsVec[k])
    ensures single.assignedColumns == old(single.assignedColumns) + (set k | 0 <= k < |selected| :: selected[k])
    ensures forall k | 0 <= k < |selected| ::
      single.polys[selected[k]] == commit(WithLastRowOne(evalsVec[k])).poly
      && single.blinds[selected[k]] == commit(WithLastRowOne(evalsVec[k])).blind
    ensures forall c | 0 <= c < |single.polys| && c !in selected ::
      single.polys[c] == old(single.polys)[c] && single.blinds[c] == old(single.blinds)[c]
  {
    ghost var marked := MarkAll(evalsVec);
    ghost var bps := Commits(commit, marked);
    ghost var polys, blinds := PolyParts(bps), BlindParts(bps);
    CommitSelected(prover, single, commit, selected, evalsVec, domainSize);
    assert selected[..|selected|] == selected;
    StoreFirstSpec(old(single.polys), selected, polys, |selected|);
    StoreFirstSpec(old(single.blinds), selected, blinds, |selected|);
  }

  /** The commit-and-store loop of `DoStep`. */
  method CommitSelected<P>(prover: CommitLog, single: AdviceSingle<P>, commit: seq<Fr> -> BlindedPolynomial<P>,
                           selected: seq<nat>, evalsVec: seq<seq<Fr>>, domainSize: nat)
    requires single.Valid() && |evalsVec| == |selected|
    requires forall k | 0 <= k < |evalsVec| :: |evalsVec[k]| == domainSize > 0
    requires forall k | 0 <= k < |selected| :: selected[k] < |single.polys| && selected[k] !in single.assignedColumns
    requires forall k, l | 0 <= k < l < |selected| :: selected[k] < selected[l]
    modifies prover, single
    ensures single.Valid()
    ensures prover.committed == old(prover.committed) + MarkAll(evalsVec)
    ensures var bps := Commits(commit, MarkAll(evalsVec));
      && single.polys == StoreFirst(old(single.polys), selected, PolyParts(bps), |selected|)
      && single.blinds == StoreFirst(old(single.blinds), selected, BlindParts(bps), |selected|)
    ensures single.assignedColumns == old(single.assignedColumns) + (set k | 0 <= k < |selected| :: selected[k])
  {
    ghost var marked := MarkAll(evalsVec);
    ghost var bps := Commits(commit, marked);
    ghost var polys, blinds := PolyParts(bps), BlindParts(bps);
    var i := 0;
    while i < |evalsVec|
      invariant 0 <= i <= |evalsVec|
      invariant single.Valid() && |single.polys| == |old(single.polys)|
      invariant forall k | i <= k < |selected| :: selected[k] !in single.assignedColumns
      invariant prover.committed == old(prover.committed) + marked[..i]
      invariant single.polys == StoreFirst(old(single.polys), selected, polys, i)
      invariant single.blinds == StoreFirst(old(single.blinds), selected, blinds, i)
      invariant single.assignedColumns == old(single.assignedColumns) + (set k | 0 <= k < i :: selected[k])
    {
      CommitOne(prover, single, commit, selected[i], evalsVec[i]);
      assert marked[i] == WithLastRowOne(evalsVec[i]);
      AppendAssoc(old(prover.committed), marked[..i], [marked[i]]);
      TakeSnoc(marked, i);
      SelectedSetSnoc(selected, i);
      i := i + 1;
    }
    assert marked[..i] == marked;
  }

  /** One step of the loop: commit one evaluation table with its last row set
      to one, and store it in its column. */
  method CommitOne<P>(prover: CommitLog, single: AdviceSingle<P>, commit: seq<Fr> -> BlindedPolynomial<P>,
                      effectiveIdx: nat, evals: seq<Fr>)
    requires single.Valid() && |evals| > 0
    requires effectiveIdx < |single.polys| && effectiveIdx !in single.assignedColumns
    modifies prover, single
    ensures single.Valid()
    ensures prover.committed == old(prover.committed) + [WithLastRowOne(evals)]
    ensures single.polys == old(single.polys)[effectiveIdx := commit(WithLastRowOne(evals)).poly]
    ensures single.blinds == old(single.blinds)[effectiveIdx := commit(WithLastRowOne(evals)).blind]
    ensures single.assignedColumns == old(single.assignedColumns) + {effectiveIdx}
  {
    var marked := evals[|evals| - 1 := 1];
    var bp := prover.CommitEvalsWithBlind(marked, commit);
    single.SetBlindedPolynomial(effectiveIdx, bp);
  }

  lemma SelectedSetSnoc(selected: seq<nat>, i: nat)
    requires i < |selected|
    ensures (set k | 0 <= k < i + 1 :: selected[k]) == (set k | 0 <= k < i :: selected[k]) + {selected[i]}
  {
  }
}
