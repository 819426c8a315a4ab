/** `WitnessCollection`: the proving backend of circuit synthesis. It keeps one
    table of rational advice values per advice column, answers instance and
    challenge queries, and ignores everything that only matters to key
    generation (selectors, fixed cells, copies, regions, namespaces). */
module WitnessCollectionModule {
  import opened Common

  /** The smallest power of two that is at least n (1 for n = 0), as
      `absl::bit_ceil`. */
  function BitCeil(n: nat): (r: nat)
    ensures IsPow2(r) && n <= r
    ensures r == 1 || r / 2 < n
  {
    BitCeilFrom(n, 1)
  }

  predicate IsPow2(r: nat)
    decreases r
  {
    r == 1 || (r > 1 && r % 2 == 0 && IsPow2(r / 2))
  }

  function BitCeilFrom(n: nat, p: nat): (r: nat)
    requires IsPow2(p)
    requires p == 1 || p / 2 < n
    ensures IsPow2(r) && n <= r
    ensures r == 1 || r / 2 < n
    decreases n - p
  {
    if n <= p then p else BitCeilFrom(n, 2 * p)
  }

  /** The challenge lookup as written: an index at or beyond the number of
      stored challenges is Unknown; any other index is looked up with
      `operator[]`, which inserts a zero when the key is absent. Returns the
      value and the map afterwards. */
  function GetChallengeAsWritten(challenges: map<nat, Fr>, idx: nat): (r: (Value<Fr>, map<nat, Fr>))
    ensures idx >= |challenges| ==> r == (Unknown, challenges)
    ensures idx < |challenges| && idx in challenges ==> r == (Known(challenges[idx]), challenges)
    ensures idx < |challenges| && idx !in challenges ==> r == (Known(0), challenges[idx := 0])
  {
    if idx >= |challenges| then (Unknown, challenges)
    else if idx in challenges then (Known(challenges[idx]), challenges)
    else (Known(0), challenges[idx := 0])
  }

  /** The evidently intended lookup: Known exactly when a challenge is stored
      under the index, and then its value. */
  function GetChallengeIntended(challenges: map<nat, Fr>, idx: nat): (r: Value<Fr>)
    ensures r.Known? <==> idx in challenges
    ensures r.Known? ==> r.value == challenges[idx]
  {
    if idx in challenges then Known(challenges[idx]) else Unknown
  }

  /** Challenges stored under exactly the keys 0 .. n-1. */
  ghost predicate DenseKeys(challenges: map<nat, Fr>) {
    forall i: nat :: i in challenges <==> i < |challenges|
  }

  /** With dense keys the written lookup is the intended one and leaves the
      map unchanged. */
  lemma GetChallengeDenseAgrees(challenges: map<nat, Fr>, idx: nat)
    requires DenseKeys(challenges)
    ensures GetChallengeAsWritten(challenges, idx) == (GetChallengeIntended(challenges, idx), challenges)
  {
    assert idx in challenges <==> idx < |challenges|;
  }

  /** A challenge map {1: c} (slot 1 squeezed in an earlier phase than slot 0):
      the written lookup reports index 1 as Unknown although it is stored, and
      reports index 0 as Known(0), inserting a zero, although it is not. */
  lemma GetChallengeSparseCounterexample(c: Fr)
    ensures GetChallengeAsWritten(map[1 := c], 1).0 == Unknown
    ensures GetChallengeIntended(map[1 := c], 1) == Known(c)
    ensures GetChallengeAsWritten(map[1 := c], 0) == (Known(0), map[1 := c, 0 := 0])
    ensures GetChallengeIntended(map[1 := c], 0) == Unknown
  {
    var m := map[1 := c];
    assert m.Keys == {1};
    assert |m| == 1;
  }

  class WitnessCollection {
    /** `kMaxDegree`; every table has `kMaxDegree + 1` (`kDomainSize`) rows. */
    const maxDegree: nat
    const k: nat
    var advices: seq<seq<Rational>>
    const usableRows: Range
    const currentPhase: nat
    /** The challenge map shared through `Ref`; `GetChallenge` may insert. */
    var challenges: map<nat, Fr>
    const instances: seq<seq<Fr>>
    /** How many assignment callbacks have been run. */
    ghost var callbackRuns: nat

    ghost predicate Valid()
      reads this
    {
      forall c | 0 <= c < |advices| :: |advices[c]| == maxDegree + 1
    }

    /** Every advice column starts as `kMaxDegree + 1` rational zeros; the
        usable rows are [0, unusableRowStart). */
    constructor (maxDegree: nat, k: nat, numAdviceColumns: nat, unusableRowStart: nat,
                 currentPhase: nat, challenges: map<nat, Fr>, instances: seq<seq<Fr>>)
      ensures Valid()
      ensures this.maxDegree == maxDegree && this.k == k
      ensures |advices| == numAdviceColumns
      ensures forall c, r | 0 <= c < numAdviceColumns && 0 <= r <= maxDegree :: advices[c][r] == RationalZero
      ensures usableRows == Until(unusableRowStart)
      ensures this.currentPhase == currentPhase && this.challenges == challenges
      ensures this.instances == instances && callbackRuns == 0
    {
      this.maxDegree := maxDegree;
      this.k := k;
      advices := seq(numAdviceColumns, _ => seq(maxDegree + 1, _ => RationalZero));
      usableRows := Until(unusableRowStart);
      this.currentPhase := currentPhase;
      this.challenges := challenges;
      this.instances := instances;
      callbackRuns := 0;
    }

    /** `Synthesized`: k is the power of two covering the domain and the
        usable rows stop `blindingFactors` rows short of `kMaxDegree`, on
        wrapping `size_t` arithmetic. Circuit synthesis itself is not part of
        this model. */
    static method Synthesized(maxDegree: nat, blindingFactors: nat, numAdviceColumns: nat,
                              currentPhase: nat, challenges: map<nat, Fr>, instances: seq<seq<Fr>>)
      returns (w: WitnessCollection)
      requires maxDegree < SizeModulus && blindingFactors < SizeModulus
      ensures fresh(w) && w.Valid()
      ensures w.maxDegree == maxDegree && w.k == BitCeil(maxDegree + 1)
      ensures |w.advices| == numAdviceColumns
      ensures w.usableRows == Until(SizeSub(maxDegree, blindingFactors))
      ensures w.currentPhase == currentPhase && w.challenges == challenges && w.instances == instances
    {
      var k := BitCeil(maxDegree + 1);
      var unusableRowsStart := SizeSub(maxDegree, blindingFactors);
      w := new WitnessCollection(maxDegree, k, numAdviceColumns, unusableRowsStart,
                                 currentPhase, challenges, instances);
    }

    /** Regions and column names do not matter when collecting witnesses. */
    method EnterRegion(name: string) {
    }

    method NameColumn(name: string, column: nat) {
    }

    method ExitRegion() {
    }

    method PushNamespace(name: string) {
    }

    method PopNamespace(gadgetName: Option<string>) {
    }

    /** Only advice columns matter here: these succeed and change nothing. */
    method EnableSelector(name: string, selector: nat, row: nat) returns (err: Error)
      ensures err == NoError
    {
      err := NoError;
    }

    method AssignFixed(name: string, column: nat, row: nat, value: Fr) returns (err: Error)
      ensures err == NoError
    {
      err := NoError;
    }

    method Copy(leftColumn: nat, leftRow: nat, rightColumn: nat, rightRow: nat) returns (err: Error)
      ensures err == NoError
    {
      err := NoError;
    }

    method FillFromRow(column: nat, fromRow: nat, value: Fr) returns (err: Error)
      ensures err == NoError
    {
      err := NoError;
    }

    /** Checks the row, then the column; on success the out-parameter becomes
        the known instance value, otherwise it keeps its prior value. */
    method QueryInstance(column: nat, row: nat, prior: Value<Fr>) returns (err: Error, instance: Value<Fr>)
      requires usableRows.Contains(row) && column < |instances| ==> row < |instances[column]|
      ensures !usableRows.Contains(row) ==> err == NotEnoughRowsAvailable && instance == prior
      ensures usableRows.Contains(row) && column >= |instances| ==> err == BoundsFailure && instance == prior
      ensures usableRows.Contains(row) && column < |instances| ==>
        err == NoError && instance == Known(instances[column][row])
    {
      if !usableRows.Contains(row) {
        return NotEnoughRowsAvailable, prior;
      }
      if column >= |instances| {
        return BoundsFailure, prior;
      }
      err, instance := NoError, Known(instances[column][row]);
    }

    /** The phase gate comes first: an advice column of a later phase is
        ignored without running the callback. Then the row, then the column;
        on success exactly the one cell receives the callback's value. */
    method AssignAdvice(name: string, column: AdviceColumn, row: nat, assign: Rational) returns (err: Error)
      requires Valid()
      requires usableRows.Contains(row) ==> row <= maxDegree
      modifies this`advices, this`callbackRuns
      ensures Valid()
      ensures currentPhase < column.phase ==>
        err == NoError && advices == old(advices) && callbackRuns == old(callbackRuns)
      ensures currentPhase >= column.phase && !usableRows.Contains(row) ==>
        err == NotEnoughRowsAvailable && advices == old(advices) && callbackRuns == old(callbackRuns)
      ensures currentPhase >= column.phase && usableRows.Contains(row) && column.index >= |old(advices)| ==>
        err == BoundsFailure && advices == old(advices) && callbackRuns == old(callbackRuns)
      ensures currentPhase >= column.phase && usableRows.Contains(row) && column.index < |old(advices)| ==>
        && err == NoError
        && advices == old(advices)[column.index := old(advices)[column.index][row := assign]]
        && callbackRuns == old(callbackRuns) + 1
    {
      if currentPhase < column.phase {
        return NoError;
      }
      if !usableRows.Contains(row) {
        return NotEnoughRowsAvailable;
      }
      if column.index >= |advices| {
        return BoundsFailure;
      }
      callbackRuns := callbackRuns + 1;
      advices := advices[column.index := advices[column.index][row := assign]];
      err := NoError;
    }

    /** The challenge query as written, including the insertion that
        `operator[]` performs on a missing key. */
    method GetChallenge(idx: nat) returns (v: Value<Fr>)
      modifies this`challenges
      ensures (v, challenges) == GetChallengeAsWritten(old(challenges), idx)
      ensures DenseKeys(old(challenges)) ==> v == GetChallengeIntended(old(challenges), idx) && challenges == old(challenges)
    {
      if idx >= |challenges| {
        if DenseKeys(challenges) {
          GetChallengeDenseAgrees(challenges, idx);
        }
        return Unknown;
      }
      if idx !in challenges {
        challenges := challenges[idx := 0];
      }
      v := Known(challenges[idx]);
      if DenseKeys(old(challenges)) {
        GetChallengeDenseAgrees(old(challenges), idx);
      }
    }
  }
}
