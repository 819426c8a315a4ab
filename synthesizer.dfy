/** `Synthesizer`: runs circuit synthesis phase by phase, commits each
    circuit's advice columns of the phase, stores them with their blinds, and
    after every circuit has been processed for a phase squeezes that phase's
    challenges into an insert-only map keyed by challenge slot.

    Synthesis of one circuit (`GenerateRationalAdvices`, the batch evaluation
    and the last-row blinding of a column) is the parameter `synthesize`; the
    blinder is `blind`; committing a column into the transcript is `absorb`
    and `SqueezeChallenge` is `squeeze`, over an abstract transcript state. */
module SynthesizerModule {
  import opened Common
  import opened AdviceFactoryModule

  /** The collaborators of `GenerateAdviceColumns`. `synthesize(p, i, m, j)`
      is column j of circuit i as synthesized in phase p with challenge map
      m, already evaluated and with its last row set to one. */
  datatype SynthHooks<!S, !E> = SynthHooks(
    synthesize: (nat, nat, map<nat, Fr>, nat) -> E,
    blind: (nat, nat) -> Fr,
    absorb: (S, E) -> S,
    squeeze: S -> (Fr, S))

  /** The constraint system's shape as the synthesizer sees it. */
  datatype Layout = Layout(numCircuits: nat, advicePhases: seq<nat>, challengePhases: seq<nat>)

  /** The first n challenges squeezed from `state`, in order, and the state
      after them. */
  function Squeezes<S>(squeeze: S -> (Fr, S), state: S, n: nat): (r: (seq<Fr>, S))
    ensures |r.0| == n
  {
    if n == 0 then ([], state)
    else
      var prev := Squeezes(squeeze, state, n - 1);
      var (v, next) := squeeze(prev.1);
      (prev.0 + [v], next)
  }

  /** The members of a list, as a set. */
  function Elements(xs: seq<nat>): set<nat> {
    set k | 0 <= k < |xs| :: xs[k]
  }

  lemma ElementsSnoc(xs: seq<nat>)
    requires xs != []
    ensures Elements(xs) == Elements(xs[..|xs| - 1]) + {xs[|xs| - 1]}
  {
    var n := |xs| - 1;
    forall x | x in Elements(xs) ensures x in Elements(xs[..n]) + {xs[n]} {
      var k :| 0 <= k < |xs| && xs[k] == x;
      if k < n {
        assert xs[..n][k] == x;
      }
    }
    forall x | x in Elements(xs[..n]) ensures x in Elements(xs) {
      var k :| 0 <= k < n && xs[..n][k] == x;
      assert xs[k] == x;
    }
  }

  /** `keys[k] := vs[k]` inserted one after another. */
  function InsertAll(m: map<nat, Fr>, keys: seq<nat>, vs: seq<Fr>): map<nat, Fr>
    requires |keys| == |vs|
    decreases |keys|
  {
    if keys == [] then m
    else InsertAll(m, keys[..|keys| - 1], vs[..|keys| - 1])[keys[|keys| - 1] := vs[|keys| - 1]]
  }

  lemma SqueezesSnoc<S>(squeeze: S -> (Fr, S), state: S, n: nat)
    ensures var prev := Squeezes(squeeze, state, n);
      Squeezes(squeeze, state, n + 1) == (prev.0 + [squeeze(prev.1).0], squeeze(prev.1).1)
  {
  }

  lemma InsertAllSnoc(m: map<nat, Fr>, keys: seq<nat>, vs: seq<Fr>, k: nat, v: Fr)
    requires |keys| == |vs|
    ensures InsertAll(m, keys + [k], vs + [v]) == InsertAll(m, keys, vs)[k := v]
  {
    assert (keys + [k])[..|keys|] == keys;
    assert (vs + [v])[..|vs|] == vs;
  }

  lemma PhaseIndicesSnoc(phases: seq<nat>, i: nat, phase: nat)
    requires i < |phases|
    ensures PhaseIndices(phases[..i + 1], phase)
         == PhaseIndices(phases[..i], phase) + (if phases[i] == phase then [i] else [])
  {
    assert phases[..i + 1][..i] == phases[..i];
  }

  /** Inserting fresh, distinct keys: the map gains exactly those keys, each
      with its own value, and keeps every entry it had. */
  lemma {:induction false} InsertAllSpec(m: map<nat, Fr>, keys: seq<nat>, vs: seq<Fr>)
    requires |keys| == |vs|
    requires forall k | 0 <= k < |keys| :: keys[k] !in m
    requires forall k, l | 0 <= k < l < |keys| :: keys[k] != keys[l]
    ensures InsertAll(m, keys, vs).Keys == m.Keys + Elements(keys)
    ensures forall k | 0 <= k < |keys| :: InsertAll(m, keys, vs)[keys[k]] == vs[k]
    ensures forall x | x in m :: InsertAll(m, keys, vs)[x] == m[x]
    decreases |keys|
  {
    if keys != [] {
      var n := |keys| - 1;
      var init, vinit := keys[..n], vs[..n];
      forall k | 0 <= k < n ensures init[k] == keys[k] && vinit[k] == vs[k] {
      }
      InsertAllSpec(m, init, vinit);
      ElementsSnoc(keys);
      InsertAllLast(m, keys, vs);
    }
  }

  /** The last key inserted is new: it is neither an old key nor one of the
      earlier keys. */
  lemma InsertAllLast(m: map<nat, Fr>, keys: seq<nat>, vs: seq<Fr>)
    requires |keys| == |vs| && keys != []
    requires forall k | 0 <= k < |keys| :: keys[k] !in m
    requires forall k, l | 0 <= k < l < |keys| :: keys[k] != keys[l]
    requires InsertAll(m, keys[..|keys| - 1], vs[..|keys| - 1]).Keys == m.Keys + Elements(keys[..|keys| - 1])
    ensures keys[|keys| - 1] !in InsertAll(m, keys[..|keys| - 1], vs[..|keys| - 1])
  {
  }

  function Synth<S, E>(h: SynthHooks<S, E>, p: nat, i: nat, m: map<nat, Fr>, j: nat): E {
    h.synthesize(p, i, m, j)
  }

  function BlindOf<S, E>(h: SynthHooks<S, E>, i: nat, j: nat): Fr {
    h.blind(i, j)
  }

  function AbsorbOne<S, E>(h: SynthHooks<S, E>, s: S, e: E): S {
    h.absorb(s, e)
  }

  /** The columns of circuit i committed in phase p, in column order. */
  function CircuitCommits<S, E>(h: SynthHooks<S, E>, advicePhases: seq<nat>, p: nat, i: nat, m: map<nat, Fr>): seq<E>
  {
    if advicePhases == [] then []
    else
      var n := |advicePhases| - 1;
      CircuitCommits(h, advicePhases[..n], p, i, m) + (if advicePhases[n] == p then [Synth(h, p, i, m, n)] else [])
  }

  /** The columns committed in phase p by circuits 0 .. n-1, circuit after
      circuit. */
  function PhaseCommits<S, E>(h: SynthHooks<S, E>, L: Layout, p: nat, m: map<nat, Fr>, n: nat): seq<E> {
    if n == 0 then [] else PhaseCommits(h, L, p, m, n - 1) + CircuitCommits(h, L.advicePhases, p, n - 1, m)
  }

  /** The transcript after absorbing the columns in order. */
  function AbsorbAll<S, E>(absorb: (S, E) -> S, s: S, es: seq<E>): S
    decreases |es|
  {
    if es == [] then s else absorb(AbsorbAll(absorb, s, es[..|es| - 1]), es[|es| - 1])
  }

  lemma {:induction false} AbsorbAllConcat<S, E>(absorb: (S, E) -> S, s: S, a: seq<E>, b: seq<E>)
    ensures AbsorbAll(absorb, s, a + b) == AbsorbAll(absorb, AbsorbAll(absorb, s, a), b)
    decreases |b|
  {
    if b != [] {
      var n := |b| - 1;
      assert (a + b)[..|a + b| - 1] == a + b[..n];
      assert (a + b)[|a + b| - 1] == b[n];
      AbsorbAllConcat(absorb, s, a, b[..n]);
      assert AbsorbAll(absorb, s, a + b) == absorb(AbsorbAll(absorb, s, a + b[..n]), b[n]);
    } else {
      assert a + b == a;
    }
  }

  /** One phase: every circuit's columns of the phase are committed with the
      challenge map as it was at the start of the phase; then the phase's
      challenge slots are squeezed, in ascending slot order. */
  function PhaseStep<S, E>(h: SynthHooks<S, E>, L: Layout, p: nat, m: map<nat, Fr>, s: S): (map<nat, Fr>, S) {
    var committed := AbsorbAll(h.absorb, s, PhaseCommits(h, L, p, m, L.numCircuits));
    var slots := PhaseIndices(L.challengePhases, p);
    var sq := Squeezes(h.squeeze, committed, |slots|);
    (InsertAll(m, slots, sq.0), sq.1)
  }

  /** The challenge map and transcript after the given phases, in order. */
  function RunPhases<S, E>(h: SynthHooks<S, E>, L: Layout, phases: seq<nat>, m: map<nat, Fr>, s: S): (map<nat, Fr>, S)
    decreases |phases|
  {
    if phases == [] then (m, s)
    else
      var prev := RunPhases(h, L, phases[..|phases| - 1], m, s);
      PhaseStep(h, L, phases[|phases| - 1], prev.0, prev.1)
  }

  /** The challenge slots that belong to one of the given phases. */
  function SlotsOf(challengePhases: seq<nat>, phases: seq<nat>): set<nat> {
    set i | 0 <= i < |challengePhases| && challengePhases[i] in phases
  }

  predicate Distinct(xs: seq<nat>) {
    forall t, u | 0 <= t < u < |xs| :: xs[t] != xs[u]
  }

  /** The slots of a run of phases are those of the run without its last
      phase together with the last phase's own slots. */
  lemma SlotsOfSnoc(challengePhases: seq<nat>, phases: seq<nat>)
    requires phases != []
    ensures SlotsOf(challengePhases, phases)
         == SlotsOf(challengePhases, phases[..|phases| - 1]) + Elements(PhaseIndices(challengePhases, phases[|phases| - 1]))
  {
    var n := |phases| - 1;
    forall i | i in SlotsOf(challengePhases, phases)
      ensures i in SlotsOf(challengePhases, phases[..n]) || i in Elements(PhaseIndices(challengePhases, phases[n]))
    {
      var t :| 0 <= t < |phases| && phases[t] == challengePhases[i];
      if t < n {
        assert phases[..n][t] == phases[t];
      } else {
        var slots := PhaseIndices(challengePhases, phases[n]);
        PhaseIndicesCovers(challengePhases, phases[n]);
        var k :| 0 <= k < |slots| && slots[k] == i;
      }
    }
    forall i | i in SlotsOf(challengePhases, phases[..n])
      ensures i in SlotsOf(challengePhases, phases)
    {
      var t :| 0 <= t < n && phases[..n][t] == challengePhases[i];
      assert phases[t] == phases[..n][t];
    }
  }

  /** With distinct phases, the last phase's slots are not slots of the
      phases before it. */
  lemma SlotsOfLastFresh(challengePhases: seq<nat>, phases: seq<nat>)
    requires phases != [] && Distinct(phases)
    ensures var last := PhaseIndices(challengePhases, phases[|phases| - 1]);
      forall k | 0 <= k < |last| :: last[k] !in SlotsOf(challengePhases, phases[..|phases| - 1])
  {
  }

  /** The challenge map grows only: after the phases it holds the entries it
      had, unchanged, and exactly the slots of those phases in addition. */
  lemma {:induction false} RunPhasesKeys<S, E>(h: SynthHooks<S, E>, L: Layout, phases: seq<nat>, m: map<nat, Fr>, s: S)
    requires Distinct(phases)
    requires forall i | i in SlotsOf(L.challengePhases, phases) :: i !in m
    ensures RunPhases(h, L, phases, m, s).0.Keys == m.Keys + SlotsOf(L.challengePhases, phases)
    ensures forall x | x in m :: RunPhases(h, L, phases, m, s).0[x] == m[x]
    decreases |phases|
  {
    if phases != [] {
      var n := |phases| - 1;
      var init := phases[..n];
      SlotsOfSnoc(L.challengePhases, phases);
      SlotsOfLastFresh(L.challengePhases, phases);
      assert Distinct(init);
      RunPhasesKeys(h, L, init, m, s);
      var prev := RunPhases(h, L, init, m, s);
      var slots := PhaseIndices(L.challengePhases, phases[n]);
      var sq := Squeezes(h.squeeze, AbsorbAll(h.absorb, prev.1, PhaseCommits(h, L, phases[n], prev.0, L.numCircuits)), |slots|);
      assert RunPhases(h, L, phases, m, s).0 == InsertAll(prev.0, slots, sq.0);
      InsertAllSpec(prev.0, slots, sq.0);
    }
  }

  /** The synthesis of phase `phases[t]` sees exactly the challenges of the
      phases before it: none of its own phase or of a later one. */
  lemma PhaseSeesEarlierChallenges<S, E>(h: SynthHooks<S, E>, L: Layout, phases: seq<nat>, t: nat, s: S)
    requires Distinct(phases) && t < |phases|
    ensures RunPhases(h, L, phases[..t], map[], s).0.Keys == SlotsOf(L.challengePhases, phases[..t])
    ensures forall i | 0 <= i < |L.challengePhases| && L.challengePhases[i] == phases[t] ::
      i !in RunPhases(h, L, phases[..t], map[], s).0
  {
    assert Distinct(phases[..t]);
    RunPhasesKeys(h, L, phases[..t], map[], s);
  }

  /** When every challenge's phase is run, starting from no challenges, the
      keys end up dense: exactly the slots 0 .. n-1. */
  lemma AllPhasesDense<S, E>(h: SynthHooks<S, E>, L: Layout, phases: seq<nat>, s: S)
    requires Distinct(phases)
    requires forall i | 0 <= i < |L.challengePhases| :: L.challengePhases[i] in phases
    ensures forall x: nat :: x in RunPhases(h, L, phases, map[], s).0 <==> x < |L.challengePhases|
  {
    RunPhasesKeys(h, L, phases, map[], s);
  }

  /** Challenge slot 0 of phase 1 and slot 1 of phase 0: after phase 0 the
      map holds slot 1 only, so phase 1's synthesis sees non-dense keys. */
  lemma UnsortedSlotsAreSparse<S, E>(h: SynthHooks<S, E>, numCircuits: nat, advicePhases: seq<nat>, s: S)
    ensures var L := Layout(numCircuits, advicePhases, [1, 0]);
      RunPhases(h, L, [0, 1][..1], map[], s).0.Keys == {1}
  {
    var L := Layout(numCircuits, advicePhases, [1, 0]);
    assert Distinct([0, 1][..1]);
    RunPhasesKeys(h, L, [0, 1][..1], map[], s);
    assert [0, 1][..1] == [0];
    assert SlotsOf([1, 0], [0]) == {1} by {
      assert 1 in SlotsOf([1, 0], [0]);
      forall i | i in SlotsOf([1, 0], [0]) ensures i == 1 {
      }
    }
  }

  /** Where phase q occurs in the run, or |phases| when it does not. */
  function IndexOf(phases: seq<nat>, q: nat): (r: nat)
    ensures r <= |phases|
    ensures r < |phases| ==> phases[r] == q && forall u | 0 <= u < r :: phases[u] != q
    ensures r == |phases| ==> forall u | 0 <= u < |phases| :: phases[u] != q
    decreases |phases|
  {
    if phases == [] then 0
    else
      var n := |phases| - 1;
      var u := IndexOf(phases[..n], q);
      assert forall v | 0 <= v < n :: phases[..n][v] == phases[v];
      if u < n then u else if phases[n] == q then n else n + 1
  }

  /** The inner loop of `GenerateAdviceColumns` as written: it runs while
      `j < phases.size()` but increments the circuit index `i` instead of
      `j`, and indexes the challenge phases. `Storing` marks a step that
      reaches `SetAdviceColumn(i, j, ...)`, whose `CHECK_LT(i, num_circuits)`
      aborts once i passes the last circuit. Without fuel left the loop is
      still running. */
  datatype LoopOutcome = Finished(i: nat) | Aborted | StillRunning

  function InnerLoopAsWritten(challengePhases: seq<nat>, currentPhase: nat, numCircuits: nat,
                              i: nat, j: nat, fuel: nat): LoopOutcome
    decreases fuel
  {
    if fuel == 0 then StillRunning
    else if j >= |challengePhases| then Finished(i)
    else if currentPhase != challengePhases[j] then
      InnerLoopAsWritten(challengePhases, currentPhase, numCircuits, i + 1, j, fuel - 1)
    else if i >= numCircuits then Aborted
    else InnerLoopAsWritten(challengePhases, currentPhase, numCircuits, i + 1, j, fuel - 1)
  }

  /** With at least one challenge the loop as written never finishes, for
      any number of steps: it either keeps spinning or aborts. */
  lemma {:induction false} InnerLoopNeverFinishes(challengePhases: seq<nat>, currentPhase: nat, numCircuits: nat,
                                                  i: nat, fuel: nat)
    requires |challengePhases| > 0
    ensures !InnerLoopAsWritten(challengePhases, currentPhase, numCircuits, i, 0, fuel).Finished?
    decreases fuel
  {
    if fuel > 0 && (currentPhase != challengePhases[0] || i < numCircuits) {
      InnerLoopNeverFinishes(challengePhases, currentPhase, numCircuits, i + 1, fuel - 1);
    }
  }

  /** A single challenge of phase 0: running phase 0 with two circuits aborts
      in the third step, and running phase 1 never finishes. */
  lemma InnerLoopExample()
    ensures InnerLoopAsWritten([0], 0, 2, 0, 0, 3) == Aborted
    ensures InnerLoopAsWritten([0], 1, 2, 0, 0, 3) == StillRunning
  {
  }

  /** The ascending list of the keys of a set below n. */
  function KeysBelow(s: set<nat>, n: nat): (r: seq<nat>)
    ensures forall k | 0 <= k < |r| :: r[k] in s && r[k] < n
    ensures forall k, l | 0 <= k < l < |r| :: r[k] < r[l]
  {
    if n == 0 then [] else KeysBelow(s, n - 1) + (if n - 1 in s then [n - 1] else [])
  }

  /** Every key below n is listed. */
  lemma {:induction false} KeysBelowCovers(s: set<nat>, n: nat)
    ensures forall x | x in s && x < n :: x in KeysBelow(s, n)
  {
    if n > 0 {
      KeysBelowCovers(s, n - 1);
    }
  }

  /** A bound above every key. */
  ghost function KeyBound(s: set<nat>): (r: nat)
    ensures forall x | x in s :: x < r
  {
    if s == {} then 0
    else
      var x :| x in s;
      var b := KeyBound(s - {x});
      assert forall y | y in s && y != x :: y in s - {x};
      if x + 1 > b then x + 1 else b
  }

  /** The keys in ascending order, as a btree iterates them. */
  ghost function SortedKeys(s: set<nat>): (r: seq<nat>)
    ensures forall x :: x in r <==> x in s
    ensures forall k, l | 0 <= k < l < |r| :: r[k] < r[l]
  {
    KeysBelowCovers(s, KeyBound(s));
    KeysBelow(s, KeyBound(s))
  }

  /** Any two bounds above every key list the same keys. */
  lemma {:induction false} KeysBelowStable(s: set<nat>, a: nat, b: nat)
    requires forall x | x in s :: x < a && x < b
    ensures KeysBelow(s, a) == KeysBelow(s, b)
    decreases a + b
  {
    if a < b {
      KeysBelowStable(s, a, b - 1);
    } else if b < a {
      KeysBelowStable(s, a - 1, b);
    }
  }

  /** With keys 0 .. n-1 the keys below b are 0 .. min(b, n) - 1. */
  lemma {:induction false} KeysBelowDense(s: set<nat>, n: nat, b: nat)
    requires forall x: nat :: x in s <==> x < n
    ensures |KeysBelow(s, b)| == if b < n then b else n
    ensures forall k | 0 <= k < |KeysBelow(s, b)| :: KeysBelow(s, b)[k] == k
  {
    if b > 0 {
      KeysBelowDense(s, n, b - 1);
    }
  }

  lemma DenseSortedKeys(s: set<nat>, n: nat)
    requires forall x: nat :: x in s <==> x < n
    ensures |SortedKeys(s)| == n
    ensures forall k | 0 <= k < n :: SortedKeys(s)[k] == k
  {
    KeysBelowDense(s, n, KeyBound(s));
    if n > 0 {
      assert n - 1 in s;
    }
  }

  class Synthesizer<E> {
    const layout: Layout
    /** Per circuit, per advice column: the committed evaluations and the
        blind. */
    var adviceColumnsVec: seq<seq<E>>
    var adviceBlindsVec: seq<seq<Fr>>
    var challenges: map<nat, Fr>

    ghost predicate Valid()
      reads this
    {
      && |adviceColumnsVec| == layout.numCircuits == |adviceBlindsVec|
      && (forall c | 0 <= c < layout.numCircuits :: |adviceColumnsVec[c]| == |layout.advicePhases|)
      && (forall c | 0 <= c < layout.numCircuits :: |adviceBlindsVec[c]| == |layout.advicePhases|)
    }

    /** Every circuit starts with zero columns and zero blinds, one per advice
        column, and no challenges. */
    constructor (numCircuits: nat, advicePhases: seq<nat>, challengePhases: seq<nat>, zero: E)
      ensures Valid()
      ensures layout == Layout(numCircuits, advicePhases, challengePhases)
      ensures forall c, j | 0 <= c < numCircuits && 0 <= j < |advicePhases| ::
        adviceColumnsVec[c][j] == zero && adviceBlindsVec[c][j] == 0
      ensures challenges == map[]
    {
      layout := Layout(numCircuits, advicePhases, challengePhases);
      adviceColumnsVec := seq(numCircuits, _ => seq(|advicePhases|, _ => zero));
      adviceBlindsVec := seq(numCircuits, _ => seq(|advicePhases|, _ => 0));
      challenges := map[];
    }

    /** Stores one column and its blind; both indices must be in range. */
    method SetAdviceColumn(circuitIdx: nat, columnIdx: nat, column: E, blind: Fr)
      requires Valid()
      requires circuitIdx < layout.numCircuits && columnIdx < |layout.advicePhases|
      modifies this`adviceColumnsVec, this`adviceBlindsVec
      ensures Valid()
      ensures adviceColumnsVec == old(adviceColumnsVec)[circuitIdx := old(adviceColumnsVec)[circuitIdx][columnIdx := column]]
      ensures var row: seq<Fr> := old(adviceBlindsVec)[circuitIdx][columnIdx := blind];
        adviceBlindsVec == old(adviceBlindsVec)[circuitIdx := row]
    {
      adviceColumnsVec := adviceColumnsVec[circuitIdx := adviceColumnsVec[circuitIdx][columnIdx := column]];
      var row: seq<Fr> := adviceBlindsVec[circuitIdx][columnIdx := blind];
      adviceBlindsVec := adviceBlindsVec[circuitIdx := row];
    }

    /** Squeezes one challenge per slot of the phase, in ascending slot order,
        and inserts it under its slot; a slot already present is fatal. */
    method UpdateChallenges<S>(squeeze: S -> (Fr, S), phase: nat, state: S) returns (next: S)
      requires forall i | 0 <= i < |layout.challengePhases| && layout.challengePhases[i] == phase :: i !in challenges
      modifies this`challenges
      ensures var slots := PhaseIndices(layout.challengePhases, phase);
        var sq := Squeezes(squeeze, state, |slots|);
        challenges == InsertAll(old(challenges), slots, sq.0) && next == sq.1
    {
      var m;
      m, next := SqueezeInto(squeeze, layout.challengePhases, phase, challenges, state);
      challenges := m;
    }

    /** The challenge values in ascending slot order. */
    method ExportChallenges() returns (values: seq<Fr>)
      ensures var keys := SortedKeys(challenges.Keys);
        |values| == |keys| && forall k | 0 <= k < |keys| :: values[k] == challenges[keys[k]]
    {
      var m := challenges;
      var bound := BoundOf(m.Keys);
      values := ValuesBelow(m, bound);
      KeysBelowStable(m.Keys, bound, KeyBound(m.Keys));
    }

    /** One column of the phase: column j of circuit i is synthesized,
        absorbed and stored with its blind. */
    method GenerateColumn<S>(h: SynthHooks<S, E>, p: nat, i: nat, j: nat, m: map<nat, Fr>, state: S) returns (next: S)
      requires Valid() && i < layout.numCircuits && j < |layout.advicePhases|
      modifies this`adviceColumnsVec, this`adviceBlindsVec
      ensures Valid()
      ensures next == AbsorbOne(h, state, Synth(h, p, i, m, j))
      ensures adviceColumnsVec == old(adviceColumnsVec)[i := old(adviceColumnsVec)[i][j := Synth(h, p, i, m, j)]]
      ensures var row: seq<Fr> := old(adviceBlindsVec)[i][j := BlindOf(h, i, j)];
        adviceBlindsVec == old(adviceBlindsVec)[i := row]
    {
      var column := Synth(h, p, i, m, j);
      next := AbsorbOne(h, state, column);
      SetAdviceColumn(i, j, column, BlindOf(h, i, j));
    }

    /** Circuit i's part of a phase, with the loop over advice columns as
        evidently intended: every column of phase p is synthesized with the
        challenge map `m`, committed, and stored with its blind. Only circuit
        i's columns change. */
    method GenerateCircuit<S>(h: SynthHooks<S, E>, p: nat, i: nat, m: map<nat, Fr>, state: S) returns (next: S)
      requires Valid() && i < layout.numCircuits
      modifies this`adviceColumnsVec, this`adviceBlindsVec
      ensures Valid()
      ensures next == AbsorbAll(h.absorb, state, CircuitCommits(h, layout.advicePhases, p, i, m))
      ensures adviceColumnsVec == old(adviceColumnsVec)[i := PhaseRow(h, layout.advicePhases, p, i, m, old(adviceColumnsVec)[i], |layout.advicePhases|)]
      ensures adviceBlindsVec == old(adviceBlindsVec)[i := BlindRow(h, layout.advicePhases, p, i, old(adviceBlindsVec)[i], |layout.advicePhases|)]
    {
      var phases := layout.advicePhases;
      ghost var row0, blinds0 := adviceColumnsVec[i], adviceBlindsVec[i];
      ghost var row, blindRow := row0, blinds0;
      assert PhaseRow(h, phases, p, i, m, row0, 0) == row0;
      assert BlindRow(h, phases, p, i, blinds0, 0) == blinds0;
      assert adviceColumnsVec == adviceColumnsVec[i := row0];
      assert adviceBlindsVec == adviceBlindsVec[i := blinds0];
      next := state;
      var j := 0;
      while j < |phases|
        invariant 0 <= j <= |phases|
        invariant Valid()
        invariant next == CircuitAbsorbed(h, phases, p, i, m, state, j)
        invariant row == PhaseRow(h, phases, p, i, m, row0, j)
        invariant blindRow == BlindRow(h, phases, p, i, blinds0, j)
        invariant adviceColumnsVec == old(adviceColumnsVec)[i := row]
        invariant adviceBlindsVec == old(adviceBlindsVec)[i := blindRow]
      {
        PhaseRowStep(h, phases, p, i, m, row0, j);
        BlindRowStep(h, phases, p, i, blinds0, j);
        if phases[j] == p {
          next := GenerateColumn(h, p, i, j, m, next);
          UpdateTwice(old(adviceColumnsVec), i, row, row[j := Synth(h, p, i, m, j)]);
          UpdateTwice(old(adviceBlindsVec), i, blindRow, blindRow[j := BlindOf(h, i, j)]);
          row, blindRow := row[j := Synth(h, p, i, m, j)], blindRow[j := BlindOf(h, i, j)];
        }
        j := j + 1;
      }
      CircuitAbsorbedSpec(h, phases, p, i, m, state, j);
      assert phases[..j] == phases;
    }

    /** Every circuit in order, each with the challenge map `m`. */
    method GenerateCircuits<S>(h: SynthHooks<S, E>, p: nat, m: map<nat, Fr>, state: S) returns (next: S)
      requires Valid()
      modifies this`adviceColumnsVec, this`adviceBlindsVec
      ensures Valid()
      ensures next == AbsorbAll(h.absorb, state, PhaseCommits(h, layout, p, m, layout.numCircuits))
      ensures adviceColumnsVec == PhaseColumns(h, layout.advicePhases, p, m, old(adviceColumnsVec), layout.numCircuits)
      ensures adviceBlindsVec == PhaseBlinds(h, layout.advicePhases, p, old(adviceBlindsVec), layout.numCircuits)
    {
      next := state;
      var i := 0;
      while i < layout.numCircuits
        invariant 0 <= i <= layout.numCircuits
        invariant Valid()
        invariant next == AbsorbAll(h.absorb, state, PhaseCommits(h, layout, p, m, i))
        invariant adviceColumnsVec == PhaseColumns(h, layout.advicePhases, p, m, old(adviceColumnsVec), i)
        invariant adviceBlindsVec == PhaseBlinds(h, layout.advicePhases, p, old(adviceBlindsVec), i)
      {
        AbsorbAllConcat(h.absorb, state, PhaseCommits(h, layout, p, m, i), CircuitCommits(h, layout.advicePhases, p, i, m));
        next := GenerateCircuit(h, p, i, m, next);
        PhaseColumnsStep(h, layout.advicePhases, p, m, old(adviceColumnsVec), i);
        PhaseBlindsStep(h, layout.advicePhases, p, old(adviceBlindsVec), i);
        i := i + 1;
      }
    }

    /** One phase: every circuit in order with the challenge map as it was at
        the start of the phase, then the phase's challenges. */
    method GeneratePhase<S>(h: SynthHooks<S, E>, p: nat, state: S) returns (next: S)
      requires Valid()
      requires forall i | 0 <= i < |layout.challengePhases| && layout.challengePhases[i] == p :: i !in challenges
      modifies this`adviceColumnsVec, this`adviceBlindsVec, this`challenges
      ensures Valid()
      ensures (challenges, next) == PhaseStep(h, layout, p, old(challenges), state)
      ensures adviceColumnsVec == PhaseColumns(h, layout.advicePhases, p, old(challenges), old(adviceColumnsVec), layout.numCircuits)
      ensures adviceBlindsVec == PhaseBlinds(h, layout.advicePhases, p, old(adviceBlindsVec), layout.numCircuits)
    {
      next := GenerateCircuits(h, p, challenges, state);
      next := UpdateChallenges(h.squeeze, p, next);
    }

    /** `GenerateAdviceColumns` over the phases in order (`GetPhases()`, which
        lists each phase once), with the advice loop as evidently intended:
        afterwards the challenge map, the transcript, the columns and the
        blinds are those of the run (`RunColumnsSpec` says which column holds
        what). */
    method GenerateAdviceColumns<S>(h: SynthHooks<S, E>, circuitCount: nat, phases: seq<nat>, state: S) returns (next: S)
      requires Valid() && circuitCount == layout.numCircuits
      requires Distinct(phases)
      requires forall i | i in SlotsOf(layout.challengePhases, phases) :: i !in challenges
      modifies this`adviceColumnsVec, this`adviceBlindsVec, this`challenges
      ensures Valid()
      ensures (challenges, next) == RunPhases(h, layout, phases, old(challenges), state)
      ensures adviceColumnsVec == RunColumns(h, layout, phases, old(challenges), state, old(adviceColumnsVec))
      ensures adviceBlindsVec == RunBlinds(h, layout, phases, old(adviceBlindsVec))
    {
      next := state;
      var t := 0;
      while t < |phases|
        invariant 0 <= t <= |phases|
        invariant Valid()
        invariant (challenges, next) == RunPhases(h, layout, phases[..t], old(challenges), state)
        invariant adviceColumnsVec == RunColumns(h, layout, phases[..t], old(challenges), state, old(adviceColumnsVec))
        invariant adviceBlindsVec == RunBlinds(h, layout, phases[..t], old(adviceBlindsVec))
      {
        assert phases[..t + 1][..t] == phases[..t];
        FreshBeforePhase(h, layout, phases, t, old(challenges), state);
        next := GeneratePhase(h, phases[t], next);
        t := t + 1;
      }
      assert phases[..t] == phases;
    }
  }

  /** Row c after phase p has processed its first n advice columns. */
  function PhaseRow<S, E>(h: SynthHooks<S, E>, advicePhases: seq<nat>, p: nat, c: nat, m: map<nat, Fr>,
                          row: seq<E>, n: nat): (r: seq<E>)
    ensures |r| == |row|
  {
    seq(|row|, j requires 0 <= j < |row| =>
      if j < n && j < |advicePhases| && advicePhases[j] == p then Synth(h, p, c, m, j) else row[j])
  }

  function BlindRow<S, E>(h: SynthHooks<S, E>, advicePhases: seq<nat>, p: nat, c: nat, row: seq<Fr>, n: nat): (r: seq<Fr>)
    ensures |r| == |row|
  {
    seq(|row|, j requires 0 <= j < |row| =>
      if j < n && j < |advicePhases| && advicePhases[j] == p then BlindOf(h, c, j) else row[j])
  }

  lemma UpdateTwice<T>(s: seq<T>, i: nat, a: T, b: T)
    requires i < |s|
    ensures s[i := a][i := b] == s[i := b]
  {
  }

  /** Processing advice column j of a row: it is synthesized when it
      belongs to phase p and kept otherwise. */
  lemma PhaseRowStep<S, E>(h: SynthHooks<S, E>, advicePhases: seq<nat>, p: nat, c: nat, m: map<nat, Fr>,
                           row: seq<E>, j: nat)
    requires j < |advicePhases| == |row|
    ensures PhaseRow(h, advicePhases, p, c, m, row, j + 1)
         == if advicePhases[j] == p then PhaseRow(h, advicePhases, p, c, m, row, j)[j := Synth(h, p, c, m, j)]
            else PhaseRow(h, advicePhases, p, c, m, row, j)
  {
  }

  lemma BlindRowStep<S, E>(h: SynthHooks<S, E>, advicePhases: seq<nat>, p: nat, c: nat, row: seq<Fr>, j: nat)
    requires j < |advicePhases| == |row|
    ensures BlindRow(h, advicePhases, p, c, row, j + 1)
         == if advicePhases[j] == p then BlindRow(h, advicePhases, p, c, row, j)[j := BlindOf(h, c, j)]
            else BlindRow(h, advicePhases, p, c, row, j)
  {
  }

  /** The transcript after the advice-column loop of circuit c has looked
      at its first j columns. */
  function CircuitAbsorbed<S, E>(h: SynthHooks<S, E>, advicePhases: seq<nat>, p: nat, c: nat, m: map<nat, Fr>,
                                 state: S, j: nat): S
    requires j <= |advicePhases|
  {
    if j == 0 then state
    else
      var prev := CircuitAbsorbed(h, advicePhases, p, c, m, state, j - 1);
      if advicePhases[j - 1] == p then AbsorbOne(h, prev, Synth(h, p, c, m, j - 1)) else prev
  }

  /** The loop absorbs exactly the circuit's columns of the phase, in column
      order. */
  lemma {:induction false} CircuitAbsorbedSpec<S, E>(h: SynthHooks<S, E>, advicePhases: seq<nat>, p: nat, c: nat,
                                                     m: map<nat, Fr>, state: S, j: nat)
    requires j <= |advicePhases|
    ensures CircuitAbsorbed(h, advicePhases, p, c, m, state, j)
         == AbsorbAll(h.absorb, state, CircuitCommits(h, advicePhases[..j], p, c, m))
  {
    if j > 0 {
      CircuitAbsorbedSpec(h, advicePhases, p, c, m, state, j - 1);
      CircuitCommitsStep(h, advicePhases, p, c, m, state, j - 1);
    } else {
      assert advicePhases[..0] == [];
    }
  }

  /** Looking at advice column j absorbs its commitment exactly when the
      column belongs to phase p. */
  lemma CircuitCommitsStep<S, E>(h: SynthHooks<S, E>, advicePhases: seq<nat>, p: nat, c: nat, m: map<nat, Fr>,
                                 state: S, j: nat)
    requires j < |advicePhases|
    ensures var before := AbsorbAll(h.absorb, state, CircuitCommits(h, advicePhases[..j], p, c, m));
      AbsorbAll(h.absorb, state, CircuitCommits(h, advicePhases[..j + 1], p, c, m))
        == if advicePhases[j] == p then AbsorbOne(h, before, Synth(h, p, c, m, j)) else before
  {
    assert advicePhases[..j + 1][..j] == advicePhases[..j];
    var before := CircuitCommits(h, advicePhases[..j], p, c, m);
    if advicePhases[j] == p {
      assert (before + [Synth(h, p, c, m, j)])[..|before|] == before;
    } else {
      assert before + [] == before;
    }
  }

  /** The columns after phase p has processed its first n circuits. */
  function PhaseColumns<S, E>(h: SynthHooks<S, E>, advicePhases: seq<nat>, p: nat, m: map<nat, Fr>,
                              columns: seq<seq<E>>, n: nat): (r: seq<seq<E>>)
    ensures |r| == |columns|
  {
    seq(|columns|, c requires 0 <= c < |columns| =>
      if c < n then PhaseRow(h, advicePhases, p, c, m, columns[c], |advicePhases|) else columns[c])
  }

  function PhaseBlinds<S, E>(h: SynthHooks<S, E>, advicePhases: seq<nat>, p: nat, blinds: seq<seq<Fr>>, n: nat): (r: seq<seq<Fr>>)
    ensures |r| == |blinds|
  {
    seq(|blinds|, c requires 0 <= c < |blinds| =>
      if c < n then BlindRow(h, advicePhases, p, c, blinds[c], |advicePhases|) else blinds[c])
  }

  lemma PhaseColumnsStep<S, E>(h: SynthHooks<S, E>, advicePhases: seq<nat>, p: nat, m: map<nat, Fr>,
                               columns: seq<seq<E>>, i: nat)
    requires i < |columns|
    ensures var before := PhaseColumns(h, advicePhases, p, m, columns, i);
      before[i := PhaseRow(h, advicePhases, p, i, m, before[i], |advicePhases|)]
        == PhaseColumns(h, advicePhases, p, m, columns, i + 1)
  {
  }

  lemma PhaseBlindsStep<S, E>(h: SynthHooks<S, E>, advicePhases: seq<nat>, p: nat, blinds: seq<seq<Fr>>, i: nat)
    requires i < |blinds|
    ensures var before := PhaseBlinds(h, advicePhases, p, blinds, i);
      before[i := BlindRow(h, advicePhases, p, i, before[i], |advicePhases|)]
        == PhaseBlinds(h, advicePhases, p, blinds, i + 1)
  {
  }

  /** The columns after the given phases, in order. */
  function RunColumns<S, E>(h: SynthHooks<S, E>, L: Layout, phases: seq<nat>, m: map<nat, Fr>, s: S,
                            columns: seq<seq<E>>): (r: seq<seq<E>>)
    ensures |r| == |columns|
    decreases |phases|
  {
    if phases == [] then columns
    else
      var init := phases[..|phases| - 1];
      PhaseColumns(h, L.advicePhases, phases[|phases| - 1], RunPhases(h, L, init, m, s).0,
                   RunColumns(h, L, init, m, s, columns), L.numCircuits)
  }

  function RunBlinds<S, E>(h: SynthHooks<S, E>, L: Layout, phases: seq<nat>, blinds: seq<seq<Fr>>): (r: seq<seq<Fr>>)
    ensures |r| == |blinds|
    decreases |phases|
  {
    if phases == [] then blinds
    else
      var init := phases[..|phases| - 1];
      PhaseBlinds(h, L.advicePhases, phases[|phases| - 1], RunBlinds(h, L, init, blinds), L.numCircuits)
  }

  /** Running one more phase changes only the cells of that phase's
      columns. */
  lemma RunColumnsSnoc<S, E>(h: SynthHooks<S, E>, L: Layout, phases: seq<nat>, m: map<nat, Fr>, s: S,
                             columns: seq<seq<E>>, c: nat, j: nat)
    requires phases != [] && |columns| == L.numCircuits && c < L.numCircuits
    requires |columns[c]| == |L.advicePhases| && j < |L.advicePhases|
    requires |RunColumns(h, L, phases[..|phases| - 1], m, s, columns)[c]| == |L.advicePhases|
    ensures var init := phases[..|phases| - 1];
      var prev := RunColumns(h, L, init, m, s, columns)[c];
      && |RunColumns(h, L, phases, m, s, columns)[c]| == |L.advicePhases|
      && RunColumns(h, L, phases, m, s, columns)[c][j]
           == if L.advicePhases[j] == phases[|phases| - 1]
              then Synth(h, phases[|phases| - 1], c, RunPhases(h, L, init, m, s).0, j) else prev[j]
  {
  }

  lemma RunBlindsSnoc<S, E>(h: SynthHooks<S, E>, L: Layout, phases: seq<nat>, blinds: seq<seq<Fr>>, c: nat, j: nat)
    requires phases != [] && |blinds| == L.numCircuits && c < L.numCircuits
    requires |blinds[c]| == |L.advicePhases| && j < |L.advicePhases|
    requires |RunBlinds(h, L, phases[..|phases| - 1], blinds)[c]| == |L.advicePhases|
    ensures var prev := RunBlinds(h, L, phases[..|phases| - 1], blinds)[c];
      && |RunBlinds(h, L, phases, blinds)[c]| == |L.advicePhases|
      && RunBlinds(h, L, phases, blinds)[c][j]
           == if L.advicePhases[j] == phases[|phases| - 1] then BlindOf(h, c, j) else prev[j]
  {
  }

  /** What the run leaves in each cell: with distinct phases, column j of
      circuit c holds what phase `advicePhases[j]` synthesized for it from
      the challenges of the phases before that one, if that phase ran;
      otherwise the cell keeps its old value. */
  lemma {:induction false} RunColumnsSpec<S, E>(h: SynthHooks<S, E>, L: Layout, phases: seq<nat>, m: map<nat, Fr>, s: S,
                                                columns: seq<seq<E>>, c: nat, j: nat)
    requires Distinct(phases)
    requires |columns| == L.numCircuits && c < L.numCircuits
    requires |columns[c]| == |L.advicePhases| && j < |L.advicePhases|
    ensures var t := IndexOf(phases, L.advicePhases[j]);
      && |RunColumns(h, L, phases, m, s, columns)[c]| == |L.advicePhases|
      && RunColumns(h, L, phases, m, s, columns)[c][j]
           == (if t < |phases| then Synth(h, phases[t], c, RunPhases(h, L, phases[..t], m, s).0, j) else columns[c][j])
    decreases |phases|
  {
    if phases != [] {
      var n := |phases| - 1;
      var init := phases[..n];
      assert Distinct(init);
      RunColumnsSpec(h, L, init, m, s, columns, c, j);
      RunColumnsSnoc(h, L, phases, m, s, columns, c, j);
      var u := IndexOf(init, L.advicePhases[j]);
      if u < n {
        assert phases[..u] == init[..u];
      }
    }
  }

  /** Likewise for the blinds: a cell holds its blind exactly when its
      column's phase ran. */
  lemma {:induction false} RunBlindsSpec<S, E>(h: SynthHooks<S, E>, L: Layout, phases: seq<nat>,
                                               blinds: seq<seq<Fr>>, c: nat, j: nat)
    requires |blinds| == L.numCircuits && c < L.numCircuits
    requires |blinds[c]| == |L.advicePhases| && j < |L.advicePhases|
    ensures var t := IndexOf(phases, L.advicePhases[j]);
      && |RunBlinds(h, L, phases, blinds)[c]| == |L.advicePhases|
      && RunBlinds(h, L, phases, blinds)[c][j] == (if t < |phases| then BlindOf(h, c, j) else blinds[c][j])
    decreases |phases|
  {
    if phases != [] {
      var init := phases[..|phases| - 1];
      RunBlindsSpec(h, L, init, blinds, c, j);
      RunBlindsSnoc(h, L, phases, blinds, c, j);
    }
  }

  /** The challenge map and transcript after the loop of `UpdateChallenges`
      has looked at the first i challenge slots. */
  function SqueezeAt<S>(squeeze: S -> (Fr, S), phases: seq<nat>, phase: nat, m0: map<nat, Fr>, state: S, i: nat)
    : (map<nat, Fr>, S)
    requires i <= |phases|
  {
    if i == 0 then (m0, state)
    else
      var prev := SqueezeAt(squeeze, phases, phase, m0, state, i - 1);
      if phases[i - 1] == phase then
        var step := squeeze(prev.1);
        (prev.0[i - 1 := step.0], step.1)
      else prev
  }

  /** The loop squeezes the phase's slots in ascending order: one challenge
      per slot, each inserted under its slot. */
  lemma {:induction false} SqueezeAtSpec<S>(squeeze: S -> (Fr, S), phases: seq<nat>, phase: nat, m0: map<nat, Fr>,
                                            state: S, i: nat)
    requires i <= |phases|
    ensures var slots := PhaseIndices(phases[..i], phase);
      var sq := Squeezes(squeeze, state, |slots|);
      SqueezeAt(squeeze, phases, phase, m0, state, i) == (InsertAll(m0, slots, sq.0), sq.1)
  {
    if i > 0 {
      SqueezeAtSpec(squeeze, phases, phase, m0, state, i - 1);
      PhaseIndicesSnoc(phases, i - 1, phase);
      var prev := SqueezeAt(squeeze, phases, phase, m0, state, i - 1);
      var slots := PhaseIndices(phases[..i - 1], phase);
      var sq := Squeezes(squeeze, state, |slots|);
      if phases[i - 1] == phase {
        var step := squeeze(sq.1);
        SqueezesSnoc(squeeze, state, |slots|);
        InsertAllSnoc(m0, slots, sq.0, i - 1, step.0);
        assert PhaseIndices(phases[..i], phase) == slots + [i - 1];
        assert Squeezes(squeeze, state, |slots| + 1) == (sq.0 + [step.0], step.1);
        assert SqueezeAt(squeeze, phases, phase, m0, state, i) == (prev.0[i - 1 := step.0], step.1);
      } else {
        assert PhaseIndices(phases[..i], phase) == slots;
        assert SqueezeAt(squeeze, phases, phase, m0, state, i) == prev;
      }
    }
  }

  /** The loop of `UpdateChallenges` over the challenge slots. */
  method SqueezeInto<S>(squeeze: S -> (Fr, S), phases: seq<nat>, phase: nat, m0: map<nat, Fr>, state: S)
    returns (m: map<nat, Fr>, next: S)
    ensures var slots := PhaseIndices(phases, phase);
      var sq := Squeezes(squeeze, state, |slots|);
      m == InsertAll(m0, slots, sq.0) && next == sq.1
  {
    m, next := m0, state;
    var i := 0;
    while i < |phases|
      invariant 0 <= i <= |phases|
      invariant (m, next) == SqueezeAt(squeeze, phases, phase, m0, state, i)
    {
      if phase == phases[i] {
        var step := squeeze(next);
        m := m[i := step.0];
        next := step.1;
      }
      i := i + 1;
    }
    SqueezeAtSpec(squeeze, phases, phase, m0, state, i);
    assert phases[..i] == phases;
  }

  /** A bound above every key, found by one pass over the set. */
  method BoundOf(s: set<nat>) returns (bound: nat)
    ensures forall x | x in s :: x < bound
  {
    var rest := s;
    bound := 0;
    while rest != {}
      invariant rest <= s
      invariant forall y | y in s && y !in rest :: y < bound
      decreases |rest|
    {
      var x :| x in rest;
      if bound <= x {
        bound := x + 1;
      }
      rest := rest - {x};
    }
  }

  /** The values under the keys below `bound`, in ascending key order. */
  method ValuesBelow(m: map<nat, Fr>, bound: nat) returns (values: seq<Fr>)
    ensures var keys := KeysBelow(m.Keys, bound);
      |values| == |keys| && forall k | 0 <= k < |keys| :: values[k] == m[keys[k]]
  {
    values := [];
    ghost var keys: seq<nat> := [];
    var n := 0;
    while n < bound
      invariant 0 <= n <= bound
      invariant keys == KeysBelow(m.Keys, n)
      invariant |values| == |keys|
      invariant forall k | 0 <= k < |keys| :: values[k] == m[keys[k]]
    {
      if n in m {
        values := values + [m[n]];
        keys := keys + [n];
      }
      n := n + 1;
    }
  }

  /** Before phase `phases[t]` runs, none of its slots is in the map. */
  lemma FreshBeforePhase<S, E>(h: SynthHooks<S, E>, L: Layout, phases: seq<nat>, t: nat, m: map<nat, Fr>, s: S)
    requires Distinct(phases) && t < |phases|
    requires forall i | i in SlotsOf(L.challengePhases, phases) :: i !in m
    ensures forall i | 0 <= i < |L.challengePhases| && L.challengePhases[i] == phases[t] ::
      i !in RunPhases(h, L, phases[..t], m, s).0
  {
    var init := phases[..t + 1];
    assert init[..t] == phases[..t];
    assert Distinct(init);
    SlotsOfLastFresh(L.challengePhases, init);
    forall i | i in SlotsOf(L.challengePhases, phases[..t]) ensures i !in m {
      var u :| 0 <= u < t && phases[..t][u] == L.challengePhases[i];
      assert phases[u] == phases[..t][u];
    }
    RunPhasesKeys(h, L, phases[..t], m, s);
    PhaseIndicesCovers(L.challengePhases, phases[t]);
    forall i | 0 <= i < |L.challengePhases| && L.challengePhases[i] == phases[t]
      ensures i !in RunPhases(h, L, phases[..t], m, s).0
    {
      assert i in SlotsOf(L.challengePhases, phases);
      assert i in PhaseIndices(L.challengePhases, phases[t]);
    }
  }
}
