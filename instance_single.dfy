/** `InstanceSingle::Generate`: turns a circuit's instance columns into
    domain-sized evaluation tables and their polynomials, and either commits
    each table or absorbs each raw value into the transcript.

    The prover is modelled by the effects `Generate` has on it: a log of
    Lagrange commitments and transcript absorptions, in order. The inverse
    FFT is the parameter `ifft`. */
module InstanceSingleModule {
  import opened Common

  /** An effect of `Generate` on the prover. */
  datatype ProverEvent =
    | CommitLagrange(evals: seq<Fr>)  // prover->CommitLagrange(evals)
    | AbsorbScalar(value: Fr)         // prover->writer()->WriteToTranscript(value)

  /** The prover as far as instance generation sees it: the domain size
      (`kMaxDegree + 1`), the blinder's number of blinding factors and the
      log of effects. */
  class Prover {
    const domainSize: nat
    const blindingFactors: nat
    var events: seq<ProverEvent>

    constructor (domainSize: nat, blindingFactors: nat)
      ensures this.domainSize == domainSize && this.blindingFactors == blindingFactors && events == []
    {
      this.domainSize := domainSize;
      this.blindingFactors := blindingFactors;
      events := [];
    }

    method CommitLagrangeEvals(evals: seq<Fr>)
      modifies this`events
      ensures events == old(events) + [CommitLagrange(evals)]
    {
      events := events + [CommitLagrange(evals)];
    }

    method WriteToTranscript(value: Fr)
      modifies this`events
      ensures events == old(events) + [AbsorbScalar(value)]
    {
      events := events + [AbsorbScalar(value)];
    }

    /** The loop absorbing a column's raw values, in order. */
    method WriteAllToTranscript(values: seq<Fr>)
      modifies this`events
      ensures events == old(events) + Absorbs(values)
    {
      var k := 0;
      while k < |values|
        invariant 0 <= k <= |values|
        invariant events == old(events) + Absorbs(values[..k])
      {
        WriteToTranscript(values[k]);
        assert Absorbs(values[..k + 1]) == Absorbs(values[..k]) + [AbsorbScalar(values[k])];
        k := k + 1;
      }
      assert values[..k] == values;
    }

    /** The effects of accepting one column: its padded table committed, or
        its raw values absorbed. */
    method EmitColumn(instance: seq<Fr>, queryInstance: bool)
      requires |instance| <= domainSize
      modifies this`events
      ensures events == old(events) + ColumnEvents(instance, domainSize, queryInstance)
    {
      if queryInstance {
        CommitLagrangeEvals(Padded(instance, domainSize));
      } else {
        WriteAllToTranscript(instance);
      }
    }
  }

  /** A column's evaluation table: the instance values in rows 0 .. n-1 and
      zeros up to the domain size. */
  function Padded(instance: seq<Fr>, domainSize: nat): (r: seq<Fr>)
    requires |instance| <= domainSize
    ensures |r| == domainSize
    ensures forall i | 0 <= i < domainSize :: r[i] == if i < |instance| then instance[i] else 0
  {
    instance + seq(domainSize - |instance|, _ => 0)
  }

  /** Absorbing the values one by one, in order. */
  function Absorbs(values: seq<Fr>): (r: seq<ProverEvent>)
    ensures |r| == |values|
    ensures forall i | 0 <= i < |values| :: r[i] == AbsorbScalar(values[i])
  {
    seq(|values|, i requires 0 <= i < |values| => AbsorbScalar(values[i]))
  }

  /** The effects of one accepted column. */
  function ColumnEvents(instance: seq<Fr>, domainSize: nat, queryInstance: bool): seq<ProverEvent>
    requires |instance| <= domainSize
  {
    if queryInstance then [CommitLagrange(Padded(instance, domainSize))] else Absorbs(instance)
  }

  /** Every column holds at most `bound` values. */
  predicate AllFit(columns: seq<seq<Fr>>, bound: nat)
    decreases |columns|
  {
    columns == [] || (AllFit(columns[..|columns| - 1], bound) && |columns[|columns| - 1]| <= bound)
  }

  /** `AllFit` holds exactly when every column holds at most `bound` values. */
  lemma {:induction false} AllFitAt(columns: seq<seq<Fr>>, bound: nat)
    ensures AllFit(columns, bound) <==> forall j | 0 <= j < |columns| :: |columns[j]| <= bound
    decreases |columns|
  {
    if columns != [] {
      var init := columns[..|columns| - 1];
      AllFitAt(init, bound);
      assert forall j | 0 <= j < |init| :: init[j] == columns[j];
    }
  }

  /** The effects of a run of accepted columns, in column order. */
  function EventsOf(columns: seq<seq<Fr>>, domainSize: nat, queryInstance: bool): seq<ProverEvent>
    requires AllFit(columns, domainSize)
  {
    if columns == [] then []
    else
      EventsOf(columns[..|columns| - 1], domainSize, queryInstance)
        + ColumnEvents(columns[|columns| - 1], domainSize, queryInstance)
  }

  /** The index of the first column with more than `bound` values, or the
      number of columns when all fit. */
  function FirstOverflow(columns: seq<seq<Fr>>, bound: nat): (r: nat)
    ensures r <= |columns|
    ensures forall j | 0 <= j < r :: |columns[j]| <= bound
    ensures r < |columns| ==> |columns[r]| > bound
  {
    if columns == [] then 0
    else if |columns[0]| > bound then 0
    else 1 + FirstOverflow(columns[1..], bound)
  }

  /** The columns concatenated. */
  function Flatten(columns: seq<seq<Fr>>): seq<Fr> {
    if columns == [] then [] else Flatten(columns[..|columns| - 1]) + columns[|columns| - 1]
  }

  /** With `query_instance`, each column issues exactly one Lagrange
      commitment, of its padded table, and nothing is absorbed. */
  lemma {:induction false} CommitModeEvents(columns: seq<seq<Fr>>, domainSize: nat)
    requires forall j | 0 <= j < |columns| :: |columns[j]| <= domainSize
    ensures AllFit(columns, domainSize)
    ensures var e := EventsOf(columns, domainSize, true);
      |e| == |columns| && forall j | 0 <= j < |columns| :: e[j] == CommitLagrange(Padded(columns[j], domainSize))
    decreases |columns|
  {
    AllFitAt(columns, domainSize);
    if columns != [] {
      var init := columns[..|columns| - 1];
      assert forall j | 0 <= j < |init| :: init[j] == columns[j];
      CommitModeEvents(init, domainSize);
    }
  }

  /** Without `query_instance`, the effects are exactly one absorption per
      raw instance value, column after column, and no commitment. */
  lemma {:induction false} AbsorbModeEvents(columns: seq<seq<Fr>>, domainSize: nat)
    requires AllFit(columns, domainSize)
    ensures EventsOf(columns, domainSize, false) == Absorbs(Flatten(columns))
  {
    if columns != [] {
      var init := columns[..|columns| - 1];
      var last := columns[|columns| - 1];
      AbsorbModeEvents(init, domainSize);
      assert Absorbs(Flatten(init) + last) == Absorbs(Flatten(init)) + Absorbs(last);
    }
  }

  /** Three columns of three values each fit whenever the domain leaves room
      for three rows after the blinding rows, in either mode. */
  lemma ThreeByThreeFits(columns: seq<seq<Fr>>, domainSize: nat, blindingFactors: nat)
    requires |columns| == 3 && forall j | 0 <= j < 3 :: |columns[j]| == 3
    requires blindingFactors + 3 <= domainSize < SizeModulus
    ensures FirstOverflow(columns, SizeSub(domainSize, blindingFactors)) == 3
  {
  }

  /** Every column holds at most `domainSize` values, so the padding length
      `kDomainSize - instance.size()` does not wrap. */
  predicate FitsDomain(columns: seq<seq<Fr>>, domainSize: nat) {
    forall j | 0 <= j < |columns| :: |columns[j]| <= domainSize
  }

  /** When the blinding factors exceed the domain, the `size_t` bound
      `kDomainSize - blinding_factors` wraps to 2^64 + kDomainSize -
      blinding_factors, which is above the domain size: no column that fits
      the domain is rejected, and `Generate` accepts them all. */
  lemma WrappedBoundAcceptsAll(columns: seq<seq<Fr>>, domainSize: nat, blindingFactors: nat)
    requires domainSize < blindingFactors < SizeModulus
    requires FitsDomain(columns, domainSize)
    ensures SizeSub(domainSize, blindingFactors) > domainSize
    ensures FirstOverflow(columns, SizeSub(domainSize, blindingFactors)) == |columns|
  {
  }

  /** The per-circuit instance: one evaluation table and one polynomial per
      instance column. */
  class InstanceSingle<P> {
    var instanceValues: seq<seq<Fr>>
    var instancePolys: seq<P>

    constructor ()
      ensures instanceValues == [] && instancePolys == []
    {
      instanceValues := [];
      instancePolys := [];
    }

    /** Fails with `InstanceTooLarge` at the first column holding more than
        `kDomainSize - blinding_factors` values (a `size_t` difference, see
        `SizeSub`), after the effects of the columns before it; `target` is
        then not written. Otherwise `target` receives every padded table and
        its polynomial, in column order. When that difference wraps, a column
        longer than the domain would make the padding length wrap as well,
        so the columns must then fit the domain. */
    static method Generate(prover: Prover, ifft: seq<Fr> -> P, instanceVector: seq<seq<Fr>>,
                           target: InstanceSingle<P>, queryInstance: bool) returns (err: Error)
      requires prover.domainSize < SizeModulus && prover.blindingFactors < SizeModulus
      requires prover.domainSize < prover.blindingFactors ==> FitsDomain(instanceVector, prover.domainSize)
      modifies prover`events, target`instanceValues, target`instancePolys
      ensures var bound := SizeSub(prover.domainSize, prover.blindingFactors);
        var n := FirstOverflow(instanceVector, bound);
        && (err == InstanceTooLarge <==> n < |instanceVector|)
        && (err == NoError <==> n == |instanceVector|)
        && AllFit(instanceVector[..n], prover.domainSize)
        && prover.events == old(prover.events) + EventsOf(instanceVector[..n], prover.domainSize, queryInstance)
      ensures err == InstanceTooLarge ==>
        target.instanceValues == old(target.instanceValues) && target.instancePolys == old(target.instancePolys)
      ensures err == NoError ==>
        && |target.instanceValues| == |instanceVector| == |target.instancePolys|
        && (forall j | 0 <= j < |instanceVector| ::
              && target.instanceValues[j] == Padded(instanceVector[j], prover.domainSize)
              && target.instancePolys[j] == ifft(Padded(instanceVector[j], prover.domainSize)))
    {
      var n, values, polys := AcceptColumns(prover, ifft, instanceVector, queryInstance);
      if n < |instanceVector| {
        return InstanceTooLarge;
      }
      assert instanceVector[..n] == instanceVector;
      AllFitAt(instanceVector, prover.domainSize);
      TablesAt(instanceVector, prover.domainSize);
      PolysAt(ifft, values);
      target.instanceValues := values;
      target.instancePolys := polys;
      err := NoError;
    }
  }

  /** The loop of `Generate`: accepts columns in order up to the first one
      that overflows, with their effects on the prover, and returns how many
      it accepted with their tables and polynomials. */
  method AcceptColumns<P>(prover: Prover, ifft: seq<Fr> -> P, instanceVector: seq<seq<Fr>>, queryInstance: bool)
    returns (n: nat, values: seq<seq<Fr>>, polys: seq<P>)
    requires prover.domainSize < SizeModulus && prover.blindingFactors < SizeModulus
    requires prover.domainSize < prover.blindingFactors ==> FitsDomain(instanceVector, prover.domainSize)
    modifies prover`events
    ensures n == FirstOverflow(instanceVector, SizeSub(prover.domainSize, prover.blindingFactors))
    ensures AllFit(instanceVector[..n], prover.domainSize)
    ensures prover.events == old(prover.events) + EventsOf(instanceVector[..n], prover.domainSize, queryInstance)
    ensures values == Tables(instanceVector[..n], prover.domainSize)
    ensures polys == Polys(ifft, values)
  {
    var domainSize := prover.domainSize;
    var bound := SizeSub(domainSize, prover.blindingFactors);
    values, polys := [], [];
    n := 0;
    while n < |instanceVector| && |instanceVector[n]| <= bound
      invariant 0 <= n <= |instanceVector|
      invariant AllFit(instanceVector[..n], bound)
      invariant AllFit(instanceVector[..n], domainSize)
      invariant prover.events == old(prover.events) + EventsOf(instanceVector[..n], domainSize, queryInstance)
      invariant values == Tables(instanceVector[..n], domainSize)
      invariant polys == Polys(ifft, values)
    {
      var instance := instanceVector[n];
      var evals := Padded(instance, domainSize);
      var poly := ifft(evals);
      AllFitSnoc(instanceVector, n, bound);
      AllFitSnoc(instanceVector, n, domainSize);
      prover.EmitColumn(instance, queryInstance);
      EventsOfSnoc(instanceVector, n, domainSize, queryInstance);
      AppendAssoc(old(prover.events), EventsOf(instanceVector[..n], domainSize, queryInstance),
                  ColumnEvents(instance, domainSize, queryInstance));
      TablesSnoc(instanceVector, n, domainSize);
      values := values + [evals];
      polys := polys + [poly];
      n := n + 1;
    }
    FirstOverflowAt(instanceVector, bound, n);
  }

  /** The padded tables of a run of columns, in order. */
  function Tables(columns: seq<seq<Fr>>, domainSize: nat): (r: seq<seq<Fr>>)
    requires AllFit(columns, domainSize)
    ensures |r| == |columns|
    decreases |columns|
  {
    if columns == [] then []
    else Tables(columns[..|columns| - 1], domainSize) + [Padded(columns[|columns| - 1], domainSize)]
  }

  /** The inverse FFT of each table, in order. */
  function Polys<P>(ifft: seq<Fr> -> P, tables: seq<seq<Fr>>): (r: seq<P>)
    ensures |r| == |tables|
    decreases |tables|
  {
    if tables == [] then [] else Polys(ifft, tables[..|tables| - 1]) + [ifft(tables[|tables| - 1])]
  }

  lemma {:induction false} TablesAt(columns: seq<seq<Fr>>, domainSize: nat)
    requires forall j | 0 <= j < |columns| :: |columns[j]| <= domainSize
    ensures AllFit(columns, domainSize)
    ensures forall j | 0 <= j < |columns| :: Tables(columns, domainSize)[j] == Padded(columns[j], domainSize)
    decreases |columns|
  {
    AllFitAt(columns, domainSize);
    if columns != [] {
      var init := columns[..|columns| - 1];
      assert forall j | 0 <= j < |init| :: init[j] == columns[j];
      TablesAt(init, domainSize);
    }
  }

  lemma {:induction false} PolysAt<P>(ifft: seq<Fr> -> P, tables: seq<seq<Fr>>)
    ensures forall j | 0 <= j < |tables| :: Polys(ifft, tables)[j] == ifft(tables[j])
    decreases |tables|
  {
    if tables != [] {
      PolysAt(ifft, tables[..|tables| - 1]);
    }
  }

  lemma TablesSnoc(columns: seq<seq<Fr>>, i: nat, domainSize: nat)
    requires i < |columns| && AllFit(columns[..i + 1], domainSize)
    ensures AllFit(columns[..i], domainSize)
    ensures Tables(columns[..i + 1], domainSize) == Tables(columns[..i], domainSize) + [Padded(columns[i], domainSize)]
  {
    assert columns[..i + 1][..i] == columns[..i];
  }

  /** Accepting one more column appends that column's effects. */
  lemma EventsOfSnoc(columns: seq<seq<Fr>>, i: nat, domainSize: nat, queryInstance: bool)
    requires i < |columns| && AllFit(columns[..i + 1], domainSize)
    ensures AllFit(columns[..i], domainSize)
    ensures EventsOf(columns[..i + 1], domainSize, queryInstance)
         == EventsOf(columns[..i], domainSize, queryInstance) + ColumnEvents(columns[i], domainSize, queryInstance)
  {
    assert columns[..i + 1][..i] == columns[..i];
  }

  /** The first overflow is at `i` when every earlier column fits and
      column `i` (if any) does not. */
  lemma FirstOverflowAt(columns: seq<seq<Fr>>, bound: nat, i: nat)
    requires i <= |columns|
    requires AllFit(columns[..i], bound)
    requires i < |columns| ==> |columns[i]| > bound
    ensures FirstOverflow(columns, bound) == i
  {
    AllFitAt(columns[..i], bound);
    assert forall j | 0 <= j < i :: columns[..i][j] == columns[j];
  }

  lemma AllFitSnoc(columns: seq<seq<Fr>>, i: nat, bound: nat)
    requires i < |columns| && AllFit(columns[..i], bound) && |columns[i]| <= bound
    ensures AllFit(columns[..i + 1], bound)
  {
    assert columns[..i + 1][..i] == columns[..i];
  }

  lemma {:induction false} AllFitWeaken(columns: seq<seq<Fr>>, bound: nat, bound': nat)
    requires AllFit(columns, bound) && bound <= bound'
    ensures AllFit(columns, bound')
    decreases |columns|
  {
    if columns != [] {
      AllFitWeaken(columns[..|columns| - 1], bound, bound');
    }
  }
}
