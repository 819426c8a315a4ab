/** `AdviceSingle`: the committed advice columns of one circuit. Each column
    holds a blinded polynomial and may be set once. */
module AdviceSingleModule {
  import opened Common

  /** A polynomial together with the blinding factor of its commitment. */
  datatype BlindedPolynomial<P> = BlindedPolynomial(poly: P, blind: Fr)

  class AdviceSingle<P> {
    var polys: seq<P>
    var blinds: seq<Fr>
    /** The keys of `assigned_`: the columns already set. */
    var assignedColumns: set<nat>

    ghost predicate Valid()
      reads this
    {
      && |blinds| == |polys|
      && forall c | c in assignedColumns :: c < |polys|
    }

    /** `num_advice_columns` default polynomials and zero blinds; nothing is
        assigned yet. */
    constructor (numAdviceColumns: nat, defaultPoly: P)
      ensures Valid()
      ensures |polys| == numAdviceColumns && |blinds| == numAdviceColumns
      ensures forall c | 0 <= c < numAdviceColumns :: polys[c] == defaultPoly && blinds[c] == 0
      ensures assignedColumns == {}
    {
      polys := seq(numAdviceColumns, _ => defaultPoly);
      blinds := seq(numAdviceColumns, _ => 0);
      assignedColumns := {};
    }

    /** Stores one column, which must be in range and not yet assigned. Every
        other column, and its assigned flag, is left as it was. */
    method SetBlindedPolynomial(columnIdx: nat, blindedPolynomial: BlindedPolynomial<P>)
      requires Valid()
      requires columnIdx < |polys|
      requires columnIdx !in assignedColumns
      modifies this`polys, this`blinds, this`assignedColumns
      ensures Valid()
      ensures polys == old(polys)[columnIdx := blindedPolynomial.poly]
      ensures blinds == old(blinds)[columnIdx := blindedPolynomial.blind]
      ensures assignedColumns == old(assignedColumns) + {columnIdx}
    {
      polys := polys[columnIdx := blindedPolynomial.poly];
      blinds := blinds[columnIdx := blindedPolynomial.blind];
      assignedColumns := assignedColumns + {columnIdx};
    }

    method IsAssigned(columnIdx: nat) returns (b: bool)
      requires columnIdx < |polys|
      ensures b <==> columnIdx in assignedColumns
    {
      b := columnIdx in assignedColumns;
    }
  }

  /** The write-once discipline over a run of assignments: setting the
      columns of a list one after another, starting from the assigned set
      `done`, passes every check exactly when no column of the list was
      assigned before and none occurs twice, and ends with exactly those
      columns added. */
  function AssignAll(done: set<nat>, columns: seq<nat>): (r: Option<set<nat>>)
    ensures r.Some? <==> (forall k | 0 <= k < |columns| :: columns[k] !in done)
                         && (forall k, l | 0 <= k < l < |columns| :: columns[k] != columns[l])
    ensures r.Some? ==> r.value == done + set k | 0 <= k < |columns| :: columns[k]
    decreases |columns|
  {
    if columns == [] then Some(done)
    else if columns[0] in done then None
    else
      var rest := AssignAll(done + {columns[0]}, columns[1..]);
      assert forall k | 0 < k < |columns| :: columns[k] == columns[1..][k - 1];
      assert (set k | 0 <= k < |columns| :: columns[k]) == {columns[0]} + set k | 0 <= k < |columns| - 1 :: columns[1..][k];
      rest
  }
}
