/** `Assembly`: the key-generation backend of circuit synthesis. It records
    which selectors are enabled, the fixed-column values and the copy
    constraints; an assignment outside the usable rows is fatal. */
module AssemblyModule {
  import opened Common

  /** The kind of a column key, as in `AnyColumnKey`. */
  datatype ColumnKind = AdviceKind | FixedKind | InstanceKind
  datatype AnyColumn = AnyColumn(kind: ColumnKind, index: nat)

  /** One copy constraint handed to the permutation assembly. */
  datatype CopyRecord = CopyRecord(leftColumn: AnyColumn, leftRow: nat, rightColumn: AnyColumn, rightRow: nat)

  /** The fixed column after writing `value` into every row in [from, to). */
  function Filled(column: seq<Rational>, from: nat, to: nat, value: Rational): (r: seq<Rational>)
    ensures |r| == |column|
    ensures forall i | 0 <= i < |r| :: r[i] == if from <= i < to then value else column[i]
  {
    seq(|column|, i requires 0 <= i < |column| => if from <= i < to then value else column[i])
  }

  /** Filling the same rows with the same value twice is filling them once. */
  lemma FillIdempotent(column: seq<Rational>, from: nat, to: nat, value: Rational)
    ensures Filled(Filled(column, from, to, value), from, to, value) == Filled(column, from, to, value)
  {
    var once := Filled(column, from, to, value);
    var twice := Filled(once, from, to, value);
    assert forall i | 0 <= i < |once| :: twice[i] == once[i];
  }

  /** A later fill of a range that covers an earlier one overrides it. */
  lemma FillOverrides(column: seq<Rational>, from: nat, from': nat, to: nat, v: Rational, v': Rational)
    requires from' <= from
    ensures Filled(Filled(column, from, to, v), from', to, v') == Filled(column, from', to, v')
  {
    var a := Filled(Filled(column, from, to, v), from', to, v');
    var b := Filled(column, from', to, v');
    assert forall i | 0 <= i < |a| :: a[i] == b[i];
  }

  class Assembly {
    var fixedColumns: seq<seq<Rational>>
    /** The copies recorded in the permutation assembly, in order. */
    var copies: seq<CopyRecord>
    var selectors: seq<seq<bool>>
    const usableRows: Range

    constructor (fixedColumns: seq<seq<Rational>>, copies: seq<CopyRecord>,
                 selectors: seq<seq<bool>>, usableRows: Range)
      ensures this.fixedColumns == fixedColumns && this.copies == copies
      ensures this.selectors == selectors && this.usableRows == usableRows
    {
      this.fixedColumns := fixedColumns;
      this.copies := copies;
      this.selectors := selectors;
      this.usableRows := usableRows;
    }

    /** Sets one selector cell and nothing else. */
    method EnableSelector(name: string, selector: nat, row: nat)
      requires usableRows.Contains(row)
      requires selector < |selectors| && row < |selectors[selector]|
      modifies this`selectors
      ensures selectors == old(selectors)[selector := old(selectors)[selector][row := true]]
    {
      selectors := selectors[selector := selectors[selector][row := true]];
    }

    /** Instance values are not available during key generation. */
    method QueryInstance(column: nat, row: nat) returns (v: Value<Fr>)
      requires usableRows.Contains(row)
      ensures v == Unknown
    {
      v := Unknown;
    }

    /** Writes the callback's value into one fixed cell. */
    method AssignFixed(name: string, column: nat, row: nat, assign: Rational)
      requires usableRows.Contains(row)
      requires column < |fixedColumns| && row < |fixedColumns[column]|
      modifies this`fixedColumns
      ensures fixedColumns == old(fixedColumns)[column := old(fixedColumns)[column][row := assign]]
    {
      fixedColumns := fixedColumns[column := fixedColumns[column][row := assign]];
    }

    /** Both rows must be usable; exactly one copy is recorded. */
    method Copy(leftColumn: AnyColumn, leftRow: nat, rightColumn: AnyColumn, rightRow: nat)
      requires usableRows.Contains(leftRow) && usableRows.Contains(rightRow)
      modifies this`copies
      ensures copies == old(copies) + [CopyRecord(leftColumn, leftRow, rightColumn, rightRow)]
    {
      copies := copies + [CopyRecord(leftColumn, leftRow, rightColumn, rightRow)];
    }

    /** Writes `value` into rows [usableRows.from + fromRow, usableRows.to)
        of one fixed column, leaving every other row and column as it was. */
    method FillFromRow(column: nat, fromRow: nat, value: Rational)
      requires usableRows.Contains(fromRow)
      requires column < |fixedColumns|
      requires usableRows.from + fromRow < usableRows.to ==> usableRows.to <= |fixedColumns[column]|
      modifies this`fixedColumns
      ensures fixedColumns ==
        old(fixedColumns)[column := Filled(old(fixedColumns)[column], usableRows.from + fromRow, usableRows.to, value)]
    {
      var start := usableRows.from + fromRow;
      var original := fixedColumns[column];
      var filled := original;
      var row := start;
      while row < usableRows.to
        invariant start <= row
        invariant start < usableRows.to ==> row <= usableRows.to
        invariant usableRows.to <= start ==> row == start
        invariant |filled| == |original|
        invariant forall i | 0 <= i < |filled| :: filled[i] == if start <= i < row then value else original[i]
        decreases usableRows.to - row
      {
        filled := filled[row := value];
        row := row + 1;
      }
      var expected := Filled(original, start, usableRows.to, value);
      assert forall i | 0 <= i < |filled| :: filled[i] == expected[i];
      assert filled == expected;
      fixedColumns := fixedColumns[column := filled];
    }
  }
}
