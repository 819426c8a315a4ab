/** `MultilinearSparseEvaluations<F, MaxDegree, NumVars>`: the evaluations of
    a multilinear polynomial on the Boolean hypercube, stored sparsely as an
    ordered map from a hypercube index to the value there.

    The ordered map (`absl::btree_map<size_t, F>`) is modelled as a sequence
    of entries in strictly ascending key order, which is how it is iterated;
    a lookup is a search of that sequence. */
module MultilinearSparse {
  import opened Common
  import opened DecimalText

  /** One `(index, value)` pair, both of the ordered map and of the vectors
      of pairs the constructors take. */
  datatype Entry = Entry(key: nat, value: Fr)

  /** The ordered map's invariant: keys strictly ascend, so none repeats. */
  predicate Ascending(t: seq<Entry>) {
    forall i, j :: 0 <= i < j < |t| ==> t[i].key < t[j].key
  }

  /** Every key of t is larger than b. */
  predicate Above(t: seq<Entry>, b: nat) {
    forall i :: 0 <= i < |t| ==> b < t[i].key
  }

  /** Every key of t is smaller than b. */
  predicate Below(t: seq<Entry>, b: nat) {
    forall i :: 0 <= i < |t| ==> t[i].key < b
  }

  /** The value of the first entry of t with key k, searching from the
      front; `find` on the ordered map, and "the value that was inserted
      first" on a vector of pairs. */
  function Lookup(t: seq<Entry>, k: nat): (r: Option<Fr>)
    ensures r.Some? <==> exists i :: 0 <= i < |t| && t[i].key == k
    ensures r.Some? ==> Entry(k, r.value) in t
  {
    if t == [] then None
    else if t[0].key == k then Some(t[0].value)
    else Lookup(t[1..], k)
  }

  /** The value of the last entry of t with key k. */
  function LookupLast(t: seq<Entry>, k: nat): (r: Option<Fr>)
    ensures r.Some? <==> exists i :: 0 <= i < |t| && t[i].key == k
    ensures r.Some? ==> Entry(k, r.value) in t
  {
    if t == [] then None
    else if t[|t| - 1].key == k then Some(t[|t| - 1].value)
    else LookupLast(t[..|t| - 1], k)
  }

  /** An entry with no earlier entry of the same key is what Lookup finds. */
  lemma {:induction false} LookupFirst(t: seq<Entry>, i: nat)
    requires i < |t|
    requires forall j :: 0 <= j < i ==> t[j].key != t[i].key
    ensures Lookup(t, t[i].key) == Some(t[i].value)
  {
    if i > 0 {
      assert t[1..][i - 1] == t[i];
      LookupFirst(t[1..], i - 1);
    }
  }

  /** An entry with no later entry of the same key is what LookupLast finds. */
  lemma {:induction false} LookupLastAt(t: seq<Entry>, i: nat)
    requires i < |t|
    requires forall j :: i < j < |t| ==> t[j].key != t[i].key
    ensures LookupLast(t, t[i].key) == Some(t[i].value)
  {
    if i < |t| - 1 {
      assert t[..|t| - 1][i] == t[i];
      LookupLastAt(t[..|t| - 1], i);
    }
  }

  /** No key at or below a lower bound of t is present. */
  lemma LookupAbsentBelow(t: seq<Entry>, b: nat, k: nat)
    requires Above(t, b) && k <= b
    ensures Lookup(t, k) == None
  {
  }

  /** Looking up in a sequence extended at the back: an earlier entry still
      wins, otherwise the new entry is found. */
  lemma {:induction false} LookupSnoc(t: seq<Entry>, e: Entry, k: nat)
    ensures Lookup(t + [e], k) ==
      if Lookup(t, k).Some? then Lookup(t, k)
      else if e.key == k then Some(e.value) else None
  {
    if t != [] {
      assert (t + [e])[1..] == t[1..] + [e];
      LookupSnoc(t[1..], e, k);
    }
  }

  /** Inserting `(k, v)` into an ordered map. With `replace` the new value
      overwrites a present one (`map[k] = v`); without it a present key keeps
      its value (`insert`). */
  function Insert(t: seq<Entry>, k: nat, v: Fr, replace: bool): (r: seq<Entry>)
  {
    if t == [] then [Entry(k, v)]
    else if k < t[0].key then [Entry(k, v)] + t
    else if k == t[0].key then (if replace then [Entry(k, v)] + t[1..] else t)
    else [t[0]] + Insert(t[1..], k, v, replace)
  }

  /** Insertion keeps every lower bound that the new key respects. */
  lemma {:induction false} InsertAbove(t: seq<Entry>, k: nat, v: Fr, replace: bool, b: nat)
    requires Above(t, b) && b < k
    ensures Above(Insert(t, k, v, replace), b)
  {
    if t != [] && k > t[0].key {
      InsertAbove(t[1..], k, v, replace, b);
    }
  }

  /** Insertion keeps the keys strictly ascending. */
  lemma {:induction false} InsertAscending(t: seq<Entry>, k: nat, v: Fr, replace: bool)
    requires Ascending(t)
    ensures Ascending(Insert(t, k, v, replace))
  {
    if t != [] && k > t[0].key {
      InsertAscending(t[1..], k, v, replace);
      InsertAbove(t[1..], k, v, replace, t[0].key);
    }
  }

  /** What a lookup sees after an insertion: the new value at k when replacing
      or when k was absent, the old value otherwise, and nothing else changed. */
  lemma {:induction false} LookupInsert(t: seq<Entry>, k: nat, v: Fr, replace: bool, j: nat)
    requires Ascending(t)
    ensures Lookup(Insert(t, k, v, replace), j) ==
      if j != k then Lookup(t, j)
      else if replace || Lookup(t, k).None? then Some(v)
      else Lookup(t, k)
  {
    if t != [] {
      if k < t[0].key {
        LookupAbsentBelow(t, t[0].key - 1, k);
      } else if k == t[0].key {
        if j != k {
          assert Above(t[1..], t[0].key);
        }
      } else {
        LookupInsert(t[1..], k, v, replace, j);
      }
    }
  }

  /** Inserting a key above every present key appends it. */
  lemma {:induction false} InsertGreatest(t: seq<Entry>, k: nat, v: Fr, replace: bool)
    requires Below(t, k)
    ensures Insert(t, k, v, replace) == t + [Entry(k, v)]
  {
    if t != [] {
      InsertGreatest(t[1..], k, v, replace);
      assert [t[0]] + (t[1..] + [Entry(k, v)]) == t + [Entry(k, v)];
    }
  }

  /** Two non-empty ordered maps with the same lookups share their first
      entry. */
  lemma HeadsAgree(a: seq<Entry>, b: seq<Entry>)
    requires Ascending(a) && Ascending(b) && a != [] && b != []
    requires forall k: nat :: Lookup(a, k) == Lookup(b, k)
    ensures a[0] == b[0]
  {
    assert Above(a[1..], a[0].key);
    assert Above(b[1..], b[0].key);
    if a[0].key < b[0].key {
      LookupAbsentBelow(b, b[0].key - 1, a[0].key);
      assert false;
    } else if b[0].key < a[0].key {
      LookupAbsentBelow(a, a[0].key - 1, b[0].key);
      assert false;
    }
    assert Lookup(a, a[0].key) == Lookup(b, a[0].key);
  }

  /** ... and then the same lookups on the rest. */
  lemma TailsAgree(a: seq<Entry>, b: seq<Entry>, k: nat)
    requires Ascending(a) && Ascending(b) && a != [] && b != [] && a[0] == b[0]
    requires Lookup(a, k) == Lookup(b, k)
    ensures Lookup(a[1..], k) == Lookup(b[1..], k)
  {
    if k == a[0].key {
      LookupAbsentBelow(a[1..], a[0].key, k);
      LookupAbsentBelow(b[1..], b[0].key, k);
    }
  }

  /** An ordered map is determined by its lookups. */
  lemma {:induction false} Extensionality(a: seq<Entry>, b: seq<Entry>)
    requires Ascending(a) && Ascending(b)
    requires forall k: nat :: Lookup(a, k) == Lookup(b, k)
    ensures a == b
  {
    EmptyIffNoKeys(a);
    EmptyIffNoKeys(b);
    if a != [] && b != [] {
      HeadsAgree(a, b);
      AllTailsAgree(a, b);
      Extensionality(a[1..], b[1..]);
      SameHeadSameTail(a, b);
    }
  }

  lemma AllTailsAgree(a: seq<Entry>, b: seq<Entry>)
    requires Ascending(a) && Ascending(b) && a != [] && b != [] && a[0] == b[0]
    requires forall k: nat :: Lookup(a, k) == Lookup(b, k)
    ensures Ascending(a[1..]) && Ascending(b[1..])
    ensures forall k: nat :: Lookup(a[1..], k) == Lookup(b[1..], k)
  {
    forall k: nat
      ensures Lookup(a[1..], k) == Lookup(b[1..], k)
    {
      TailsAgree(a, b, k);
    }
  }

  lemma SameHeadSameTail<T>(a: seq<T>, b: seq<T>)
    requires a != [] && b != [] && a[0] == b[0] && a[1..] == b[1..]
    ensures a == b
  {
    assert a == [a[0]] + a[1..];
    assert b == [b[0]] + b[1..];
  }

  /** A sequence of entries is empty exactly when no key is found in it. */
  lemma EmptyIffNoKeys(t: seq<Entry>)
    ensures t == [] <==> forall k: nat :: Lookup(t, k).None?
  {
    if t != [] {
      assert Lookup(t, t[0].key).Some?;
    }
  }

  /** The ordered map built by inserting the pairs in order. */
  function Build(pairs: seq<Entry>, replace: bool): (r: seq<Entry>)
  {
    if pairs == [] then []
    else
      var e := pairs[|pairs| - 1];
      Insert(Build(pairs[..|pairs| - 1], replace), e.key, e.value, replace)
  }

  /** Building keeps the keys ascending. */
  lemma {:induction false} BuildAscending(pairs: seq<Entry>, replace: bool)
    ensures Ascending(Build(pairs, replace))
  {
    if pairs != [] {
      var e := pairs[|pairs| - 1];
      BuildAscending(pairs[..|pairs| - 1], replace);
      InsertAscending(Build(pairs[..|pairs| - 1], replace), e.key, e.value, replace);
    }
  }

  /** Building without replacement holds, at every key, the value of the first
      pair with that key. */
  lemma {:induction false} BuildFirstWins(pairs: seq<Entry>, k: nat)
    ensures Lookup(Build(pairs, false), k) == Lookup(pairs, k)
  {
    if pairs != [] {
      var p := pairs[..|pairs| - 1];
      var e := pairs[|pairs| - 1];
      BuildFirstWins(p, k);
      BuildAscending(p, false);
      LookupInsert(Build(p, false), e.key, e.value, false, k);
      SplitLast(pairs);
      LookupSnoc(p, e, k);
    }
  }

  /** Building with replacement holds, at every key, the value of the last
      pair with that key. */
  lemma {:induction false} BuildLastWins(pairs: seq<Entry>, k: nat)
    ensures Lookup(Build(pairs, true), k) == LookupLast(pairs, k)
  {
    if pairs != [] {
      var p := pairs[..|pairs| - 1];
      var e := pairs[|pairs| - 1];
      BuildLastWins(p, k);
      BuildAscending(p, true);
      LookupInsert(Build(p, true), e.key, e.value, true, k);
    }
  }

  /** A `MultilinearSparseEvaluations` value. Its `num_vars_` member is never
      initialised by any constructor and its `zero_` member is always zero, so
      the model keeps only the ordered map. */
  datatype SparseEvaluations = SparseEvaluations(evaluations: seq<Entry>)

  /** The default value: the single entry (0, zero). */
  function Default(): (r: SparseEvaluations)
    ensures Ascending(r.evaluations)
    ensures forall k: nat :: Get(r, k) == if k == 0 then Some(0) else None
  {
    SparseEvaluations([Entry(0, 0)])
  }

  /** The constructor from a vector of pairs: a range insertion, so of
      several pairs with the same index the first one is kept. */
  function FromPairs(pairs: seq<Entry>): (r: SparseEvaluations)
    ensures Ascending(r.evaluations)
    ensures forall k: nat :: Get(r, k) == Lookup(pairs, k)
  {
    BuildAscending(pairs, false);
    forall k: nat
      ensures Lookup(Build(pairs, false), k) == Lookup(pairs, k)
    {
      BuildFirstWins(pairs, k);
    }
    SparseEvaluations(Build(pairs, false))
  }

  /** `Get(i)`: the stored value at index i, or null when i is not stored. */
  function Get(m: SparseEvaluations, i: nat): (r: Option<Fr>)
    ensures r.Some? <==> exists j :: 0 <= j < |m.evaluations| && m.evaluations[j].key == i
    ensures r.Some? ==> Entry(i, r.value) in m.evaluations
  {
    Lookup(m.evaluations, i)
  }

  /** Every stored value equals v. */
  predicate AllValues(m: SparseEvaluations, v: Fr) {
    forall i :: 0 <= i < |m.evaluations| ==> m.evaluations[i].value == v
  }

  /** `IsZero()`: every stored value is zero. */
  predicate IsZero(m: SparseEvaluations) {
    AllValues(m, 0)
  }

  /** `IsOne()`: every stored value is one. */
  predicate IsOne(m: SparseEvaluations) {
    AllValues(m, 1)
  }

  /** On an ordered map, every stored value is v exactly when every index that
      Get finds holds v; with nothing stored this holds vacuously. */
  lemma AllValuesMeaning(m: SparseEvaluations, v: Fr)
    requires Ascending(m.evaluations)
    ensures AllValues(m, v) <==> forall k: nat :: Get(m, k).Some? ==> Get(m, k).value == v
    ensures m.evaluations == [] ==> AllValues(m, v)
  {
    if forall k: nat :: Get(m, k).Some? ==> Get(m, k).value == v {
      forall i | 0 <= i < |m.evaluations|
        ensures m.evaluations[i].value == v
      {
        LookupFirst(m.evaluations, i);
        assert Get(m, m.evaluations[i].key).Some?;
      }
    }
  }

  /** `operator==`: the two ordered maps are equal. */
  predicate Equal(a: SparseEvaluations, b: SparseEvaluations) {
    a.evaluations == b.evaluations
  }

  /** Two ordered maps are equal exactly when Get agrees at every index. */
  lemma EqualMeansSameValues(a: SparseEvaluations, b: SparseEvaluations)
    requires Ascending(a.evaluations) && Ascending(b.evaluations)
    ensures Equal(a, b) <==> forall k: nat :: Get(a, k) == Get(b, k)
  {
    if forall k: nat :: Get(a, k) == Get(b, k) {
      forall k: nat
        ensures Lookup(a.evaluations, k) == Lookup(b.evaluations, k)
      {
        assert Get(a, k) == Get(b, k);
      }
      Extensionality(a.evaluations, b.evaluations);
    }
  }

  /** `tuples_to_treemap`: assigns the pairs into an empty ordered map in
      order, so of several pairs with the same index the last one is kept. */
  method TuplesToTreemap(tuples: seq<Entry>) returns (result: seq<Entry>)
    ensures result == Build(tuples, true)
    ensures Ascending(result)
    ensures forall k: nat :: Lookup(result, k) == LookupLast(tuples, k)
  {
    result := [];
    for i := 0 to |tuples|
      invariant result == Build(tuples[..i], true)
    {
      assert tuples[..i + 1][..i] == tuples[..i];
      result := Insert(result, tuples[i].key, tuples[i].value, true);
    }
    assert tuples[..|tuples|] == tuples;
    BuildAscending(tuples, true);
    forall k: nat
      ensures Lookup(result, k) == LookupLast(tuples, k)
    {
      BuildLastWins(tuples, k);
    }
  }

  /** The pairs (0, v), (1, v), ..., (n - 1, v). */
  function Filled(n: nat, v: Fr): (r: seq<Entry>)
    ensures |r| == n
    ensures forall i :: 0 <= i < n ==> r[i] == Entry(i, v)
  {
    if n == 0 then [] else Filled(n - 1, v) + [Entry(n - 1, v)]
  }

  /** Keys already ascending and distinct are stored as given. */
  lemma {:induction false} BuildFilled(n: nat, v: Fr)
    ensures Build(Filled(n, v), false) == Filled(n, v)
  {
    if n > 0 {
      assert Filled(n, v)[..n - 1] == Filled(n - 1, v);
      BuildFilled(n - 1, v);
      InsertGreatest(Filled(n - 1, v), n - 1, v, false);
    }
  }

  /** The loop shared by Zero and One: pushes (i, v) for i below 2^degree and
      constructs from the pairs. */
  method Constant(degree: nat, v: Fr) returns (r: SparseEvaluations)
    requires degree < 64
    ensures r.evaluations == Filled(Pow2(degree), v)
  {
    var evaluations: seq<Entry> := [];
    var i := 0;
    while i < Pow2(degree)
      invariant i <= Pow2(degree)
      invariant evaluations == Filled(i, v)
    {
      evaluations := evaluations + [Entry(i, v)];
      i := i + 1;
    }
    r := FromPairs(evaluations);
    BuildFilled(Pow2(degree), v);
  }

  /** The hypercube filled with v holds v exactly at the indices below
      2^degree and nowhere else, in ascending order. */
  lemma FilledValues(degree: nat, v: Fr, k: nat)
    ensures Ascending(Filled(Pow2(degree), v))
    ensures Lookup(Filled(Pow2(degree), v), k) == if k < Pow2(degree) then Some(v) else None
  {
    var t := Filled(Pow2(degree), v);
    if k < Pow2(degree) {
      LookupFirst(t, k);
    }
  }

  /** `Zero(degree)`: index i holds zero for every i below 2^degree, and no
      other index is stored. The shift `1 << degree` on `size_t` needs
      degree < 64. */
  method Zero(degree: nat) returns (r: SparseEvaluations)
    requires degree < 64
    ensures Ascending(r.evaluations)
    ensures forall k: nat :: Get(r, k) == if k < Pow2(degree) then Some(0) else None
    ensures IsZero(r)
  {
    r := Constant(degree, 0);
    forall k: nat
      ensures Get(r, k) == if k < Pow2(degree) then Some(0) else None
    {
      FilledValues(degree, 0, k);
    }
    FilledValues(degree, 0, 0);
  }

  /** `One(degree)`: index i holds one for every i below 2^degree, and no
      other index is stored. */
  method One(degree: nat) returns (r: SparseEvaluations)
    requires degree < 64
    ensures Ascending(r.evaluations)
    ensures forall k: nat :: Get(r, k) == if k < Pow2(degree) then Some(1) else None
    ensures IsOne(r)
  {
    r := Constant(degree, 1);
    forall k: nat
      ensures Get(r, k) == if k < Pow2(degree) then Some(1) else None
    {
      FilledValues(degree, 1, k);
    }
    FilledValues(degree, 1, 0);
  }

  /** `base::bits::SafeLog2Ceiling`: the least d with n <= 2^d (0 for n <= 1). */
  function Log2Ceiling(n: nat): (r: nat)
    ensures n <= Pow2(r)
    ensures r > 0 ==> Pow2(r - 1) < n
  {
    if n <= 1 then 0 else 1 + Log2Ceiling((n + 1) / 2)
  }

  /** 2^d grows with d. */
  lemma {:induction false} Pow2Monotone(a: nat, b: nat)
    requires a <= b
    ensures Pow2(a) <= Pow2(b)
  {
    if a < b {
      Pow2Monotone(a, b - 1);
    }
  }

  /** The two bounds determine the logarithm. */
  lemma Log2CeilingUnique(n: nat, d: nat)
    requires n <= Pow2(d)
    requires d > 0 ==> Pow2(d - 1) < n
    ensures Log2Ceiling(n) == d
  {
    var r := Log2Ceiling(n);
    if r < d {
      Pow2Monotone(r, d - 1);
    } else if d < r {
      Pow2Monotone(d, r - 1);
    }
  }

  /** The largest stored key, 0 when nothing is stored. */
  function MaxKey(t: seq<Entry>): (r: nat)
    ensures forall i :: 0 <= i < |t| ==> t[i].key <= r
    ensures t != [] ==> exists i :: 0 <= i < |t| && t[i].key == r
    ensures t == [] ==> r == 0
  {
    if t == [] then 0
    else
      var m := MaxKey(t[..|t| - 1]);
      if m < t[|t| - 1].key then t[|t| - 1].key else m
  }

  /** `Degree()`: 0 when nothing is stored, otherwise the ceiling of the
      base-2 logarithm of the largest stored index. */
  method Degree(m: SparseEvaluations) returns (d: nat)
    ensures m.evaluations == [] ==> d == 0
    ensures m.evaluations != [] ==> d == Log2Ceiling(MaxKey(m.evaluations))
  {
    if |m.evaluations| == 0 {
      return 0;
    }
    var maxKey := 0;
    for i := 0 to |m.evaluations|
      invariant maxKey == MaxKey(m.evaluations[..i])
    {
      assert m.evaluations[..i + 1][..i] == m.evaluations[..i];
      if maxKey < m.evaluations[i].key {
        maxKey := m.evaluations[i].key;
      }
    }
    assert m.evaluations[..|m.evaluations|] == m.evaluations;
    d := Log2Ceiling(maxKey);
  }

  /** Every stored index is at most 2^Degree, and when the degree is positive
      some stored index exceeds 2^(Degree - 1). */
  lemma DegreeBounds(m: SparseEvaluations)
    requires m.evaluations != []
    ensures forall k: nat :: Get(m, k).Some? ==> k <= Pow2(Log2Ceiling(MaxKey(m.evaluations)))
    ensures Log2Ceiling(MaxKey(m.evaluations)) > 0 ==>
      exists k: nat :: Get(m, k).Some? && Pow2(Log2Ceiling(MaxKey(m.evaluations)) - 1) < k
  {
    var mk := MaxKey(m.evaluations);
    var i :| 0 <= i < |m.evaluations| && m.evaluations[i].key == mk;
    assert Get(m, mk).Some?;
  }

  /** The degree of `Zero(d)` or `One(d)`: the largest index is 2^d - 1, whose
      logarithm is d except for d = 1, where the single variable's two
      indices 0 and 1 give degree 0. */
  lemma {:induction false} DegreeOfFilled(degree: nat, v: Fr)
    ensures Log2Ceiling(MaxKey(Filled(Pow2(degree), v))) == if degree == 1 then 0 else degree
  {
    FilledMaxKey(Pow2(degree), v);
    if degree >= 2 {
      Log2CeilingBelowPower(degree);
    }
  }

  /** The largest key of (0, v) .. (n - 1, v) is n - 1. */
  lemma FilledMaxKey(n: nat, v: Fr)
    requires n > 0
    ensures MaxKey(Filled(n, v)) == n - 1
  {
    var t := Filled(n, v);
    assert t[n - 1].key == n - 1;
  }

  /** Just below 2^d, for d >= 2, the logarithm is still d. */
  lemma Log2CeilingBelowPower(d: nat)
    requires d >= 2
    ensures Log2Ceiling(Pow2(d) - 1) == d
  {
    assert Pow2(d - 1) == 2 * Pow2(d - 2);
    Log2CeilingUnique(Pow2(d) - 1, d);
  }

  /** The text of one entry, `(index, value)`, with the field's `ToString`
      passed as `show`. */
  function EntryText(e: Entry, show: Fr -> string): string {
    "(" + DecimalString(e.key) + ", " + show(e.value) + ")"
  }

  /** The entry texts joined by ", ", built as the loop builds them. */
  function Joined(t: seq<Entry>, show: Fr -> string): string {
    if t == [] then ""
    else if |t| == 1 then EntryText(t[0], show)
    else Joined(t[..|t| - 1], show) + ", " + EntryText(t[|t| - 1], show)
  }

  /** The entry texts joined by ", ", each entry followed by the rest. */
  function JoinedFront(t: seq<Entry>, show: Fr -> string): string {
    if t == [] then ""
    else if |t| == 1 then EntryText(t[0], show)
    else EntryText(t[0], show) + ", " + JoinedFront(t[1..], show)
  }

  /** Both ways of joining give the same text: each entry's text, separated
      by ", " and with no separator before the first or after the last. */
  lemma {:induction false} JoinedAgrees(t: seq<Entry>, show: Fr -> string)
    ensures Joined(t, show) == JoinedFront(t, show)
  {
    if |t| > 1 {
      var front := t[..|t| - 1];
      JoinedAgrees(front, show);
      SplitLast(t);
      JoinedFrontSnoc(front, t[|t| - 1], show);
    }
  }

  /** Joining from the front, one more entry at the back adds a separator
      and its text. */
  lemma {:induction false} JoinedFrontSnoc(t: seq<Entry>, e: Entry, show: Fr -> string)
    requires t != []
    ensures JoinedFront(t + [e], show) == JoinedFront(t, show) + ", " + EntryText(e, show)
  {
    var head := EntryText(t[0], show) + ", ";
    if |t| == 1 {
      assert (t + [e])[1..] == [e];
    } else {
      assert (t + [e])[1..] == t[1..] + [e];
      JoinedFrontSnoc(t[1..], e, show);
      AppendAssoc(head, JoinedFront(t[1..], show) + ", ", EntryText(e, show));
      AppendAssoc(head, JoinedFront(t[1..], show), ", ");
    }
  }

  /** `ToString()`: "[" then the `(index, value)` texts in ascending index
      order, separated by ", ", then "]". */
  method ToString(m: SparseEvaluations, show: Fr -> string) returns (result: string)
    ensures result == "[" + Joined(m.evaluations, show) + "]"
  {
    var t := m.evaluations;
    result := "[";
    var firstEntry := true;
    for i := 0 to |t|
      invariant firstEntry <==> i == 0
      invariant result == "[" + Joined(t[..i], show)
    {
      assert t[..i + 1][..i] == t[..i];
      if !firstEntry {
        result := result + ", ";
      }
      result := result + EntryText(t[i], show);
      firstEntry := false;
    }
    assert t[..|t|] == t;
    result := result + "]";
  }

  /** Rendering the empty map gives "[]", and the default value with decimal
      field elements gives "[(0, 0)]". */
  lemma RenderExamples()
    ensures "[" + Joined([], DecimalString) + "]" == "[]"
    ensures "[" + Joined(Default().evaluations, DecimalString) + "]" == "[(0, 0)]"
  {
  }

  /** Constructing from pairs keeps the first of several values for one index,
      tuples_to_treemap keeps the last: the pairs (0, 1), (0, 2) give 1 and 2. */
  lemma FirstWinsLastWins()
    ensures Get(FromPairs([Entry(0, 1), Entry(0, 2)]), 0) == Some(1)
    ensures Lookup(Build([Entry(0, 1), Entry(0, 2)], true), 0) == Some(2)
  {
    BuildLastWins([Entry(0, 1), Entry(0, 2)], 0);
  }
}
