/** `ListOfProductsOfPolynomials`: a sum of products of multilinear
    extensions, each product scaled by a coefficient. The multiplicands are
    shared objects; the list stores each distinct object once and every
    product refers to its multiplicands by index into that flat list.

    Field elements of the sumcheck prover are modelled as integers: every
    identity proved here is a ring identity, so it holds equally after
    reduction modulo the field's prime. */
module SumcheckData {

  /** `MultilinearDenseEvaluations`: the evaluations of a multilinear
      extension over the boolean hypercube. Being a class, each instance has
      its own identity, which is what the deduplication looks up. */
  class DenseExtension {
    const numVars: nat
    const evaluations: seq<int>

    constructor (numVars: nat, evaluations: seq<int>)
      ensures this.numVars == numVars && this.evaluations == evaluations
    {
      this.numVars := numVars;
      this.evaluations := evaluations;
    }
  }

  /** One entry of `products_`: a coefficient and the indices of the
      multiplicands in the flattened list. */
  datatype Product = Product(coefficient: int, indices: seq<nat>)

  predicate NoDuplicates<E(==)>(s: seq<E>) {
    forall i, j | 0 <= i < j < |s| :: s[i] != s[j]
  }

  function Max(a: nat, b: nat): nat {
    if a < b then b else a
  }

  /** The position of an element in a sequence. */
  function IndexOf<E(==)>(s: seq<E>, x: E): (r: nat)
    requires x in s
    ensures r < |s| && s[r] == x
    decreases |s|
  {
    if s[|s| - 1] == x then |s| - 1 else IndexOf(s[..|s| - 1], x)
  }

  /** The deduplication of `AddProduct`, multiplicand by multiplicand: one
      already in the flat list reuses its index, a new one is appended and
      gets the list's old length as its index. The result is the new flat
      list and the product's indices. */
  function Intern<E(==)>(flat: seq<E>, product: seq<E>): (r: (seq<E>, seq<nat>))
    decreases |product|
  {
    if product == [] then (flat, [])
    else
      var (f, ix) := Intern(flat, product[..|product| - 1]);
      var m := product[|product| - 1];
      if m in f then (f, ix + [IndexOf(f, m)]) else (f + [m], ix + [|f|])
  }

  /** The flat list only grows, and the k-th index names the k-th
      multiplicand. */
  lemma {:induction false} InternIndices<E>(flat: seq<E>, product: seq<E>)
    ensures var (f, ix) := Intern(flat, product);
      && |ix| == |product|
      && |flat| <= |f| && f[..|flat|] == flat
      && (forall k | 0 <= k < |product| :: ix[k] < |f| && f[ix[k]] == product[k])
    decreases |product|
  {
    if product != [] {
      var init := product[..|product| - 1];
      InternIndices(flat, init);
      var (f, ix) := Intern(flat, init);
      assert forall k | 0 <= k < |init| :: product[k] == init[k];
      if product[|product| - 1] !in f {
        assert (f + [product[|product| - 1]])[..|flat|] == f[..|flat|];
      }
    }
  }

  /** An object is appended only when it is not in the list yet, so a list
      without duplicates stays without duplicates, and everything appended
      comes from the product. */
  lemma {:induction false} InternNoDuplicates<E>(flat: seq<E>, product: seq<E>)
    requires NoDuplicates(flat)
    ensures NoDuplicates(Intern(flat, product).0)
    ensures forall x | x in Intern(flat, product).0 :: x in flat || x in product
    decreases |product|
  {
    if product != [] {
      var init := product[..|product| - 1];
      InternNoDuplicates(flat, init);
      var f := Intern(flat, init).0;
      forall x | x in f
        ensures x in flat || x in product
      {
        if x !in flat {
          var k :| 0 <= k < |init| && init[k] == x;
          assert product[k] == x;
        }
      }
    }
  }

  /** The value of one product at a point: the coefficient times the
      evaluations of its multiplicands, in index order. */
  function TermValue(coefficient: int, indices: seq<nat>, values: seq<int>): int
    requires forall j | 0 <= j < |indices| :: indices[j] < |values|
    decreases |indices|
  {
    if indices == [] then coefficient
    else TermValue(coefficient, indices[..|indices| - 1], values) * values[indices[|indices| - 1]]
  }

  predicate IndicesBelow(products: seq<Product>, n: nat) {
    forall k, j | 0 <= k < |products| && 0 <= j < |products[k].indices| :: products[k].indices[j] < n
  }

  /** The value of the whole sum, given the evaluation of each flattened
      multiplicand. */
  function SumValue(products: seq<Product>, values: seq<int>): int
    requires IndicesBelow(products, |values|)
    decreases |products|
  {
    if products == [] then 0
    else
      var p := products[|products| - 1];
      SumValue(products[..|products| - 1], values) + TermValue(p.coefficient, p.indices, values)
  }

  /** A product of multiplicands given directly, without indices. */
  function DirectTerm(coefficient: int, values: seq<int>): int
    decreases |values|
  {
    if values == [] then coefficient else DirectTerm(coefficient, values[..|values| - 1]) * values[|values| - 1]
  }

  /** Evaluations of every flattened multiplicand at the point. */
  function EvaluateAll(flat: seq<DenseExtension>, evaluate: (seq<int>, seq<int>) -> int, point: seq<int>): (r: seq<int>)
    ensures |r| == |flat|
    ensures forall i | 0 <= i < |flat| :: r[i] == evaluate(flat[i].evaluations, point)
  {
    seq(|flat|, i requires 0 <= i < |flat| => evaluate(flat[i].evaluations, point))
  }

  /** A term only looks at the values its indices name, so the values may be
      extended past them. */
  lemma {:induction false} TermValueExtend(coefficient: int, indices: seq<nat>, values: seq<int>, more: seq<int>)
    requires forall j | 0 <= j < |indices| :: indices[j] < |values|
    ensures TermValue(coefficient, indices, values + more) == TermValue(coefficient, indices, values)
    decreases |indices|
  {
    if indices != [] {
      var init := indices[..|indices| - 1];
      TermValueExtend(coefficient, init, values, more);
    }
  }

  lemma {:induction false} SumValueExtend(products: seq<Product>, values: seq<int>, more: seq<int>)
    requires IndicesBelow(products, |values|)
    ensures IndicesBelow(products, |values + more|)
    ensures SumValue(products, values + more) == SumValue(products, values)
    decreases |products|
  {
    if products != [] {
      var init := products[..|products| - 1];
      assert forall k | 0 <= k < |init| :: init[k] == products[k];
      SumValueExtend(init, values, more);
      var p := products[|products| - 1];
      TermValueExtend(p.coefficient, p.indices, values, more);
    }
  }

  /** Looking multiplicands up through their indices gives the same product
      as multiplying them directly. */
  lemma {:induction false} TermValueDirect(coefficient: int, indices: seq<nat>, values: seq<int>, direct: seq<int>)
    requires |indices| == |direct|
    requires forall j | 0 <= j < |indices| :: indices[j] < |values| && values[indices[j]] == direct[j]
    ensures TermValue(coefficient, indices, values) == DirectTerm(coefficient, direct)
    decreases |indices|
  {
    if indices != [] {
      TermValueDirect(coefficient, indices[..|indices| - 1], values, direct[..|direct| - 1]);
    }
  }

  /** The lookup table maps exactly the flattened objects to their
      positions. */
  predicate LookupConsistent(flat: seq<DenseExtension>, lookup: map<DenseExtension, nat>) {
    && (forall m | m in lookup :: lookup[m] < |flat| && flat[lookup[m]] == m)
    && (forall i | 0 <= i < |flat| :: flat[i] in lookup && lookup[flat[i]] == i)
  }

  /** Appending an object not yet in the table, at the next position. */
  lemma LookupAppend(flat: seq<DenseExtension>, lookup: map<DenseExtension, nat>, m: DenseExtension)
    requires LookupConsistent(flat, lookup) && m !in lookup
    ensures m !in flat
    ensures LookupConsistent(flat + [m], lookup[m := |flat|])
  {
  }

  /** The table gives the position `IndexOf` finds. */
  lemma LookupIndex(flat: seq<DenseExtension>, lookup: map<DenseExtension, nat>, m: DenseExtension)
    requires LookupConsistent(flat, lookup) && m in lookup
    ensures m in flat && IndexOf(flat, m) == lookup[m]
  {
    assert flat[lookup[m]] == m;
    assert lookup[flat[IndexOf(flat, m)]] == IndexOf(flat, m);
  }

  class ListOfProductsOfPolynomials {
    var maxMultiplicands: nat
    const numVariables: nat
    var products: seq<Product>
    var flattened: seq<DenseExtension>
    /** `raw_pointers_lookup_table_`: object to its index in `flattened`. */
    var lookup: map<DenseExtension, nat>

    ghost predicate Valid()
      reads this
    {
      && LookupConsistent(flattened, lookup)
      && IndicesBelow(products, |flattened|)
    }

    /** The explicit constructor: no products yet, and the number of
        variables every multiplicand must have. */
    constructor (numVariables: nat)
      ensures Valid()
      ensures this.numVariables == numVariables && maxMultiplicands == 0
      ensures products == [] && flattened == [] && lookup == map[]
    {
      this.numVariables := numVariables;
      maxMultiplicands := 0;
      products := [];
      flattened := [];
      lookup := map[];
    }

    /** Appends one product, interning its multiplicands by identity. */
    method AddProduct(product: seq<DenseExtension>, coefficient: int)
      requires Valid()
      requires forall k | 0 <= k < |product| :: product[k].numVars == numVariables
      modifies this
      ensures Valid()
      ensures flattened == Intern(old(flattened), product).0
      ensures products == old(products) + [Product(coefficient, Intern(old(flattened), product).1)]
      ensures maxMultiplicands == Max(old(maxMultiplicands), |product|)
    {
      var indexed: seq<nat> := [];
      var i := 0;
      while i < |product|
        invariant 0 <= i <= |product|
        invariant (flattened, indexed) == Intern(old(flattened), product[..i])
        invariant LookupConsistent(flattened, lookup)
        invariant products == old(products) && maxMultiplicands == old(maxMultiplicands)
        invariant |old(flattened)| <= |flattened|
      {
        var m := product[i];
        assert product[..i + 1][..i] == product[..i];
        if m in lookup {
          LookupIndex(flattened, lookup, m);
          indexed := indexed + [lookup[m]];
        } else {
          LookupAppend(flattened, lookup, m);
          var currentIndex := |flattened|;
          flattened := flattened + [m];
          lookup := lookup[m := currentIndex];
          indexed := indexed + [currentIndex];
        }
        i := i + 1;
      }
      assert product[..i] == product;
      InternIndices(old(flattened), product);
      products := products + [Product(coefficient, indexed)];
      maxMultiplicands := Max(maxMultiplicands, |product|);
    }

    /** The sum of coefficient times product of the multiplicands'
        evaluations, over all products. `evaluate` is the multilinear
        extension's own evaluation at a point, which is not part of this
        model. */
    method Evaluate(point: seq<int>, evaluate: (seq<int>, seq<int>) -> int) returns (result: int)
      requires Valid()
      ensures result == SumValue(products, EvaluateAll(flattened, evaluate, point))
    {
      var values := EvaluateAll(flattened, evaluate, point);
      result := 0;
      var k := 0;
      while k < |products|
        invariant 0 <= k <= |products|
        invariant IndicesBelow(products[..k], |values|)
        invariant result == SumValue(products[..k], values)
      {
        var indices := products[k].indices;
        var term := products[k].coefficient;
        var j := 0;
        while j < |indices|
          invariant 0 <= j <= |indices|
          invariant term == TermValue(products[k].coefficient, indices[..j], values)
        {
          assert indices[..j + 1][..j] == indices[..j];
          term := term * evaluate(flattened[indices[j]].evaluations, point);
          j := j + 1;
        }
        assert indices[..j] == indices;
        assert products[..k + 1][..k] == products[..k];
        result := result + term;
        k := k + 1;
      }
      assert products[..k] == products;
    }
  }

  /** A consistent lookup table makes the flat list duplicate-free: no
      object is stored twice. */
  lemma LookupNoDuplicates(flat: seq<DenseExtension>, lookup: map<DenseExtension, nat>)
    requires LookupConsistent(flat, lookup)
    ensures NoDuplicates(flat)
  {
    forall i, j | 0 <= i < j < |flat|
      ensures flat[i] != flat[j]
    {
      assert lookup[flat[i]] == i && lookup[flat[j]] == j;
    }
  }

  /** The meaning of `AddProduct`: at every point, the sum grows by exactly
      the coefficient times the product of the given multiplicands'
      evaluations. Sharing multiplicands changes the representation, never
      the value. */
  lemma {:induction false} AddProductValue(
    products: seq<Product>, flat: seq<DenseExtension>, product: seq<DenseExtension>, coefficient: int,
    evaluate: (seq<int>, seq<int>) -> int, point: seq<int>)
    requires IndicesBelow(products, |flat|)
    ensures var (f, ix) := Intern(flat, product);
      && IndicesBelow(products + [Product(coefficient, ix)], |f|)
      && SumValue(products + [Product(coefficient, ix)], EvaluateAll(f, evaluate, point))
         == SumValue(products, EvaluateAll(flat, evaluate, point))
            + DirectTerm(coefficient, seq(|product|, k requires 0 <= k < |product| => evaluate(product[k].evaluations, point)))
  {
    var (f, ix) := Intern(flat, product);
    InternIndices(flat, product);
    var values := EvaluateAll(flat, evaluate, point);
    var values' := EvaluateAll(f, evaluate, point);
    var more := values'[|flat|..];
    assert values' == values + more by {
      assert forall i | 0 <= i < |flat| :: f[i] == flat[i];
    }
    SumValueExtend(products, values, more);
    var all := products + [Product(coefficient, ix)];
    assert all[..|all| - 1] == products;
    var direct := seq(|product|, k requires 0 <= k < |product| => evaluate(product[k].evaluations, point));
    TermValueDirect(coefficient, ix, values', direct);
  }
}
