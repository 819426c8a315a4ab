/** `UnivariateSparsePolynomial<GF7, kMaxDegree>`: a univariate polynomial over
    the prime field GF(7), stored as its non-zero terms in ascending order of
    degree, as its behaviour is fixed by the polynomial's unit tests.

    Polynomials are values: every operation returns a new term list. The
    model's term lists are canonical (degrees strictly ascend, no stored
    coefficient is zero); every operation keeps them so, and two canonical
    lists with the same coefficients are equal, which is what lets the
    algebraic laws be stated as equalities of term lists. */
module UnivariateSparse {
  import opened Common
  import opened DecimalText

  // ---------------------------------------------------------------------
  // The field GF(7)
  // ---------------------------------------------------------------------

  /** An element of GF(7), kept as its canonical representative. */
  type GF7 = x: int | 0 <= x < 7

  function Add7(a: GF7, b: GF7): GF7 {
    if a + b >= 7 then a + b - 7 else a + b
  }

  function Sub7(a: GF7, b: GF7): GF7 {
    if a >= b then a - b else a - b + 7
  }

  /** a * b in GF(7), as a copies of b added up. Defining the product by
      recursion keeps every law below within linear arithmetic. */
  function Mul7(a: GF7, b: GF7): GF7
    decreases a
  {
    if a == 0 then 0 else Add7(Mul7(a - 1, b), b)
  }

  /** x to the power d in GF(7). */
  function Pow7(x: GF7, d: nat): GF7 {
    if d == 0 then 1 else Mul7(x, Pow7(x, d - 1))
  }

  lemma AddComm(a: GF7, b: GF7)
    ensures Add7(a, b) == Add7(b, a)
  {
  }

  lemma AddAssoc(a: GF7, b: GF7, c: GF7)
    ensures Add7(Add7(a, b), c) == Add7(a, Add7(b, c))
  {
  }

  /** Four summands can be regrouped in pairs. */
  lemma AddSwap(w: GF7, x: GF7, y: GF7, z: GF7)
    ensures Add7(Add7(w, x), Add7(y, z)) == Add7(Add7(w, y), Add7(x, z))
  {
  }

  /** ... and likewise a sum of two differences. */
  lemma SubSwap(w: GF7, x: GF7, y: GF7, z: GF7)
    ensures Add7(Sub7(w, x), Sub7(y, z)) == Sub7(Add7(w, y), Add7(x, z))
  {
  }

  lemma {:induction false} MulZeroRight(a: GF7)
    ensures Mul7(a, 0) == 0
    decreases a
  {
    if a > 0 {
      MulZeroRight(a - 1);
    }
  }

  lemma {:induction false} MulOneRight(a: GF7)
    ensures Mul7(a, 1) == a
    decreases a
  {
    if a > 0 {
      MulOneRight(a - 1);
    }
  }

  lemma MulOneLeft(b: GF7)
    ensures Mul7(1, b) == b
  {
  }

  /** Multiplication distributes over addition from the left. */
  lemma {:induction false} DistribAdd(a: GF7, b: GF7, c: GF7)
    ensures Mul7(a, Add7(b, c)) == Add7(Mul7(a, b), Mul7(a, c))
    decreases a
  {
    if a > 0 {
      DistribAdd(a - 1, b, c);
      AddSwap(Mul7(a - 1, b), Mul7(a - 1, c), b, c);
    }
  }

  /** ... and over subtraction. */
  lemma DistribSub(a: GF7, b: GF7, c: GF7)
    ensures Mul7(a, Sub7(b, c)) == Sub7(Mul7(a, b), Mul7(a, c))
  {
    DistribAdd(a, Sub7(b, c), c);
    assert Add7(Sub7(b, c), c) == b;
  }

  lemma {:induction false} MulComm(a: GF7, b: GF7)
    ensures Mul7(a, b) == Mul7(b, a)
    decreases a
  {
    if a == 0 {
      MulZeroRight(b);
    } else {
      MulComm(a - 1, b);
      DistribAdd(b, a - 1, 1);
      MulOneRight(b);
      assert Add7(a - 1, 1) == a;
    }
  }

  /** Multiplication distributes over addition from the right. */
  lemma DistribAddRight(a: GF7, b: GF7, c: GF7)
    ensures Mul7(Add7(a, b), c) == Add7(Mul7(a, c), Mul7(b, c))
  {
    MulComm(Add7(a, b), c);
    DistribAdd(c, a, b);
    MulComm(c, a);
    MulComm(c, b);
  }

  lemma {:induction false} MulAssoc(a: GF7, b: GF7, c: GF7)
    ensures Mul7(Mul7(a, b), c) == Mul7(a, Mul7(b, c))
    decreases a
  {
    if a > 0 {
      MulAssoc(a - 1, b, c);
      DistribAddRight(Mul7(a - 1, b), b, c);
    }
  }

  /** Multiplication distributes over addition and subtraction. */
  lemma Distrib(a: GF7, b: GF7, c: GF7)
    ensures Mul7(a, Add7(b, c)) == Add7(Mul7(a, b), Mul7(a, c))
    ensures Mul7(a, Sub7(b, c)) == Sub7(Mul7(a, b), Mul7(a, c))
  {
    DistribAdd(a, b, c);
    DistribSub(a, b, c);
  }

  /** Powers add their exponents. */
  lemma {:induction false} PowAdd(x: GF7, m: nat, n: nat)
    ensures Pow7(x, m + n) == Mul7(Pow7(x, m), Pow7(x, n))
  {
    if m > 0 {
      PowAdd(x, m - 1, n);
      MulAssoc(x, Pow7(x, m - 1), Pow7(x, n));
    }
  }

  /** Subtracting from zero maps non-zero to non-zero. */
  lemma NegNonZero(c: GF7)
    requires c != 0
    ensures Sub7(0, c) != 0
  {
  }

  /** Four factors can be regrouped in pairs. */
  lemma MulSwap(a: GF7, b: GF7, c: GF7, d: GF7)
    ensures Mul7(Mul7(a, b), Mul7(c, d)) == Mul7(Mul7(a, c), Mul7(b, d))
  {
    MulAssoc(a, b, Mul7(c, d));
    MulAssoc(b, c, d);
    MulComm(b, c);
    MulAssoc(c, b, d);
    MulAssoc(a, c, Mul7(b, d));
  }

  // ---------------------------------------------------------------------
  // Terms and term lists
  // ---------------------------------------------------------------------

  /** `UnivariateTerm<GF7>`: a coefficient times x to a degree. */
  datatype Term = Term(degree: nat, coefficient: GF7)

  /** Degrees strictly ascend. */
  predicate Ascending(p: seq<Term>) {
    forall i, j :: 0 <= i < j < |p| ==> p[i].degree < p[j].degree
  }

  /** No stored coefficient is zero. */
  predicate NonZero(p: seq<Term>) {
    forall i :: 0 <= i < |p| ==> p[i].coefficient != 0
  }

  /** The canonical form of a sparse polynomial's term list. */
  predicate Canonical(p: seq<Term>) {
    Ascending(p) && NonZero(p)
  }

  /** Every degree of p exceeds b. */
  predicate Above(p: seq<Term>, b: int) {
    forall i :: 0 <= i < |p| ==> b < p[i].degree
  }

  /** Every degree of p is below b. */
  predicate Below(p: seq<Term>, b: int) {
    forall i :: 0 <= i < |p| ==> p[i].degree < b
  }

  /** A canonical list is one term followed by a canonical list above it. */
  lemma ConsCanonical(t: Term, p: seq<Term>)
    requires t.coefficient != 0 && Above(p, t.degree) && Canonical(p)
    ensures Canonical([t] + p)
  {
  }

  /** The rest of a canonical list is canonical and above its first degree. */
  lemma TailCanonical(p: seq<Term>)
    requires Canonical(p) && p != []
    ensures Canonical(p[1..]) && Above(p[1..], p[0].degree)
  {
  }

  /** `poly[i]`: the stored coefficient of x^i, or null. */
  function Get(p: seq<Term>, i: nat): (r: Option<GF7>)
    ensures r.Some? <==> exists j :: 0 <= j < |p| && p[j].degree == i
    ensures r.Some? ==> Term(i, r.value) in p
  {
    if p == [] then None
    else if p[0].degree == i then Some(p[0].coefficient)
    else Get(p[1..], i)
  }

  /** The coefficient of x^i, zero when no term is stored for it. */
  function Coeff(p: seq<Term>, i: nat): GF7 {
    if Get(p, i).Some? then Get(p, i).value else 0
  }

  /** Below the smallest degree every coefficient is zero. */
  lemma CoeffAbove(p: seq<Term>, b: int, i: nat)
    requires Above(p, b) && i <= b
    ensures Coeff(p, i) == 0
  {
  }

  /** The coefficient of a degree that is stored in an ascending list. */
  lemma {:induction false} CoeffAt(p: seq<Term>, j: nat)
    requires Ascending(p) && j < |p|
    ensures Coeff(p, p[j].degree) == p[j].coefficient
  {
    if j > 0 {
      assert p[1..][j - 1] == p[j];
      CoeffAt(p[1..], j - 1);
    }
  }

  /** A term list with no non-zero coefficient stores nothing. */
  lemma EmptyIffNoCoefficients(p: seq<Term>)
    requires Canonical(p)
    ensures p == [] <==> forall i: nat :: Coeff(p, i) == 0
  {
    if p != [] {
      assert Coeff(p, p[0].degree) != 0;
    }
  }

  /** Two canonical lists with equal first terms and equal coefficients
      everywhere share their first term. */
  lemma HeadsAgree(a: seq<Term>, b: seq<Term>)
    requires Canonical(a) && Canonical(b) && a != [] && b != []
    requires forall i: nat :: Coeff(a, i) == Coeff(b, i)
    ensures a[0] == b[0]
  {
    TailCanonical(a);
    TailCanonical(b);
    if a[0].degree < b[0].degree {
      CoeffAbove(b, b[0].degree - 1, a[0].degree);
      assert false;
    } else if b[0].degree < a[0].degree {
      CoeffAbove(a, a[0].degree - 1, b[0].degree);
      assert false;
    }
    assert Coeff(a, a[0].degree) == Coeff(b, a[0].degree);
  }

  lemma AllTailsAgree(a: seq<Term>, b: seq<Term>)
    requires Canonical(a) && Canonical(b) && a != [] && b != [] && a[0] == b[0]
    requires forall i: nat :: Coeff(a, i) == Coeff(b, i)
    ensures Canonical(a[1..]) && Canonical(b[1..])
    ensures forall i: nat :: Coeff(a[1..], i) == Coeff(b[1..], i)
  {
    TailCanonical(a);
    TailCanonical(b);
    forall i: nat
      ensures Coeff(a[1..], i) == Coeff(b[1..], i)
    {
      if i == a[0].degree {
        CoeffAbove(a[1..], a[0].degree, i);
        CoeffAbove(b[1..], b[0].degree, i);
      } else {
        assert Coeff(a, i) == Coeff(b, i);
      }
    }
  }

  lemma SameHeadSameTail<T>(a: seq<T>, b: seq<T>)
    requires a != [] && b != [] && a[0] == b[0] && a[1..] == b[1..]
    ensures a == b
  {
    assert a == [a[0]] + a[1..];
    assert b == [b[0]] + b[1..];
  }

  /** A canonical polynomial is determined by its coefficients. */
  lemma {:induction false} Extensionality(a: seq<Term>, b: seq<Term>)
    requires Canonical(a) && Canonical(b)
    requires forall i: nat :: Coeff(a, i) == Coeff(b, i)
    ensures a == b
  {
    EmptyIffNoCoefficients(a);
    EmptyIffNoCoefficients(b);
    if a != [] && b != [] {
      HeadsAgree(a, b);
      AllTailsAgree(a, b);
      Extensionality(a[1..], b[1..]);
      SameHeadSameTail(a, b);
    }
  }

  // ---------------------------------------------------------------------
  // Addition and subtraction
  // ---------------------------------------------------------------------

  /** The coefficient operation of a merge: x + y, or x - y when subtracting. */
  function Op(x: GF7, y: GF7, sub: bool): GF7 {
    if sub then Sub7(x, y) else Add7(x, y)
  }

  /** Merges two term lists by degree, combining the coefficients of a degree
      present in both and dropping a term whose coefficient becomes zero. */
  function Merge(a: seq<Term>, b: seq<Term>, sub: bool): seq<Term>
    decreases |a| + |b|
  {
    if a == [] && b == [] then []
    else if a == [] || (b != [] && b[0].degree < a[0].degree) then
      [Term(b[0].degree, Op(0, b[0].coefficient, sub))] + Merge(a, b[1..], sub)
    else if b == [] || a[0].degree < b[0].degree then
      [a[0]] + Merge(a[1..], b, sub)
    else
      var c := Op(a[0].coefficient, b[0].coefficient, sub);
      if c == 0 then Merge(a[1..], b[1..], sub)
      else [Term(a[0].degree, c)] + Merge(a[1..], b[1..], sub)
  }

  /** `a + b`. */
  function Add(a: seq<Term>, b: seq<Term>): seq<Term> {
    Merge(a, b, false)
  }

  /** `a - b`. */
  function Sub(a: seq<Term>, b: seq<Term>): seq<Term> {
    Merge(a, b, true)
  }

  /** A merge keeps a lower bound that both operands respect. */
  lemma {:induction false} MergeAbove(a: seq<Term>, b: seq<Term>, sub: bool, k: int)
    requires Above(a, k) && Above(b, k)
    ensures Above(Merge(a, b, sub), k)
    decreases |a| + |b|
  {
    if a == [] && b == [] {
    } else if a == [] || (b != [] && b[0].degree < a[0].degree) {
      MergeAbove(a, b[1..], sub, k);
    } else if b == [] || a[0].degree < b[0].degree {
      MergeAbove(a[1..], b, sub, k);
    } else {
      MergeAbove(a[1..], b[1..], sub, k);
    }
  }

  /** A merge of canonical lists is canonical. */
  lemma {:induction false} MergeCanonical(a: seq<Term>, b: seq<Term>, sub: bool)
    requires Canonical(a) && Canonical(b)
    ensures Canonical(Merge(a, b, sub))
    decreases |a| + |b|
  {
    if a == [] && b == [] {
    } else if a == [] || (b != [] && b[0].degree < a[0].degree) {
      TailCanonical(b);
      MergeCanonical(a, b[1..], sub);
      MergeAbove(a, b[1..], sub, b[0].degree);
      NegNonZero(b[0].coefficient);
      ConsCanonical(Term(b[0].degree, Op(0, b[0].coefficient, sub)), Merge(a, b[1..], sub));
    } else if b == [] || a[0].degree < b[0].degree {
      TailCanonical(a);
      MergeCanonical(a[1..], b, sub);
      MergeAbove(a[1..], b, sub, a[0].degree);
      ConsCanonical(a[0], Merge(a[1..], b, sub));
    } else {
      TailCanonical(a);
      TailCanonical(b);
      MergeCanonical(a[1..], b[1..], sub);
      MergeAbove(a[1..], b[1..], sub, a[0].degree);
      var c := Op(a[0].coefficient, b[0].coefficient, sub);
      if c != 0 {
        ConsCanonical(Term(a[0].degree, c), Merge(a[1..], b[1..], sub));
      }
    }
  }

  /** The coefficient of x^i in a list with a first term. */
  lemma CoeffCons(t: Term, p: seq<Term>, i: nat)
    ensures Coeff([t] + p, i) == if i == t.degree then t.coefficient else Coeff(p, i)
  {
    assert ([t] + p)[1..] == p;
  }

  /** Each coefficient of a merge of canonical lists combines the operands'
      coefficients of that degree. */
  lemma {:induction false} MergeCoeff(a: seq<Term>, b: seq<Term>, sub: bool, i: nat)
    requires Canonical(a) && Canonical(b)
    ensures Coeff(Merge(a, b, sub), i) == Op(Coeff(a, i), Coeff(b, i), sub)
    decreases |a| + |b|
  {
    if a == [] && b == [] {
    } else if a == [] || (b != [] && b[0].degree < a[0].degree) {
      TailCanonical(b);
      MergeCoeff(a, b[1..], sub, i);
      MergeCoeffLow(a, b, sub, i);
    } else if b == [] || a[0].degree < b[0].degree {
      TailCanonical(a);
      MergeCoeff(a[1..], b, sub, i);
      MergeCoeffHigh(a, b, sub, i);
    } else {
      TailCanonical(a);
      TailCanonical(b);
      MergeCoeff(a[1..], b[1..], sub, i);
      MergeCoeffBoth(a, b, sub, i);
    }
  }

  /** The step of MergeCoeff where b holds the smallest degree. */
  lemma MergeCoeffLow(a: seq<Term>, b: seq<Term>, sub: bool, i: nat)
    requires Canonical(a) && Canonical(b) && b != []
    requires a == [] || b[0].degree < a[0].degree
    requires Coeff(Merge(a, b[1..], sub), i) == Op(Coeff(a, i), Coeff(b[1..], i), sub)
    ensures Coeff(Merge(a, b, sub), i) == Op(Coeff(a, i), Coeff(b, i), sub)
  {
    var t := Term(b[0].degree, Op(0, b[0].coefficient, sub));
    assert Merge(a, b, sub) == [t] + Merge(a, b[1..], sub);
    CoeffCons(t, Merge(a, b[1..], sub), i);
    CoeffCons(b[0], b[1..], i);
    assert b == [b[0]] + b[1..];
    if i == b[0].degree {
      CoeffAbove(a, b[0].degree, i);
    }
  }

  /** The step of MergeCoeff where a holds the smallest degree. */
  lemma MergeCoeffHigh(a: seq<Term>, b: seq<Term>, sub: bool, i: nat)
    requires Canonical(a) && Canonical(b) && a != []
    requires b == [] || a[0].degree < b[0].degree
    requires Coeff(Merge(a[1..], b, sub), i) == Op(Coeff(a[1..], i), Coeff(b, i), sub)
    ensures Coeff(Merge(a, b, sub), i) == Op(Coeff(a, i), Coeff(b, i), sub)
  {
    assert Merge(a, b, sub) == [a[0]] + Merge(a[1..], b, sub);
    CoeffCons(a[0], Merge(a[1..], b, sub), i);
    CoeffCons(a[0], a[1..], i);
    assert a == [a[0]] + a[1..];
    if i == a[0].degree {
      CoeffAbove(b, a[0].degree, i);
    }
  }

  /** The step of MergeCoeff where both lists start at the same degree. */
  lemma MergeCoeffBoth(a: seq<Term>, b: seq<Term>, sub: bool, i: nat)
    requires Canonical(a) && Canonical(b) && a != [] && b != []
    requires a[0].degree == b[0].degree
    requires Coeff(Merge(a[1..], b[1..], sub), i) == Op(Coeff(a[1..], i), Coeff(b[1..], i), sub)
    ensures Coeff(Merge(a, b, sub), i) == Op(Coeff(a, i), Coeff(b, i), sub)
  {
    var c := Op(a[0].coefficient, b[0].coefficient, sub);
    var rest := Merge(a[1..], b[1..], sub);
    CoeffCons(a[0], a[1..], i);
    CoeffCons(b[0], b[1..], i);
    assert a == [a[0]] + a[1..];
    assert b == [b[0]] + b[1..];
    if c == 0 {
      assert Merge(a, b, sub) == rest;
      if i == a[0].degree {
        TailCanonical(a);
        TailCanonical(b);
        CoeffAbove(a[1..], a[0].degree, i);
        CoeffAbove(b[1..], a[0].degree, i);
      }
    } else {
      assert Merge(a, b, sub) == [Term(a[0].degree, c)] + rest;
      CoeffCons(Term(a[0].degree, c), rest, i);
    }
  }

  /** Addition is commutative. */
  lemma AddCommutes(a: seq<Term>, b: seq<Term>)
    requires Canonical(a) && Canonical(b)
    ensures Add(a, b) == Add(b, a)
  {
    MergeCanonical(a, b, false);
    MergeCanonical(b, a, false);
    forall i: nat
      ensures Coeff(Add(a, b), i) == Coeff(Add(b, a), i)
    {
      MergeCoeff(a, b, false, i);
      MergeCoeff(b, a, false, i);
    }
    Extensionality(Add(a, b), Add(b, a));
  }

  /** Addition is associative. */
  lemma AddAssociates(a: seq<Term>, b: seq<Term>, c: seq<Term>)
    requires Canonical(a) && Canonical(b) && Canonical(c)
    ensures Add(Add(a, b), c) == Add(a, Add(b, c))
  {
    MergeCanonical(a, b, false);
    MergeCanonical(b, c, false);
    MergeCanonical(Add(a, b), c, false);
    MergeCanonical(a, Add(b, c), false);
    forall i: nat
      ensures Coeff(Add(Add(a, b), c), i) == Coeff(Add(a, Add(b, c)), i)
    {
      AddAssoc(Coeff(a, i), Coeff(b, i), Coeff(c, i));
      MergeCoeff(a, b, false, i);
      MergeCoeff(b, c, false, i);
      MergeCoeff(Add(a, b), c, false, i);
      MergeCoeff(a, Add(b, c), false, i);
    }
    Extensionality(Add(Add(a, b), c), Add(a, Add(b, c)));
  }

  /** Subtracting what was added gives the original back: (a + b) - b = a. */
  lemma AddSubCancel(a: seq<Term>, b: seq<Term>)
    requires Canonical(a) && Canonical(b)
    ensures Sub(Add(a, b), b) == a
  {
    MergeCanonical(a, b, false);
    MergeCanonical(Add(a, b), b, true);
    forall i: nat
      ensures Coeff(Sub(Add(a, b), b), i) == Coeff(a, i)
    {
      MergeCoeff(a, b, false, i);
      MergeCoeff(Add(a, b), b, true, i);
    }
    Extensionality(Sub(Add(a, b), b), a);
  }

  /** Adding the zero polynomial changes nothing. */
  lemma {:induction false} AddZero(a: seq<Term>)
    requires NonZero(a)
    ensures Add(a, []) == a && Add([], a) == a
  {
    if a != [] {
      AddZero(a[1..]);
      assert Add(a, []) == [a[0]] + Add(a[1..], []);
      assert Add([], a) == [Term(a[0].degree, Add7(0, a[0].coefficient))] + Add([], a[1..]);
      assert a == [a[0]] + a[1..];
    }
  }

  // ---------------------------------------------------------------------
  // Evaluation
  // ---------------------------------------------------------------------

  /** `Evaluate(x)`: the sum of coefficient times x to the degree. */
  function Evaluate(p: seq<Term>, x: GF7): GF7 {
    if p == [] then 0
    else Add7(Mul7(p[0].coefficient, Pow7(x, p[0].degree)), Evaluate(p[1..], x))
  }

  /** Scaling distributes over a merge's coefficient operation. */
  lemma ScaleOp(x: GF7, y: GF7, w: GF7, sub: bool)
    ensures Mul7(Op(x, y, sub), w) == Op(Mul7(x, w), Mul7(y, w), sub)
  {
    Distrib(w, x, y);
    MulComm(w, Op(x, y, sub));
    MulComm(w, x);
    MulComm(w, y);
  }

  lemma RegroupLow(ea: GF7, m: GF7, eb: GF7, sub: bool)
    ensures Add7(Op(0, m, sub), Op(ea, eb, sub)) == Op(ea, Add7(m, eb), sub)
  {
  }

  lemma RegroupHigh(t: GF7, ea: GF7, eb: GF7, sub: bool)
    ensures Add7(t, Op(ea, eb, sub)) == Op(Add7(t, ea), eb, sub)
  {
  }

  lemma RegroupBoth(ma: GF7, mb: GF7, ea: GF7, eb: GF7, sub: bool)
    ensures Add7(Op(ma, mb, sub), Op(ea, eb, sub)) == Op(Add7(ma, ea), Add7(mb, eb), sub)
  {
    if sub {
      SubSwap(ma, mb, ea, eb);
    } else {
      AddSwap(ma, mb, ea, eb);
    }
  }

  /** Evaluating a merge combines the evaluations. */
  lemma {:induction false} EvaluateMerge(a: seq<Term>, b: seq<Term>, sub: bool, x: GF7)
    ensures Evaluate(Merge(a, b, sub), x) == Op(Evaluate(a, x), Evaluate(b, x), sub)
    decreases |a| + |b|
  {
    if a == [] && b == [] {
    } else if a == [] || (b != [] && b[0].degree < a[0].degree) {
      EvaluateMerge(a, b[1..], sub, x);
      EvaluateMergeLow(a, b, sub, x);
    } else if b == [] || a[0].degree < b[0].degree {
      EvaluateMerge(a[1..], b, sub, x);
      EvaluateMergeHigh(a, b, sub, x);
    } else {
      EvaluateMerge(a[1..], b[1..], sub, x);
      EvaluateMergeBoth(a, b, sub, x);
    }
  }

  /** The step of EvaluateMerge where b holds the smallest degree. */
  lemma EvaluateMergeLow(a: seq<Term>, b: seq<Term>, sub: bool, x: GF7)
    requires b != [] && (a == [] || b[0].degree < a[0].degree)
    requires Evaluate(Merge(a, b[1..], sub), x) == Op(Evaluate(a, x), Evaluate(b[1..], x), sub)
    ensures Evaluate(Merge(a, b, sub), x) == Op(Evaluate(a, x), Evaluate(b, x), sub)
  {
    var pw := Pow7(x, b[0].degree);
    var t := Term(b[0].degree, Op(0, b[0].coefficient, sub));
    var rest := Merge(a, b[1..], sub);
    assert Merge(a, b, sub) == [t] + rest;
    assert ([t] + rest)[1..] == rest;
    ScaleOp(0, b[0].coefficient, pw, sub);
    RegroupLow(Evaluate(a, x), Mul7(b[0].coefficient, pw), Evaluate(b[1..], x), sub);
  }

  /** The step of EvaluateMerge where a holds the smallest degree. */
  lemma EvaluateMergeHigh(a: seq<Term>, b: seq<Term>, sub: bool, x: GF7)
    requires a != [] && (b == [] || a[0].degree < b[0].degree)
    requires Evaluate(Merge(a[1..], b, sub), x) == Op(Evaluate(a[1..], x), Evaluate(b, x), sub)
    ensures Evaluate(Merge(a, b, sub), x) == Op(Evaluate(a, x), Evaluate(b, x), sub)
  {
    var rest := Merge(a[1..], b, sub);
    assert Merge(a, b, sub) == [a[0]] + rest;
    assert ([a[0]] + rest)[1..] == rest;
    RegroupHigh(Mul7(a[0].coefficient, Pow7(x, a[0].degree)), Evaluate(a[1..], x), Evaluate(b, x), sub);
  }

  /** The step of EvaluateMerge where both lists start at the same degree. */
  lemma EvaluateMergeBoth(a: seq<Term>, b: seq<Term>, sub: bool, x: GF7)
    requires a != [] && b != [] && a[0].degree == b[0].degree
    requires Evaluate(Merge(a[1..], b[1..], sub), x) == Op(Evaluate(a[1..], x), Evaluate(b[1..], x), sub)
    ensures Evaluate(Merge(a, b, sub), x) == Op(Evaluate(a, x), Evaluate(b, x), sub)
  {
    var pw := Pow7(x, a[0].degree);
    var c := Op(a[0].coefficient, b[0].coefficient, sub);
    var rest := Merge(a[1..], b[1..], sub);
    ScaleOp(a[0].coefficient, b[0].coefficient, pw, sub);
    RegroupBoth(Mul7(a[0].coefficient, pw), Mul7(b[0].coefficient, pw),
                Evaluate(a[1..], x), Evaluate(b[1..], x), sub);
    if c == 0 {
      assert Merge(a, b, sub) == rest;
    } else {
      assert Merge(a, b, sub) == [Term(a[0].degree, c)] + rest;
      assert ([Term(a[0].degree, c)] + rest)[1..] == rest;
    }
  }

  /** Evaluation respects addition and subtraction. */
  lemma EvaluateAddSub(a: seq<Term>, b: seq<Term>, x: GF7)
    ensures Evaluate(Add(a, b), x) == Add7(Evaluate(a, x), Evaluate(b, x))
    ensures Evaluate(Sub(a, b), x) == Sub7(Evaluate(a, x), Evaluate(b, x))
  {
    EvaluateMerge(a, b, false, x);
    EvaluateMerge(a, b, true, x);
  }

  // ---------------------------------------------------------------------
  // Multiplication
  // ---------------------------------------------------------------------

  /** A term times a polynomial: every term's coefficient is scaled and its
      degree shifted; products that vanish are dropped. */
  function TermMul(s: Term, b: seq<Term>): seq<Term> {
    if b == [] then []
    else
      var c := Mul7(s.coefficient, b[0].coefficient);
      var rest := TermMul(s, b[1..]);
      if c == 0 then rest else [Term(s.degree + b[0].degree, c)] + rest
  }

  /** `a * b`: the sum of every term of a times b. */
  function Mul(a: seq<Term>, b: seq<Term>): seq<Term> {
    if a == [] then [] else Add(TermMul(a[0], b), Mul(a[1..], b))
  }

  /** Shifting keeps a shifted lower bound. */
  lemma {:induction false} TermMulAbove(s: Term, b: seq<Term>, k: int)
    requires Above(b, k)
    ensures Above(TermMul(s, b), s.degree + k)
  {
    if b != [] {
      TermMulAbove(s, b[1..], k);
    }
  }

  /** A term times a canonical list is canonical. */
  lemma {:induction false} TermMulCanonical(s: Term, b: seq<Term>)
    requires Canonical(b)
    ensures Canonical(TermMul(s, b))
  {
    if b != [] {
      TailCanonical(b);
      TermMulCanonical(s, b[1..]);
      TermMulAbove(s, b[1..], b[0].degree);
      var c := Mul7(s.coefficient, b[0].coefficient);
      if c != 0 {
        ConsCanonical(Term(s.degree + b[0].degree, c), TermMul(s, b[1..]));
      }
    }
  }

  /** The coefficients of a term times a canonical list: those of the list,
      scaled and shifted by the term. */
  lemma {:induction false} TermMulCoeff(s: Term, b: seq<Term>, i: nat)
    requires Canonical(b)
    ensures Coeff(TermMul(s, b), i) ==
      if i >= s.degree then Mul7(s.coefficient, Coeff(b, i - s.degree)) else 0
  {
    if b == [] {
      MulZeroRight(s.coefficient);
    } else {
      TailCanonical(b);
      TermMulCoeff(s, b[1..], i);
      TermMulCoeffStep(s, b, i);
    }
  }

  /** The step of TermMulCoeff for the first term of b. */
  lemma TermMulCoeffStep(s: Term, b: seq<Term>, i: nat)
    requires Canonical(b) && b != []
    requires Coeff(TermMul(s, b[1..]), i) ==
      if i >= s.degree then Mul7(s.coefficient, Coeff(b[1..], i - s.degree)) else 0
    ensures Coeff(TermMul(s, b), i) ==
      if i >= s.degree then Mul7(s.coefficient, Coeff(b, i - s.degree)) else 0
  {
    TermMulFront(s, b, i);
    MulZeroRight(s.coefficient);
    if i >= s.degree {
      CanonicalFront(b, i - s.degree);
    }
  }

  /** The coefficient of x^i in a term times b, by b's first term. */
  lemma TermMulFront(s: Term, b: seq<Term>, i: nat)
    requires b != []
    ensures Mul7(s.coefficient, b[0].coefficient) == 0 ==>
      Coeff(TermMul(s, b), i) == Coeff(TermMul(s, b[1..]), i)
    ensures Mul7(s.coefficient, b[0].coefficient) != 0 ==>
      Coeff(TermMul(s, b), i) ==
        if i == s.degree + b[0].degree then Mul7(s.coefficient, b[0].coefficient)
        else Coeff(TermMul(s, b[1..]), i)
  {
    var c := Mul7(s.coefficient, b[0].coefficient);
    if c != 0 {
      CoeffCons(Term(s.degree + b[0].degree, c), TermMul(s, b[1..]), i);
    }
  }

  /** The coefficient of x^j in a canonical list, by its first term. */
  lemma CanonicalFront(b: seq<Term>, j: nat)
    requires Canonical(b) && b != []
    ensures Coeff(b, j) == if j == b[0].degree then b[0].coefficient else Coeff(b[1..], j)
    ensures Coeff(b[1..], b[0].degree) == 0
  {
    CoeffCons(b[0], b[1..], j);
    assert b == [b[0]] + b[1..];
    TailCanonical(b);
    CoeffAbove(b[1..], b[0].degree, b[0].degree);
  }

  /** A product with a canonical right operand is canonical. */
  lemma {:induction false} MulCanonical(a: seq<Term>, b: seq<Term>)
    requires Canonical(b)
    ensures Canonical(Mul(a, b))
  {
    if a != [] {
      MulCanonical(a[1..], b);
      TermMulCanonical(a[0], b);
      MergeCanonical(TermMul(a[0], b), Mul(a[1..], b), false);
    }
  }

  /** The regrouping behind one step of EvaluateTermMul. */
  lemma TermMulRegroup(sc: GF7, ps: GF7, bc: GF7, pb: GF7, e: GF7)
    ensures Add7(Mul7(Mul7(sc, bc), Mul7(ps, pb)), Mul7(Mul7(sc, ps), e))
         == Mul7(Mul7(sc, ps), Add7(Mul7(bc, pb), e))
  {
    Distrib(Mul7(sc, ps), Mul7(bc, pb), e);
    MulSwap(sc, ps, bc, pb);
  }

  /** Evaluating a term times b scales b's evaluation by the term's value. */
  lemma {:induction false} EvaluateTermMul(s: Term, b: seq<Term>, x: GF7)
    ensures Evaluate(TermMul(s, b), x) ==
      Mul7(Mul7(s.coefficient, Pow7(x, s.degree)), Evaluate(b, x))
  {
    if b == [] {
      MulZeroRight(Mul7(s.coefficient, Pow7(x, s.degree)));
    } else {
      EvaluateTermMul(s, b[1..], x);
      EvaluateTermMulStep(s, b, x);
    }
  }

  lemma EvaluateTermMulStep(s: Term, b: seq<Term>, x: GF7)
    requires b != []
    requires Evaluate(TermMul(s, b[1..]), x) ==
      Mul7(Mul7(s.coefficient, Pow7(x, s.degree)), Evaluate(b[1..], x))
    ensures Evaluate(TermMul(s, b), x) ==
      Mul7(Mul7(s.coefficient, Pow7(x, s.degree)), Evaluate(b, x))
  {
    var ps, pb := Pow7(x, s.degree), Pow7(x, b[0].degree);
    EvaluateTermMulHead(s, b, x);
    PowAdd(x, s.degree, b[0].degree);
    TermMulRegroup(s.coefficient, ps, b[0].coefficient, pb, Evaluate(b[1..], x));
  }

  /** The first product term's contribution to the evaluation, whether or
      not it vanishes. */
  lemma EvaluateTermMulHead(s: Term, b: seq<Term>, x: GF7)
    requires b != []
    ensures Evaluate(TermMul(s, b), x) ==
      Add7(Mul7(Mul7(s.coefficient, b[0].coefficient), Pow7(x, s.degree + b[0].degree)),
           Evaluate(TermMul(s, b[1..]), x))
  {
    var c := Mul7(s.coefficient, b[0].coefficient);
    var rest := TermMul(s, b[1..]);
    if c != 0 {
      assert ([Term(s.degree + b[0].degree, c)] + rest)[1..] == rest;
    }
  }

  /** Evaluation respects multiplication. */
  lemma {:induction false} EvaluateMul(a: seq<Term>, b: seq<Term>, x: GF7)
    ensures Evaluate(Mul(a, b), x) == Mul7(Evaluate(a, x), Evaluate(b, x))
  {
    if a == [] {
    } else {
      EvaluateMul(a[1..], b, x);
      EvaluateTermMul(a[0], b, x);
      EvaluateAddSub(TermMul(a[0], b), Mul(a[1..], b), x);
      DistribAddRight(Mul7(a[0].coefficient, Pow7(x, a[0].degree)), Evaluate(a[1..], x), Evaluate(b, x));
    }
  }

  /** Multiplying by the zero polynomial gives zero, on either side. */
  lemma {:induction false} MulZero(a: seq<Term>)
    ensures Mul(a, []) == [] && Mul([], a) == []
  {
    if a != [] {
      MulZero(a[1..]);
    }
  }

  /** The term 1 * x^0 leaves a canonical list unchanged. */
  lemma {:induction false} TermMulOne(b: seq<Term>)
    requires Canonical(b)
    ensures TermMul(Term(0, 1), b) == b
  {
    if b != [] {
      TailCanonical(b);
      TermMulOne(b[1..]);
      MulOneLeft(b[0].coefficient);
      assert b == [b[0]] + b[1..];
    }
  }

  /** One is a unit on the left. */
  lemma MulOneLeftPoly(a: seq<Term>)
    requires Canonical(a)
    ensures Mul(One(), a) == a
  {
    TermMulOne(a);
    AddZero(a);
    assert One()[1..] == [];
  }

  /** The coefficients of a term times a list with a first term. */
  lemma TermMulCons(s: Term, t: Term, p: seq<Term>, i: nat)
    requires Canonical([t] + p)
    ensures Canonical(p)
    ensures Coeff(TermMul(s, [t] + p), i) ==
      Add7(if i == s.degree + t.degree then Mul7(s.coefficient, t.coefficient) else 0,
           Coeff(TermMul(s, p), i))
  {
    var q := [t] + p;
    assert q[1..] == p;
    TailCanonical(q);
    TermMulCoeff(s, q, i);
    TermMulCoeff(s, p, i);
    if i >= s.degree {
      CanonicalFront(q, i - s.degree);
      MulZeroRight(s.coefficient);
    }
  }

  lemma Regroup3(m: GF7, y: GF7, x: GF7, z: GF7)
    ensures Add7(Add7(m, y), Add7(x, z)) == Add7(Add7(m, x), Add7(y, z))
  {
  }

  /** Multiplying by a list with a first term t: t times the left operand,
      plus the product with the rest. */
  lemma {:induction false} MulConsRight(b: seq<Term>, t: Term, p: seq<Term>)
    requires Canonical(b) && Canonical([t] + p)
    ensures Mul(b, [t] + p) == Add(TermMul(t, b), Mul(b, p))
  {
    TailCanonical([t] + p);
    assert ([t] + p)[1..] == p;
    if b == [] {
    } else {
      TailCanonical(b);
      MulConsRight(b[1..], t, p);
      MulConsRightStep(b, t, p);
    }
  }

  /** The step of MulConsRight for the first term of b. */
  lemma MulConsRightStep(b: seq<Term>, t: Term, p: seq<Term>)
    requires Canonical(b) && Canonical([t] + p) && Canonical(p) && b != []
    requires Mul(b[1..], [t] + p) == Add(TermMul(t, b[1..]), Mul(b[1..], p))
    ensures Mul(b, [t] + p) == Add(TermMul(t, b), Mul(b, p))
  {
    var s := b[0];
    var q := [t] + p;
    var x1 := TermMul(s, q);
    var x2 := TermMul(t, b[1..]);
    var x3 := Mul(b[1..], p);
    var y1 := TermMul(t, b);
    var y2 := TermMul(s, p);
    TailCanonical(b);
    assert b == [s] + b[1..];
    TermMulCanonical(s, q);
    TermMulCanonical(t, b[1..]);
    TermMulCanonical(t, b);
    TermMulCanonical(s, p);
    MulCanonical(b[1..], p);
    MergeCanonical(x2, x3, false);
    MergeCanonical(y2, x3, false);
    MergeCanonical(x1, Add(x2, x3), false);
    MergeCanonical(y1, Add(y2, x3), false);
    assert Mul(b, q) == Add(x1, Add(x2, x3));
    assert Mul(b, p) == Add(y2, x3);
    forall i: nat
      ensures Coeff(Add(x1, Add(x2, x3)), i) == Coeff(Add(y1, Add(y2, x3)), i)
    {
      MergeCoeff(x1, Add(x2, x3), false, i);
      MergeCoeff(x2, x3, false, i);
      MergeCoeff(y1, Add(y2, x3), false, i);
      MergeCoeff(y2, x3, false, i);
      TermMulCons(s, t, p, i);
      TermMulCons(t, s, b[1..], i);
      MulComm(s.coefficient, t.coefficient);
      Regroup3(if i == s.degree + t.degree then Mul7(s.coefficient, t.coefficient) else 0,
               Coeff(y2, i), Coeff(x2, i), Coeff(x3, i));
    }
    Extensionality(Add(x1, Add(x2, x3)), Add(y1, Add(y2, x3)));
  }

  /** Multiplication is commutative. */
  lemma {:induction false} MulCommutes(a: seq<Term>, b: seq<Term>)
    requires Canonical(a) && Canonical(b)
    ensures Mul(a, b) == Mul(b, a)
  {
    if a == [] {
      MulZero(b);
    } else {
      TailCanonical(a);
      MulCommutes(a[1..], b);
      assert a == [a[0]] + a[1..];
      MulConsRight(b, a[0], a[1..]);
    }
  }

  /** One is a unit, and zero annihilates, on either side. */
  lemma MulUnitAndZero(a: seq<Term>)
    requires Canonical(a)
    ensures Mul(a, One()) == a && Mul(One(), a) == a
    ensures Mul(a, Zero()) == Zero() && Mul(Zero(), a) == Zero()
  {
    MulOneLeftPoly(a);
    MulCommutes(a, One());
    MulZero(a);
  }

  /** `Zero()`: no terms. */
  function Zero(): (r: seq<Term>)
    ensures Canonical(r) && forall i: nat :: Coeff(r, i) == 0
  {
    []
  }

  /** `One()`: the single term 1 * x^0. */
  function One(): (r: seq<Term>)
    ensures Canonical(r) && forall i: nat :: Coeff(r, i) == if i == 0 then 1 else 0
  {
    [Term(0, 1)]
  }

  // ---------------------------------------------------------------------
  // Queries
  // ---------------------------------------------------------------------

  /** `IsZero()`: every stored coefficient is zero. */
  predicate IsZero(p: seq<Term>) {
    forall i :: 0 <= i < |p| ==> p[i].coefficient == 0
  }

  /** `IsOne()`: the polynomial is the single term 1 * x^0. */
  predicate IsOne(p: seq<Term>) {
    |p| == 1 && p[0] == Term(0, 1)
  }

  /** `Degree()`: the degree of the last (largest) stored term, 0 for zero. */
  function Degree(p: seq<Term>): nat {
    if p == [] then 0 else p[|p| - 1].degree
  }

  /** On an ascending list, IsZero means every coefficient is zero; on a
      canonical one it means that nothing is stored. */
  lemma IsZeroMeaning(p: seq<Term>)
    requires Ascending(p)
    ensures IsZero(p) <==> forall i: nat :: Coeff(p, i) == 0
    ensures NonZero(p) ==> (IsZero(p) <==> p == [])
  {
    if forall i: nat :: Coeff(p, i) == 0 {
      forall j | 0 <= j < |p|
        ensures p[j].coefficient == 0
      {
        CoeffAt(p, j);
      }
    }
    if NonZero(p) && p != [] {
      assert p[0].coefficient != 0;
    }
  }

  /** On a canonical list, IsOne means the polynomial is the constant 1. */
  lemma IsOneMeaning(p: seq<Term>)
    requires Canonical(p)
    ensures IsOne(p) <==> forall i: nat :: Coeff(p, i) == if i == 0 then 1 else 0
  {
    if forall i: nat :: Coeff(p, i) == if i == 0 then 1 else 0 {
      Extensionality(p, One());
    }
  }

  /** On a canonical list, indexing finds a coefficient exactly when it is
      non-zero, and then finds that coefficient. */
  lemma GetMeaning(p: seq<Term>, i: nat)
    requires Canonical(p)
    ensures Get(p, i) == if Coeff(p, i) != 0 then Some(Coeff(p, i)) else None
  {
  }

  /** The degree is the largest stored exponent: no coefficient above it is
      non-zero, and on a non-zero polynomial the one at it is. */
  lemma DegreeIsLargest(p: seq<Term>)
    requires Canonical(p)
    ensures forall j :: 0 <= j < |p| ==> p[j].degree <= Degree(p)
    ensures forall i: nat :: i > Degree(p) ==> Coeff(p, i) == 0
    ensures p != [] ==> Coeff(p, Degree(p)) != 0
  {
    if p != [] {
      CoeffAt(p, |p| - 1);
    }
  }

  // ---------------------------------------------------------------------
  // Folding
  // ---------------------------------------------------------------------

  /** Coefficient i of `Fold<even>(r)`: r * c[2i] + c[2i + 1] for the even
      fold and c[2i] + r * c[2i + 1] for the odd fold. */
  function FoldCoefficient(p: seq<Term>, r: GF7, even: bool, i: nat): GF7 {
    if even then Add7(Mul7(r, Coeff(p, 2 * i)), Coeff(p, 2 * i + 1))
    else Add7(Coeff(p, 2 * i), Mul7(r, Coeff(p, 2 * i + 1)))
  }

  /** Coefficients 0 .. n - 1 of the fold, in order. */
  function FoldedCoefficients(p: seq<Term>, r: GF7, even: bool, n: nat): (cs: seq<GF7>)
    ensures |cs| == n
    ensures forall i :: 0 <= i < n ==> cs[i] == FoldCoefficient(p, r, even, i)
  {
    if n == 0 then [] else FoldedCoefficients(p, r, even, n - 1) + [FoldCoefficient(p, r, even, n - 1)]
  }

  /** The sparse form of a dense coefficient list: the terms whose
      coefficient is non-zero, in ascending order of degree. */
  function FromDense(cs: seq<GF7>): seq<Term> {
    if cs == [] then []
    else
      var rest := FromDense(cs[..|cs| - 1]);
      var c := cs[|cs| - 1];
      if c == 0 then rest else rest + [Term(|cs| - 1, c)]
  }

  /** `Fold<even>(r)`: pairs of neighbouring coefficients combined with r,
      halving the degree. */
  function Fold(p: seq<Term>, r: GF7, even: bool): seq<Term> {
    FromDense(FoldedCoefficients(p, r, even, Degree(p) / 2 + 1))
  }

  /** A term above every stored degree may be appended to a canonical list. */
  lemma SnocCanonical(p: seq<Term>, t: Term)
    requires Canonical(p) && Below(p, t.degree) && t.coefficient != 0
    ensures Canonical(p + [t])
  {
  }

  /** The coefficient of x^i in a list extended by a term above it. */
  lemma {:induction false} CoeffSnoc(p: seq<Term>, t: Term, i: nat)
    requires Below(p, t.degree)
    ensures Coeff(p + [t], i) == if i == t.degree then t.coefficient else Coeff(p, i)
  {
    if p != [] {
      assert (p + [t])[1..] == p[1..] + [t];
      CoeffSnoc(p[1..], t, i);
    }
  }

  lemma {:induction false} FromDenseShape(cs: seq<GF7>)
    ensures Canonical(FromDense(cs)) && Below(FromDense(cs), |cs|)
  {
    if cs != [] {
      var front := cs[..|cs| - 1];
      FromDenseShape(front);
      if cs[|cs| - 1] != 0 {
        SnocCanonical(FromDense(front), Term(|cs| - 1, cs[|cs| - 1]));
      }
    }
  }

  /** The sparse form keeps every coefficient of the dense list. */
  lemma {:induction false} FromDenseCoeff(cs: seq<GF7>, i: nat)
    ensures Coeff(FromDense(cs), i) == if i < |cs| then cs[i] else 0
  {
    if cs != [] {
      var front := cs[..|cs| - 1];
      FromDenseCoeff(front, i);
      FromDenseShape(front);
      CoeffSnocIf(FromDense(front), cs[|cs| - 1], |cs| - 1, i);
    }
  }

  /** Appending a term that is dropped when zero sets exactly one coefficient. */
  lemma CoeffSnocIf(rest: seq<Term>, c: GF7, d: nat, i: nat)
    requires Below(rest, d)
    ensures Coeff(if c == 0 then rest else rest + [Term(d, c)], i) == if i == d then c else Coeff(rest, i)
  {
    CoeffSnoc(rest, Term(d, c), i);
  }

  /** Folding a canonical polynomial gives a canonical polynomial whose
      coefficient i is FoldCoefficient(i) for every i. */
  lemma FoldCoeff(p: seq<Term>, r: GF7, even: bool, i: nat)
    requires Canonical(p)
    ensures Canonical(Fold(p, r, even))
    ensures Coeff(Fold(p, r, even), i) == FoldCoefficient(p, r, even, i)
  {
    var n := Degree(p) / 2 + 1;
    FromDenseShape(FoldedCoefficients(p, r, even, n));
    FromDenseCoeff(FoldedCoefficients(p, r, even, n), i);
    if i >= n {
      DegreeIsLargest(p);
      assert Coeff(p, 2 * i) == 0 && Coeff(p, 2 * i + 1) == 0;
      MulZeroRight(r);
    }
  }

  // ---------------------------------------------------------------------
  // Vanishing polynomials
  // ---------------------------------------------------------------------

  /** x - root. */
  function Linear(root: GF7): (r: seq<Term>)
    ensures Canonical(r)
  {
    if root == 0 then [Term(1, 1)] else [Term(0, Sub7(0, root)), Term(1, 1)]
  }

  /** `FromRoots(roots)`: the product of x - root over the roots. */
  function FromRoots(roots: seq<GF7>): seq<Term> {
    if roots == [] then One()
    else Mul(FromRoots(roots[..|roots| - 1]), Linear(roots[|roots| - 1]))
  }

  /** `EvaluateVanishingPolyByRoots(roots, x)`: the product of x - root. */
  function VanishingAt(roots: seq<GF7>, x: GF7): GF7 {
    if roots == [] then 1
    else Mul7(VanishingAt(roots[..|roots| - 1], x), Sub7(x, roots[|roots| - 1]))
  }

  lemma EvaluateLinear(root: GF7, x: GF7)
    ensures Evaluate(Linear(root), x) == Sub7(x, root)
  {
    MulOneRight(x);
    MulOneLeft(x);
    assert Pow7(x, 1) == Mul7(x, 1);
    assert [Term(1, 1)][1..] == [];
    assert Evaluate([Term(1, 1)], x) == Add7(Mul7(1, Pow7(x, 1)), 0);
    if root != 0 {
      MulOneRight(Sub7(0, root));
      assert Linear(root)[1..] == [Term(1, 1)];
      assert Evaluate(Linear(root), x) == Add7(Sub7(0, root), x);
    }
  }

  /** FromRoots is canonical and evaluates to the product of x - root, so
      evaluating it agrees with EvaluateVanishingPolyByRoots everywhere. */
  lemma {:induction false} EvaluateFromRoots(roots: seq<GF7>, x: GF7)
    ensures Canonical(FromRoots(roots))
    ensures Evaluate(FromRoots(roots), x) == VanishingAt(roots, x)
  {
    if roots == [] {
      MulOneLeft(1);
    } else {
      var front := roots[..|roots| - 1];
      EvaluateFromRoots(front, x);
      MulCanonical(FromRoots(front), Linear(roots[|roots| - 1]));
      EvaluateMul(FromRoots(front), Linear(roots[|roots| - 1]), x);
      EvaluateLinear(roots[|roots| - 1], x);
    }
  }

  /** Every root is a zero of the vanishing polynomial. */
  lemma {:induction false} RootsVanish(roots: seq<GF7>, i: nat)
    requires i < |roots|
    ensures VanishingAt(roots, roots[i]) == 0
  {
    var front := roots[..|roots| - 1];
    if i == |roots| - 1 {
      MulZeroRight(VanishingAt(front, roots[i]));
    } else {
      assert front[i] == roots[i];
      RootsVanish(front, i);
    }
  }

  // ---------------------------------------------------------------------
  // Printing
  // ---------------------------------------------------------------------

  /** One term as printed: "c * x^d", "c * x" for degree 1, "c" for degree 0. */
  function TermText(t: Term): (r: string)
    ensures r != []
  {
    if t.degree == 0 then DecimalString(t.coefficient)
    else if t.degree == 1 then DecimalString(t.coefficient) + " * x"
    else DecimalString(t.coefficient) + " * x^" + DecimalString(t.degree)
  }

  /** `ToString()`: the terms from the highest degree down, joined by " + ". */
  function ToString(p: seq<Term>): (r: string)
    ensures r == "" <==> p == []
  {
    if p == [] then ""
    else if |p| == 1 then TermText(p[0])
    else TermText(p[|p| - 1]) + " + " + ToString(p[..|p| - 1])
  }

  /** The terms read from the back. */
  function Descending(p: seq<Term>): (r: seq<Term>)
    ensures |r| == |p|
    ensures forall i :: 0 <= i < |p| ==> r[i] == p[|p| - 1 - i]
  {
    seq(|p|, i requires 0 <= i < |p| => p[|p| - 1 - i])
  }

  /** Read from the back, an ascending list has strictly descending degrees. */
  lemma DescendingDegrees(p: seq<Term>)
    requires Ascending(p)
    ensures forall i, j :: 0 <= i < j < |p| ==> Descending(p)[i].degree > Descending(p)[j].degree
  {
  }

  /** The term texts, first to last, with " + " between neighbours. */
  function JoinTerms(ts: seq<Term>): string {
    if ts == [] then ""
    else if |ts| == 1 then TermText(ts[0])
    else TermText(ts[0]) + " + " + JoinTerms(ts[1..])
  }

  /** `ToString` prints the terms in descending order of degree, each as
      `TermText`, separated by " + " and with nothing before the first or
      after the last. */
  lemma {:induction false} ToStringJoinsDescending(p: seq<Term>)
    ensures ToString(p) == JoinTerms(Descending(p))
    decreases |p|
  {
    if |p| == 1 {
      assert Descending(p) == [p[0]];
    } else if |p| > 1 {
      var front := p[..|p| - 1];
      var d := Descending(p);
      ToStringJoinsDescending(front);
      assert d[0] == p[|p| - 1];
      assert d[1..] == Descending(front);
      calc {
        JoinTerms(d);
        TermText(d[0]) + " + " + JoinTerms(d[1..]);
        TermText(p[|p| - 1]) + " + " + ToString(front);
      }
    }
  }

  // ---------------------------------------------------------------------
  // The unit test's polynomials over GF(7)
  // ---------------------------------------------------------------------

  const P0: seq<Term> := [Term(0, 3), Term(2, 1), Term(4, 2)]
  const P1: seq<Term> := [Term(0, 3)]
  const P2: seq<Term> := [Term(3, 5)]
  const P3: seq<Term> := [Term(4, 5)]
  const P4: seq<Term> := [Term(0, 3), Term(1, 4)]
  const P5: seq<Term> := [Term(0, 3), Term(1, 4), Term(2, 1)]
  const P6: seq<Term> := []

  lemma ZeroAndOneExamples()
    ensures IsZero(Zero()) && IsZero([Term(0, 0)]) && IsZero(P6)
    ensures !IsZero(P0) && !IsZero(P1) && !IsZero(P2) && !IsZero(P3) && !IsZero(P4) && !IsZero(P5)
    ensures IsOne(One()) && IsOne([Term(0, 1)]) && !IsOne([Term(1, 1)])
    ensures !IsOne(P0) && !IsOne(P1) && !IsOne(P2) && !IsOne(P3) && !IsOne(P4) && !IsOne(P5) && !IsOne(P6)
  {
    assert P0[0].coefficient != 0;
    assert P1[0].coefficient != 0;
    assert P2[0].coefficient != 0;
    assert P3[0].coefficient != 0;
    assert P4[0].coefficient != 0;
    assert P5[0].coefficient != 0;
  }

  lemma IndexingExamples()
    ensures Get(P0, 0) == Some(3) && Get(P0, 1) == None && Get(P0, 2) == Some(1)
    ensures Get(P0, 3) == None && Get(P0, 4) == Some(2)
    ensures Get(P2, 2) == None && Get(P2, 3) == Some(5) && Get(P3, 4) == Some(5)
    ensures Get(P5, 0) == Some(3) && Get(P5, 1) == Some(4) && Get(P5, 2) == Some(1) && Get(P5, 3) == None
    ensures Get(P6, 0) == None
  {
  }

  lemma DegreeExamples()
    ensures Degree(P0) == 4 && Degree(P1) == 0 && Degree(P2) == 3 && Degree(P3) == 4
    ensures Degree(P4) == 1 && Degree(P5) == 2 && Degree(P6) == 0
  {
  }

  lemma EvaluateExamples()
    ensures Evaluate(P1, 3) == 3 && Evaluate(P2, 3) == 2 && Evaluate(P3, 3) == 6
    ensures Evaluate(P4, 3) == 1 && Evaluate(P6, 3) == 0
  {
    ExampleTails();
  }

  lemma EvaluateLongExamples()
    ensures Evaluate(P0, 3) == 6 && Evaluate(P5, 3) == 3
  {
    ExampleTails();
  }

  lemma DigitTextExamples()
    ensures DecimalString(1) == "1" && DecimalString(2) == "2" && DecimalString(3) == "3"
    ensures DecimalString(4) == "4" && DecimalString(5) == "5"
  {
  }

  lemma TermTextExamples()
    ensures TermText(Term(4, 2)) == "2 * x^4" && TermText(Term(2, 1)) == "1 * x^2"
    ensures TermText(Term(0, 3)) == "3" && TermText(Term(3, 5)) == "5 * x^3"
    ensures TermText(Term(1, 4)) == "4 * x"
  {
    DigitTextExamples();
  }

  lemma ToStringLongExample()
    ensures ToString(P0) == "2 * x^4 + 1 * x^2 + 3"
  {
    TermTextExamples();
    var q := [Term(0, 3), Term(2, 1)];
    assert q[..1] == P1 && P0[..2] == q;
    assert ToString(q) == TermText(q[1]) + " + " + ToString(P1);
    assert ToString(P0) == "2 * x^4" + " + " + ToString(q);
  }

  lemma ToStringQuadraticExample()
    ensures ToString(P5) == "1 * x^2 + 4 * x + 3"
  {
    ToStringExamples();
    TermTextExamples();
    assert P5[..2] == P4;
    assert ToString(P5) == "1 * x^2" + " + " + ToString(P4);
  }

  lemma ToStringExamples()
    ensures ToString(P1) == "3"
    ensures ToString(P2) == "5 * x^3"
    ensures ToString(P3) == "5 * x^4"
    ensures ToString(P4) == "4 * x + 3"
    ensures ToString(P6) == ""
  {
    TermTextExamples();
    assert TermText(Term(4, 5)) == "5 * x^4";
    assert P4[..1] == P1;
  }

  /** The tails a merge with P0, P4 or P5 walks through. */
  lemma ExampleTails()
    ensures P0[1..] == [Term(2, 1), Term(4, 2)] && P0[1..][1..] == [Term(4, 2)] && P0[1..][1..][1..] == []
    ensures P4[1..] == [Term(1, 4)] && P4[1..][1..] == []
    ensures P5[1..] == [Term(1, 4), Term(2, 1)] && P5[1..][1..] == [Term(2, 1)] && P5[1..][1..][1..] == []
    ensures P1[1..] == [] && P2[1..] == [] && P3[1..] == []
  {
  }

  lemma AdditiveExamplesP1()
    ensures Add(P0, P1) == [Term(0, 6), Term(2, 1), Term(4, 2)]
    ensures Sub(P0, P1) == [Term(2, 1), Term(4, 2)]
    ensures Sub(P1, P0) == [Term(2, 6), Term(4, 5)]
  {
    ExampleTails();
  }

  lemma AdditiveExamplesP2()
    ensures Add(P0, P2) == [Term(0, 3), Term(2, 1), Term(3, 5), Term(4, 2)]
    ensures Sub(P0, P2) == [Term(0, 3), Term(2, 1), Term(3, 2), Term(4, 2)]
    ensures Sub(P2, P0) == [Term(0, 4), Term(2, 6), Term(3, 5), Term(4, 5)]
  {
    ExampleTails();
  }

  lemma AdditiveExamplesP3()
    ensures Add(P0, P3) == [Term(0, 3), Term(2, 1)]
    ensures Sub(P0, P3) == [Term(0, 3), Term(2, 1), Term(4, 4)]
    ensures Sub(P3, P0) == [Term(0, 4), Term(2, 6), Term(4, 3)]
  {
    ExampleTails();
  }

  lemma AdditiveExamplesP4()
    ensures Add(P0, P4) == [Term(0, 6), Term(1, 4), Term(2, 1), Term(4, 2)]
    ensures Sub(P0, P4) == [Term(1, 3), Term(2, 1), Term(4, 2)]
    ensures Sub(P4, P0) == [Term(1, 4), Term(2, 6), Term(4, 5)]
  {
    ExampleTails();
  }

  lemma AdditiveExamplesP5()
    ensures Add(P0, P5) == [Term(0, 6), Term(1, 4), Term(2, 2), Term(4, 2)]
    ensures Sub(P0, P5) == [Term(1, 3), Term(4, 2)]
    ensures Sub(P5, P0) == [Term(1, 4), Term(4, 5)]
  {
    ExampleTails();
  }

  lemma AdditiveExamplesP6()
    ensures Add(P0, P6) == P0
    ensures Sub(P0, P6) == P0
    ensures Sub(P6, P0) == [Term(0, 4), Term(2, 6), Term(4, 5)]
  {
    ExampleTails();
  }

  /** A one-term polynomial times b is that term times b. */
  lemma MulSingle(t: Term, b: seq<Term>)
    requires Canonical(b)
    ensures Mul([t], b) == TermMul(t, b)
  {
    assert [t][1..] == [];
    TermMulCanonical(t, b);
    AddZero(TermMul(t, b));
  }

  /** One step of a product of concrete polynomials: the first term's
      product added to the product of the rest. */
  lemma MulStep(t: Term, rest: seq<Term>, b: seq<Term>, r: seq<Term>)
    requires Add(TermMul(t, b), Mul(rest, b)) == r
    ensures Mul([t] + rest, b) == r
  {
    assert ([t] + rest)[0] == t && ([t] + rest)[1..] == rest;
  }

  lemma MultiplicativeExample()
    ensures Mul([Term(0, 3), Term(1, 1)], [Term(0, 5), Term(1, 2), Term(2, 5)])
         == [Term(0, 1), Term(1, 4), Term(2, 3), Term(3, 5)]
  {
    var b := [Term(0, 5), Term(1, 2), Term(2, 5)];
    assert TermMul(Term(0, 3), b) == [Term(0, 1), Term(1, 6), Term(2, 1)];
    assert TermMul(Term(1, 1), b) == [Term(1, 5), Term(2, 2), Term(3, 5)];
    MulSingle(Term(1, 1), b);
    MultiplicativeSum();
    MulStep(Term(0, 3), [Term(1, 1)], b, [Term(0, 1), Term(1, 4), Term(2, 3), Term(3, 5)]);
  }

  lemma MultiplicativeSum()
    ensures Add([Term(0, 1), Term(1, 6), Term(2, 1)], [Term(1, 5), Term(2, 2), Term(3, 5)])
         == [Term(0, 1), Term(1, 4), Term(2, 3), Term(3, 5)]
  {
  }

  lemma QuadraticSums()
    ensures Add([Term(0, 2), Term(1, 6)], [Term(1, 5), Term(2, 1)]) == [Term(0, 2), Term(1, 4), Term(2, 1)]
    ensures Add([Term(1, 4), Term(2, 4)], [Term(2, 1), Term(3, 1)]) == [Term(1, 4), Term(2, 5), Term(3, 1)]
  {
  }

  lemma CubicSums()
    ensures Add([Term(0, 2), Term(1, 2)], [Term(1, 4), Term(2, 5), Term(3, 1)])
         == [Term(0, 2), Term(1, 6), Term(2, 5), Term(3, 1)]
    ensures Add([Term(2, 3), Term(3, 5)], [Term(3, 2), Term(4, 1)]) == [Term(2, 3), Term(4, 1)]
  {
  }

  lemma QuarticSums()
    ensures Add([Term(1, 5), Term(2, 6)], [Term(2, 3), Term(4, 1)]) == [Term(1, 5), Term(2, 2), Term(4, 1)]
    ensures Add([Term(0, 4), Term(1, 2)], [Term(1, 5), Term(2, 2), Term(4, 1)])
         == [Term(0, 4), Term(2, 2), Term(4, 1)]
  {
  }

  lemma QuarticProducts()
    ensures TermMul(Term(0, 2), Linear(5)) == [Term(0, 4), Term(1, 2)]
    ensures TermMul(Term(1, 6), Linear(5)) == [Term(1, 5), Term(2, 6)]
    ensures TermMul(Term(2, 5), Linear(5)) == [Term(2, 3), Term(3, 5)]
    ensures TermMul(Term(3, 1), Linear(5)) == [Term(3, 2), Term(4, 1)]
  {
  }

  /** (x - 1)(x - 2) = x^2 + 4x + 2 over GF(7). */
  lemma FromRootsQuadraticExample()
    ensures FromRoots([1, 2]) == [Term(0, 2), Term(1, 4), Term(2, 1)]
  {
    assert [1, 2][..1] == [1] && [1][..0] == [];
    MulOneLeftPoly(Linear(1));
    assert FromRoots([1]) == [Term(0, 6)] + [Term(1, 1)];
    var l := Linear(2);
    assert TermMul(Term(0, 6), l) == [Term(0, 2), Term(1, 6)];
    assert TermMul(Term(1, 1), l) == [Term(1, 5), Term(2, 1)];
    MulSingle(Term(1, 1), l);
    QuadraticSums();
    MulStep(Term(0, 6), [Term(1, 1)], l, [Term(0, 2), Term(1, 4), Term(2, 1)]);
  }

  /** (x - 1)(x - 2)(x + 1) = x^3 + 5x^2 + 6x + 2 over GF(7). */
  lemma FromRootsCubicExample()
    ensures FromRoots([1, 2, 6]) == [Term(0, 2), Term(1, 6), Term(2, 5), Term(3, 1)]
  {
    assert [1, 2, 6][..2] == [1, 2];
    FromRootsQuadraticExample();
    var l := Linear(6);
    assert TermMul(Term(0, 2), l) == [Term(0, 2), Term(1, 2)];
    assert TermMul(Term(1, 4), l) == [Term(1, 4), Term(2, 4)];
    assert TermMul(Term(2, 1), l) == [Term(2, 1), Term(3, 1)];
    MulSingle(Term(2, 1), l);
    QuadraticSums();
    CubicSums();
    MulStep(Term(1, 4), [Term(2, 1)], l, [Term(1, 4), Term(2, 5), Term(3, 1)]);
    assert [Term(0, 2), Term(1, 4), Term(2, 1)] == [Term(0, 2)] + [Term(1, 4), Term(2, 1)];
    MulStep(Term(0, 2), [Term(1, 4), Term(2, 1)], l, [Term(0, 2), Term(1, 6), Term(2, 5), Term(3, 1)]);
  }

  /** (x - 1)(x - 2)(x + 1)(x + 2) = x^4 + 2x^2 + 4 over GF(7). */
  lemma FromRootsExample()
    ensures FromRoots([1, 2, 6, 5]) == [Term(0, 4), Term(2, 2), Term(4, 1)]
  {
    assert [1, 2, 6, 5][..3] == [1, 2, 6];
    FromRootsCubicExample();
    var l := Linear(5);
    QuarticProducts();
    MulSingle(Term(3, 1), l);
    CubicSums();
    QuarticSums();
    MulStep(Term(2, 5), [Term(3, 1)], l, [Term(2, 3), Term(4, 1)]);
    assert [Term(1, 6), Term(2, 5), Term(3, 1)] == [Term(1, 6)] + [Term(2, 5), Term(3, 1)];
    MulStep(Term(1, 6), [Term(2, 5), Term(3, 1)], l, [Term(1, 5), Term(2, 2), Term(4, 1)]);
    assert [Term(0, 2), Term(1, 6), Term(2, 5), Term(3, 1)] == [Term(0, 2)] + [Term(1, 6), Term(2, 5), Term(3, 1)];
    MulStep(Term(0, 2), [Term(1, 6), Term(2, 5), Term(3, 1)], l, [Term(0, 4), Term(2, 2), Term(4, 1)]);
  }
}
