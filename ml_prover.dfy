/** The prover of the multilinear sumcheck protocol (`IPForMLSumcheck`):
    `ProverInit` builds the prover state from a `ListOfProductsOfPolynomials`
    and `ProveRound` answers one verifier message per round. In round i the
    message lists, for t = 0 .. max_multiplicands, the sum over the remaining
    hypercube of the polynomial with its current first variable set to t.

    Fixing a table's first variable at a verifier challenge
    (`MultilinearDenseEvaluations::FixVariables`) is not part of this model;
    it is the parameter `fix`. */
module MlProver {
  import opened Common
  import opened SumcheckData

  /** Every table has at least m entries. */
  predicate TablesAtLeast(tables: seq<seq<int>>, m: nat) {
    forall j | 0 <= j < |tables| :: m <= |tables[j]|
  }

  /** Every table has exactly m entries. */
  predicate TablesSized(tables: seq<seq<int>>, m: nat) {
    forall j | 0 <= j < |tables| :: |tables[j]| == m
  }

  predicate IndicesIn(indices: seq<nat>, count: nat) {
    forall j | 0 <= j < |indices| :: indices[j] < count
  }

  /** Entry x of every table: the multiplicands' values at hypercube
      point x. */
  function Column(tables: seq<seq<int>>, x: nat): (r: seq<int>)
    requires TablesAtLeast(tables, x + 1)
    ensures |r| == |tables| && forall j | 0 <= j < |tables| :: r[j] == tables[j][x]
  {
    seq(|tables|, j requires 0 <= j < |tables| => tables[j][x])
  }

  /** The reference the messages are judged against: the sum of the
      polynomial over the first m points of the current tables. */
  function HypercubeSum(products: seq<Product>, tables: seq<seq<int>>, m: nat): int
    requires IndicesBelow(products, |tables|) && TablesAtLeast(tables, m)
    decreases m
  {
    if m == 0 then 0 else HypercubeSum(products, tables, m - 1) + SumValue(products, Column(tables, m - 1))
  }

  // ---------------------------------------------------------------------
  // One round's message.

  /** A table restricted to the pair (2b, 2b + 1) and extended along the
      line through it: `start` after t steps of `step`. */
  function Line(table: seq<int>, b: nat, t: int): int
    requires 2 * b + 1 < |table|
  {
    table[2 * b] + t * (table[2 * b + 1] - table[2 * b])
  }

  /** Entry t of `product` after multiplying in every indexed table, when
      the entry starts at `init`. */
  function ProductAt(init: int, tables: seq<seq<int>>, indices: seq<nat>, b: nat, t: int): int
    requires IndicesIn(indices, |tables|) && TablesAtLeast(tables, 2 * b + 2)
    decreases |indices|
  {
    if indices == [] then init
    else ProductAt(init, tables, indices[..|indices| - 1], b, t) * Line(tables[indices[|indices| - 1]], b, t)
  }

  /** The contribution of all products at pair b. */
  function RoundTerms(products: seq<Product>, tables: seq<seq<int>>, b: nat, t: int): int
    requires IndicesBelow(products, |tables|) && TablesAtLeast(tables, 2 * b + 2)
    decreases |products|
  {
    if products == [] then 0
    else
      var p := products[|products| - 1];
      RoundTerms(products[..|products| - 1], tables, b, t) + ProductAt(p.coefficient, tables, p.indices, b, t)
  }

  /** Entry t of `products_sum` after the pairs 0 .. n - 1. */
  function CubeSum(products: seq<Product>, tables: seq<seq<int>>, n: nat, t: int): int
    requires IndicesBelow(products, |tables|) && TablesAtLeast(tables, 2 * n)
    decreases n
  {
    if n == 0 then 0 else CubeSum(products, tables, n - 1, t) + RoundTerms(products, tables, n - 1, t)
  }

  /** The message of a round over n pairs: one entry per t = 0 .. degree. */
  function RoundMessage(products: seq<Product>, tables: seq<seq<int>>, n: nat, degree: nat): (r: seq<int>)
    requires IndicesBelow(products, |tables|) && TablesAtLeast(tables, 2 * n)
    ensures |r| == degree + 1
    ensures forall t | 0 <= t <= degree :: r[t] == CubeSum(products, tables, n, t)
  {
    seq(degree + 1, t requires 0 <= t <= degree => CubeSum(products, tables, n, t))
  }

  /** At t = 0 and t = 1 the line passes through the pair's own entries. */
  lemma {:induction false} ProductAtEnds(init: int, tables: seq<seq<int>>, indices: seq<nat>, b: nat)
    requires IndicesIn(indices, |tables|) && TablesAtLeast(tables, 2 * b + 2)
    ensures ProductAt(init, tables, indices, b, 0) == TermValue(init, indices, Column(tables, 2 * b))
    ensures ProductAt(init, tables, indices, b, 1) == TermValue(init, indices, Column(tables, 2 * b + 1))
    decreases |indices|
  {
    if indices != [] {
      ProductAtEnds(init, tables, indices[..|indices| - 1], b);
    }
  }

  lemma {:induction false} RoundTermsEnds(products: seq<Product>, tables: seq<seq<int>>, b: nat)
    requires IndicesBelow(products, |tables|) && TablesAtLeast(tables, 2 * b + 2)
    ensures RoundTerms(products, tables, b, 0) == SumValue(products, Column(tables, 2 * b))
    ensures RoundTerms(products, tables, b, 1) == SumValue(products, Column(tables, 2 * b + 1))
    decreases |products|
  {
    if products != [] {
      var p := products[|products| - 1];
      RoundTermsEnds(products[..|products| - 1], tables, b);
      ProductAtEnds(p.coefficient, tables, p.indices, b);
    }
  }

  lemma {:induction false} CubeSumEnds(products: seq<Product>, tables: seq<seq<int>>, n: nat)
    requires IndicesBelow(products, |tables|) && TablesAtLeast(tables, 2 * n)
    ensures CubeSum(products, tables, n, 0) + CubeSum(products, tables, n, 1) == HypercubeSum(products, tables, 2 * n)
    decreases n
  {
    if n > 0 {
      CubeSumEnds(products, tables, n - 1);
      RoundTermsEnds(products, tables, n - 1);
    }
  }

  /** The sumcheck identity a round message must satisfy: its entries at
      t = 0 and t = 1 add up to the sum of the polynomial over all 2n points
      of the current tables. */
  lemma {:induction false} MessageSumcheck(products: seq<Product>, tables: seq<seq<int>>, n: nat, degree: nat)
    requires IndicesBelow(products, |tables|) && TablesAtLeast(tables, 2 * n)
    requires degree >= 1
    ensures var msg := RoundMessage(products, tables, n, degree);
      msg[0] + msg[1] == HypercubeSum(products, tables, 2 * n)
  {
    CubeSumEnds(products, tables, n);
  }

  // ---------------------------------------------------------------------
  // The message as the source computes it: every entry of `product`
  // starts at zero instead of at the coefficient.

  /** Every coefficient replaced by zero. */
  function ZeroCoefficients(products: seq<Product>): (r: seq<Product>)
    ensures |r| == |products|
    ensures forall k | 0 <= k < |products| :: r[k] == Product(0, products[k].indices)
  {
    seq(|products|, k requires 0 <= k < |products| => Product(0, products[k].indices))
  }

  /** The message as written: starting each product at zero is the same as
      computing the message of the products with zero coefficients. */
  function RoundMessageAsWritten(products: seq<Product>, tables: seq<seq<int>>, n: nat, degree: nat): (r: seq<int>)
    requires IndicesBelow(products, |tables|) && TablesAtLeast(tables, 2 * n)
    ensures |r| == degree + 1
  {
    var zeroed := ZeroCoefficients(products);
    assert IndicesBelow(zeroed, |tables|);
    RoundMessage(zeroed, tables, n, degree)
  }

  lemma {:induction false} ProductAtZero(tables: seq<seq<int>>, indices: seq<nat>, b: nat, t: int)
    requires IndicesIn(indices, |tables|) && TablesAtLeast(tables, 2 * b + 2)
    ensures ProductAt(0, tables, indices, b, t) == 0
    decreases |indices|
  {
    if indices != [] {
      ProductAtZero(tables, indices[..|indices| - 1], b, t);
    }
  }

  lemma {:induction false} RoundTermsZero(products: seq<Product>, tables: seq<seq<int>>, b: nat, t: int)
    requires IndicesBelow(products, |tables|) && TablesAtLeast(tables, 2 * b + 2)
    requires forall k | 0 <= k < |products| :: products[k].coefficient == 0
    ensures RoundTerms(products, tables, b, t) == 0
    decreases |products|
  {
    if products != [] {
      var p := products[|products| - 1];
      RoundTermsZero(products[..|products| - 1], tables, b, t);
      ProductAtZero(tables, p.indices, b, t);
    }
  }

  lemma {:induction false} CubeSumZero(products: seq<Product>, tables: seq<seq<int>>, n: nat, t: int)
    requires IndicesBelow(products, |tables|) && TablesAtLeast(tables, 2 * n)
    requires forall k | 0 <= k < |products| :: products[k].coefficient == 0
    ensures CubeSum(products, tables, n, t) == 0
    decreases n
  {
    if n > 0 {
      CubeSumZero(products, tables, n - 1, t);
      RoundTermsZero(products, tables, n - 1, t);
    }
  }

  /** As written, every message is all zeros, whatever the polynomial. */
  lemma {:induction false} AsWrittenMessageIsZero(products: seq<Product>, tables: seq<seq<int>>, n: nat, degree: nat)
    requires IndicesBelow(products, |tables|) && TablesAtLeast(tables, 2 * n)
    ensures forall t | 0 <= t <= degree :: RoundMessageAsWritten(products, tables, n, degree)[t] == 0
  {
    var zeroed := ZeroCoefficients(products);
    assert IndicesBelow(zeroed, |tables|);
    forall t | 0 <= t <= degree
      ensures RoundMessageAsWritten(products, tables, n, degree)[t] == 0
    {
      CubeSumZero(zeroed, tables, n, t);
    }
  }

  /** One product with coefficient 1 of one table [1, 1]: the polynomial
      sums to 2 over its two points, but the message as written is [0, 0],
      which fails the sumcheck identity. */
  lemma AsWrittenCounterexample()
    ensures HypercubeSum([Product(1, [0])], [[1, 1]], 2) == 2
    ensures RoundMessageAsWritten([Product(1, [0])], [[1, 1]], 1, 1) == [0, 0]
  {
    var products := [Product(1, [0])];
    var tables := [[1, 1]];
    assert Column(tables, 0) == [1] && Column(tables, 1) == [1];
    assert [Product(1, [0])][..0] == [];
    assert TermValue(1, [0], [1]) == 1 by {
      assert [0][..0] == [];
    }
    AsWrittenMessageIsZero(products, tables, 1, 1);
  }

  // ---------------------------------------------------------------------
  // The prover state and its round state machine.

  datatype ProverStateValue = ProverStateValue(
    randomness: seq<int>,
    listOfProducts: seq<Product>,
    tables: seq<seq<int>>,
    numVars: nat,
    maxMultiplicands: nat,
    round: nat,
    errorFlag: bool)

  /** `ProverInit`: the error flag is raised for a polynomial without
      variables, and the tables are copied from the multiplicands only
      otherwise. */
  function InitValue(products: seq<Product>, flat: seq<DenseExtension>, numVariables: nat, maxMultiplicands: nat): (r: ProverStateValue)
    ensures r.errorFlag <==> numVariables == 0
    ensures r.round == 0 && r.randomness == []
    ensures r.listOfProducts == products && r.numVars == numVariables && r.maxMultiplicands == maxMultiplicands
    ensures numVariables == 0 ==> r.tables == []
    ensures numVariables > 0 ==> |r.tables| == |flat| && forall j | 0 <= j < |flat| :: r.tables[j] == flat[j].evaluations
  {
    var tables := if numVariables == 0 then [] else seq(|flat|, j requires 0 <= j < |flat| => flat[j].evaluations);
    ProverStateValue([], products, tables, numVariables, maxMultiplicands, 0, numVariables == 0)
  }

  /** A polynomial of four variables is accepted by `ProverInit` and keeps
      its number of variables. */
  lemma ProverInitFourVariables()
    ensures !InitValue([], [], 4, 0).errorFlag && InitValue([], [], 4, 0).numVars == 4
  {
  }

  function FixAll(tables: seq<seq<int>>, fix: (seq<int>, int) -> seq<int>, r: int): (res: seq<seq<int>>)
    ensures |res| == |tables| && forall j | 0 <= j < |tables| :: res[j] == fix(tables[j], r)
  {
    seq(|tables|, j requires 0 <= j < |tables| => fix(tables[j], r))
  }

  /** A message is refused without any other change: after an earlier
      error, at round 0 with a message, or later without one. */
  predicate Refused(s: ProverStateValue, vMsg: Option<int>) {
    s.errorFlag || (vMsg.Some? && s.round == 0) || (vMsg.None? && s.round > 0)
  }

  /** A verifier message taken in: its randomness is appended and every
      table is fixed at `randomness[round - 1]`. */
  function Received(s: ProverStateValue, vMsg: Option<int>, fix: (seq<int>, int) -> seq<int>): ProverStateValue
    requires vMsg.Some? ==> 1 <= s.round <= |s.randomness| + 1
  {
    if vMsg.None? then s
    else
      var randomness := s.randomness + [vMsg.value];
      s.(randomness := randomness, tables := FixAll(s.tables, fix, randomness[s.round - 1]))
  }

  /** What the source needs to stay within its vectors: the randomness it
      reads back exists, and on a round that sends a message every index is
      a table, every table holds the pairs read, and the shift
      `1 << (num_vars - round)` stays inside 64 bits. */
  predicate RoundDefined(s: ProverStateValue, vMsg: Option<int>, fix: (seq<int>, int) -> seq<int>) {
    Refused(s, vMsg)
    || (&& (vMsg.Some? ==> s.round <= |s.randomness| + 1)
        && var s1 := Received(s, vMsg, fix);
           s1.round + 1 <= s1.numVars ==>
             && s1.numVars - (s1.round + 1) < 64
             && IndicesBelow(s1.listOfProducts, |s1.tables|)
             && TablesAtLeast(s1.tables, 2 * Pow2(s1.numVars - (s1.round + 1))))
  }

  /** `ProveRound` on values: the new state and the message. */
  function ProveRoundSpec(s: ProverStateValue, vMsg: Option<int>, fix: (seq<int>, int) -> seq<int>): (ProverStateValue, seq<int>)
    requires RoundDefined(s, vMsg, fix)
  {
    if s.errorFlag then (s, [])
    else if vMsg.Some? && s.round == 0 then (s.(errorFlag := true), [])
    else if vMsg.None? && s.round > 0 then (s.(errorFlag := true), [])
    else
      var s1 := Received(s, vMsg, fix);
      var s2 := s1.(round := s1.round + 1);
      if s2.round > s2.numVars then (s2.(errorFlag := true), [])
      else (s2, RoundMessage(s2.listOfProducts, s2.tables, Pow2(s2.numVars - s2.round), s2.maxMultiplicands))
  }

  /** One round's bookkeeping: a refused message only raises the flag; an
      accepted one advances the round by one, appends the randomness it
      carries, raises the flag exactly when the rounds are used up, and
      otherwise answers with max_multiplicands + 1 entries that satisfy the
      sumcheck identity over the tables after fixing. */
  lemma RoundBookkeeping(s: ProverStateValue, vMsg: Option<int>, fix: (seq<int>, int) -> seq<int>)
    requires RoundDefined(s, vMsg, fix)
    ensures var (s', msg) := ProveRoundSpec(s, vMsg, fix);
      && (Refused(s, vMsg) ==> s' == s.(errorFlag := true) && msg == [])
      && (!Refused(s, vMsg) ==>
            && s'.round == s.round + 1
            && s'.randomness == s.randomness + (if vMsg.Some? then [vMsg.value] else [])
            && s'.listOfProducts == s.listOfProducts && s'.numVars == s.numVars
            && s'.maxMultiplicands == s.maxMultiplicands
            && (s'.errorFlag <==> s.round + 1 > s.numVars)
            && (s'.errorFlag ==> msg == [])
            && (!s'.errorFlag ==> |msg| == s.maxMultiplicands + 1))
  {
  }

  lemma {:induction false} AcceptedMessageSumcheck(s: ProverStateValue, vMsg: Option<int>, fix: (seq<int>, int) -> seq<int>)
    requires RoundDefined(s, vMsg, fix)
    requires !Refused(s, vMsg) && s.round + 1 <= s.numVars && s.maxMultiplicands >= 1
    ensures var (s', msg) := ProveRoundSpec(s, vMsg, fix);
      && IndicesBelow(s'.listOfProducts, |s'.tables|)
      && TablesAtLeast(s'.tables, 2 * Pow2(s'.numVars - s'.round))
      && msg[0] + msg[1] == HypercubeSum(s'.listOfProducts, s'.tables, 2 * Pow2(s'.numVars - s'.round))
  {
    var s' := ProveRoundSpec(s, vMsg, fix).0;
    MessageSumcheck(s'.listOfProducts, s'.tables, Pow2(s'.numVars - s'.round), s'.maxMultiplicands);
  }

  /** After the first round there is exactly one randomness value per
      answered verifier message. */
  predicate RandomnessTracksRound(s: ProverStateValue) {
    |s.randomness| == if s.round == 0 then 0 else s.round - 1
  }

  lemma {:induction false} RoundKeepsRandomnessTracking(s: ProverStateValue, vMsg: Option<int>, fix: (seq<int>, int) -> seq<int>)
    requires RoundDefined(s, vMsg, fix) && RandomnessTracksRound(s)
    ensures RandomnessTracksRound(ProveRoundSpec(s, vMsg, fix).0)
  {
  }

  /** With the randomness tracking the round, every table is fixed at the
      value the verifier just sent. */
  lemma {:induction false} FixedAtMessage(s: ProverStateValue, r: int, fix: (seq<int>, int) -> seq<int>)
    requires RandomnessTracksRound(s) && s.round >= 1
    ensures Received(s, Some(r), fix).tables == FixAll(s.tables, fix, r)
  {
    assert (s.randomness + [r])[s.round - 1] == r;
  }

  // ---------------------------------------------------------------------
  // Several rounds.

  predicate RunDefined(s: ProverStateValue, msgs: seq<Option<int>>, fix: (seq<int>, int) -> seq<int>)
    decreases |msgs|
  {
    msgs == [] || (RoundDefined(s, msgs[0], fix) && RunDefined(ProveRoundSpec(s, msgs[0], fix).0, msgs[1..], fix))
  }

  /** The rounds one after another: the final state and every message. */
  function Run(s: ProverStateValue, msgs: seq<Option<int>>, fix: (seq<int>, int) -> seq<int>): (r: (ProverStateValue, seq<seq<int>>))
    requires RunDefined(s, msgs, fix)
    ensures |r.1| == |msgs|
    decreases |msgs|
  {
    if msgs == [] then (s, [])
    else
      var (s1, m) := ProveRoundSpec(s, msgs[0], fix);
      var (s2, ms) := Run(s1, msgs[1..], fix);
      (s2, [m] + ms)
  }

  /** Once raised, the error flag stays raised: every later round is
      refused, answers with an empty message and changes nothing. */
  lemma {:induction false} ErrorIsSticky(s: ProverStateValue, msgs: seq<Option<int>>, fix: (seq<int>, int) -> seq<int>)
    requires s.errorFlag
    ensures RunDefined(s, msgs, fix)
    ensures Run(s, msgs, fix).0 == s
    ensures forall k | 0 <= k < |msgs| :: Run(s, msgs, fix).1[k] == []
    decreases |msgs|
  {
    if msgs != [] {
      ErrorIsSticky(s, msgs[1..], fix);
      var ms := Run(s, msgs[1..], fix).1;
      assert forall k | 1 <= k < |msgs| :: ([[]] + ms)[k] == ms[k - 1];
    }
  }

  /** The messages of an honest verifier: none in round 0, a random value in
      each later round. */
  function Challenges(rs: seq<int>): (r: seq<Option<int>>)
    ensures |r| == |rs| && forall k | 0 <= k < |rs| :: r[k] == Some(rs[k])
  {
    seq(|rs|, k requires 0 <= k < |rs| => Some(rs[k]))
  }

  /** The state of the prover between rounds of an honest run: past round 0,
      no error, one randomness value per round after the first, and tables
      fixed once per answered round, each halving the table. */
  predicate Midway(s: ProverStateValue) {
    && !s.errorFlag
    && 1 <= s.round <= s.numVars <= 64
    && RandomnessTracksRound(s)
    && IndicesBelow(s.listOfProducts, |s.tables|)
    && TablesSized(s.tables, Pow2(s.numVars - s.round + 1))
  }

  ghost predicate Halving(fix: (seq<int>, int) -> seq<int>) {
    forall t: seq<int>, r: int :: |fix(t, r)| == |t| / 2
  }

  lemma {:induction false} MidwayStep(s: ProverStateValue, r: int, fix: (seq<int>, int) -> seq<int>)
    requires Midway(s) && s.round < s.numVars && Halving(fix)
    ensures RoundDefined(s, Some(r), fix)
    ensures var (s', msg) := ProveRoundSpec(s, Some(r), fix);
      && Midway(s')
      && s'.round == s.round + 1 && s'.randomness == s.randomness + [r]
      && s'.numVars == s.numVars && s'.maxMultiplicands == s.maxMultiplicands
      && |msg| == s.maxMultiplicands + 1
  {
    var s1 := Received(s, Some(r), fix);
    FixedAtMessage(s, r, fix);
    var k := s.numVars - s.round;
    assert Pow2(k + 1) / 2 == Pow2(k);
    assert TablesSized(s1.tables, Pow2(k));
    assert 2 * Pow2(s1.numVars - (s1.round + 1)) == Pow2(k);
  }

  /** Honest rounds after the first: each is accepted, the round advances by
      one, the randomness collects the challenges in order, and each answer
      has max_multiplicands + 1 entries. */
  lemma {:induction false} HonestRounds(s: ProverStateValue, rs: seq<int>, fix: (seq<int>, int) -> seq<int>)
    requires Midway(s) && s.round + |rs| <= s.numVars && Halving(fix)
    ensures RunDefined(s, Challenges(rs), fix)
    ensures var (s', msgs) := Run(s, Challenges(rs), fix);
      && Midway(s')
      && s'.round == s.round + |rs| && s'.randomness == s.randomness + rs
      && s'.numVars == s.numVars && s'.maxMultiplicands == s.maxMultiplicands
      && forall k | 0 <= k < |rs| :: |msgs[k]| == s.maxMultiplicands + 1
    decreases |rs|
  {
    if rs != [] {
      MidwayStep(s, rs[0], fix);
      var (s1, m) := ProveRoundSpec(s, Some(rs[0]), fix);
      assert Challenges(rs)[1..] == Challenges(rs[1..]);
      HonestRounds(s1, rs[1..], fix);
      var ms := Run(s1, Challenges(rs[1..]), fix).1;
      assert forall k | 1 <= k < |rs| :: ([m] + ms)[k] == ms[k - 1];
      AppendAssoc(s.randomness, [rs[0]], rs[1..]);
      assert [rs[0]] + rs[1..] == rs;
    }
  }

  /** Round 0 of a fresh prover with n >= 1 variables and tables of 2^n
      evaluations, without a verifier message, is accepted. */
  lemma {:induction false} FirstRound(
    products: seq<Product>, flat: seq<DenseExtension>, numVariables: nat, maxMultiplicands: nat,
    fix: (seq<int>, int) -> seq<int>)
    requires 1 <= numVariables <= 64
    requires IndicesBelow(products, |flat|)
    requires forall j | 0 <= j < |flat| :: |flat[j].evaluations| == Pow2(numVariables)
    ensures var s := InitValue(products, flat, numVariables, maxMultiplicands);
      && RoundDefined(s, None, fix)
      && var (s1, msg) := ProveRoundSpec(s, None, fix);
         && Midway(s1) && s1.round == 1 && s1.randomness == [] && s1.numVars == numVariables
         && s1.maxMultiplicands == maxMultiplicands && |msg| == maxMultiplicands + 1
  {
    var s := InitValue(products, flat, numVariables, maxMultiplicands);
    assert 2 * Pow2(numVariables - 1) == Pow2(numVariables);
    assert TablesSized(s.tables, Pow2(numVariables));
  }

  /** Once the last round is answered, any further round raises the error
      flag. */
  lemma {:induction false} RoundAfterLast(s: ProverStateValue, vMsg: Option<int>, fix: (seq<int>, int) -> seq<int>)
    requires Midway(s) && s.round == s.numVars
    ensures RoundDefined(s, vMsg, fix) && ProveRoundSpec(s, vMsg, fix).0.errorFlag
  {
  }

  /** A whole honest run: from a fresh prover of n >= 1 variables whose
      tables hold 2^n evaluations, the rounds 0 .. n - 1 are all accepted,
      the randomness ends as the n - 1 challenges, and every answer has
      max_multiplicands + 1 entries. One round more raises the error flag. */
  lemma {:induction false} HonestRun(
    products: seq<Product>, flat: seq<DenseExtension>, numVariables: nat, maxMultiplicands: nat,
    rs: seq<int>, extra: Option<int>, fix: (seq<int>, int) -> seq<int>)
    requires 1 <= numVariables <= 64 && |rs| == numVariables - 1
    requires IndicesBelow(products, |flat|)
    requires forall j | 0 <= j < |flat| :: |flat[j].evaluations| == Pow2(numVariables)
    requires Halving(fix)
    ensures var s := InitValue(products, flat, numVariables, maxMultiplicands);
      && RunDefined(s, [None] + Challenges(rs), fix)
      && var (s', msgs) := Run(s, [None] + Challenges(rs), fix);
         && !s'.errorFlag && s'.round == numVariables && s'.randomness == rs
         && (forall k | 0 <= k < numVariables :: |msgs[k]| == maxMultiplicands + 1)
         && RoundDefined(s', extra, fix) && ProveRoundSpec(s', extra, fix).0.errorFlag
  {
    var s := InitValue(products, flat, numVariables, maxMultiplicands);
    FirstRound(products, flat, numVariables, maxMultiplicands, fix);
    var (s1, m) := ProveRoundSpec(s, None, fix);
    HonestRounds(s1, rs, fix);
    var msgs := [None] + Challenges(rs);
    assert msgs[0] == None && msgs[1..] == Challenges(rs);
    var (s', ms) := Run(s1, Challenges(rs), fix);
    assert Run(s, msgs, fix) == (s', [m] + ms);
    assert forall k | 1 <= k < numVariables :: ([m] + ms)[k] == ms[k - 1];
    RoundAfterLast(s', extra, fix);
  }

  // ---------------------------------------------------------------------
  // The imperative prover.

  class ProverState {
    var randomness: seq<int>
    var listOfProducts: seq<Product>
    var tables: seq<seq<int>>
    var numVars: nat
    var maxMultiplicands: nat
    var round: nat
    var errorFlag: bool

    function Value(): ProverStateValue
      reads this
    {
      ProverStateValue(randomness, listOfProducts, tables, numVars, maxMultiplicands, round, errorFlag)
    }

    constructor (products: seq<Product>, numVars: nat, maxMultiplicands: nat)
      ensures Value() == ProverStateValue([], products, [], numVars, maxMultiplicands, 0, false)
    {
      randomness := [];
      listOfProducts := products;
      tables := [];
      this.numVars := numVars;
      this.maxMultiplicands := maxMultiplicands;
      round := 0;
      errorFlag := false;
    }

    /** `multiplicand.FixVariables({r})` for every table, in place. */
    method FixTables(r: int, fix: (seq<int>, int) -> seq<int>)
      modifies this`tables
      ensures tables == FixAll(old(tables), fix, r)
    {
      var j := 0;
      while j < |tables|
        invariant 0 <= j <= |tables| == |old(tables)|
        invariant forall i | 0 <= i < j :: tables[i] == fix(old(tables)[i], r)
        invariant forall i | j <= i < |tables| :: tables[i] == old(tables)[i]
      {
        tables := tables[j := fix(tables[j], r)];
        j := j + 1;
      }
    }

    method ProveRound(vMsg: Option<int>, fix: (seq<int>, int) -> seq<int>) returns (msg: seq<int>)
      requires RoundDefined(Value(), vMsg, fix)
      modifies this
      ensures (Value(), msg) == ProveRoundSpec(old(Value()), vMsg, fix)
    {
      if errorFlag {
        return [];
      }
      if vMsg.Some? {
        if round == 0 {
          errorFlag := true;
          return [];
        }
        randomness := randomness + [vMsg.value];
        var i := round;
        var r := randomness[i - 1];
        FixTables(r, fix);
      } else if round > 0 {
        errorFlag := true;
        return [];
      }
      round := round + 1;
      if round > numVars {
        errorFlag := true;
        return [];
      }
      var n := Pow2(numVars - round);
      msg := ComputeMessage(listOfProducts, tables, n, maxMultiplicands);
    }
  }

  /** `ProverInit`: a fresh prover state over the polynomial's products,
      with a copy of every multiplicand's evaluations unless the polynomial
      has no variables. */
  method ProverInit(polynomial: ListOfProductsOfPolynomials) returns (st: ProverState)
    ensures fresh(st)
    ensures st.Value() == InitValue(polynomial.products, polynomial.flattened, polynomial.numVariables, polynomial.maxMultiplicands)
  {
    st := new ProverState(polynomial.products, polynomial.numVariables, polynomial.maxMultiplicands);
    if polynomial.numVariables == 0 {
      st.errorFlag := true;
      return;
    }
    var flat := polynomial.flattened;
    var k := 0;
    while k < |flat|
      invariant 0 <= k <= |flat|
      invariant st.Value() == ProverStateValue([], polynomial.products, st.tables, polynomial.numVariables, polynomial.maxMultiplicands, 0, false)
      invariant |st.tables| == k && forall j | 0 <= j < k :: st.tables[j] == flat[j].evaluations
    {
      st.tables := st.tables + [flat[k].evaluations];
      k := k + 1;
    }
  }

  /** Each entry of `product` multiplied by the line through the pair b of
      one table, walking `start` along by `step`. */
  method ScaleByLine(product: seq<int>, table: seq<int>, b: nat) returns (r: seq<int>)
    requires 2 * b + 1 < |table|
    ensures |r| == |product|
    ensures forall t | 0 <= t < |product| :: r[t] == product[t] * Line(table, b, t)
  {
    var start := table[2 * b];
    var step := table[2 * b + 1] - start;
    r := product;
    var t := 0;
    while t < |r|
      invariant 0 <= t <= |r| == |product|
      invariant start == Line(table, b, t)
      invariant forall u | 0 <= u < t :: r[u] == product[u] * Line(table, b, u)
      invariant forall u | t <= u < |r| :: r[u] == product[u]
    {
      r := r[t := r[t] * start];
      assert (t + 1) * step == t * step + step;
      start := start + step;
      t := t + 1;
    }
  }

  /** One product's entries for t = 0 .. degree at pair b, starting from
      its coefficient. */
  method ProductVector(coefficient: int, tables: seq<seq<int>>, indices: seq<nat>, b: nat, degree: nat) returns (product: seq<int>)
    requires IndicesIn(indices, |tables|) && TablesAtLeast(tables, 2 * b + 2)
    ensures |product| == degree + 1
    ensures forall t | 0 <= t <= degree :: product[t] == ProductAt(coefficient, tables, indices, b, t)
  {
    product := seq(degree + 1, _ => coefficient);
    var j := 0;
    while j < |indices|
      invariant 0 <= j <= |indices|
      invariant |product| == degree + 1
      invariant forall t | 0 <= t <= degree :: product[t] == ProductAt(coefficient, tables, indices[..j], b, t)
    {
      assert indices[..j + 1][..j] == indices[..j];
      product := ScaleByLine(product, tables[indices[j]], b);
      j := j + 1;
    }
    assert indices[..j] == indices;
  }

  /** `products_sum[t] += product[t]` for every t. */
  method AddInto(sum: seq<int>, product: seq<int>) returns (r: seq<int>)
    requires |product| == |sum|
    ensures |r| == |sum| && forall t | 0 <= t < |sum| :: r[t] == sum[t] + product[t]
  {
    r := sum;
    var t := 0;
    while t < |r|
      invariant 0 <= t <= |r| == |sum|
      invariant forall u | 0 <= u < t :: r[u] == sum[u] + product[u]
      invariant forall u | t <= u < |r| :: r[u] == sum[u]
    {
      r := r[t := r[t] + product[t]];
      t := t + 1;
    }
  }

  /** The nested loops of `ProveRound` over the pairs b and the products. */
  method ComputeMessage(products: seq<Product>, tables: seq<seq<int>>, n: nat, degree: nat) returns (sum: seq<int>)
    requires IndicesBelow(products, |tables|) && TablesAtLeast(tables, 2 * n)
    ensures sum == RoundMessage(products, tables, n, degree)
  {
    sum := seq(degree + 1, _ => 0);
    var b := 0;
    while b < n
      invariant 0 <= b <= n
      invariant |sum| == degree + 1
      invariant forall t | 0 <= t <= degree :: sum[t] == CubeSum(products, tables, b, t)
    {
      var k := 0;
      while k < |products|
        invariant 0 <= k <= |products|
        invariant |sum| == degree + 1
        invariant forall t | 0 <= t <= degree :: sum[t] == CubeSum(products, tables, b, t) + RoundTerms(products[..k], tables, b, t)
      {
        assert products[..k + 1][..k] == products[..k];
        var product := ProductVector(products[k].coefficient, tables, products[k].indices, b, degree);
        sum := AddInto(sum, product);
        k := k + 1;
      }
      assert products[..k] == products;
      b := b + 1;
    }
  }
}
