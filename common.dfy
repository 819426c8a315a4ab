/** Shared vocabulary of the prover core: optional values, the circuit `Value`
    wrapper, the closed set of caller-visible errors and half-open row ranges. */
module Common {

  /** A scalar-field element, kept as its canonical representative. The
      bookkeeping in this model only stores, moves and compares field elements,
      and uses the designated zero (0) and one (1). */
  type Fr = nat

  datatype Option<+T> = None | Some(value: T)

  /** `Value<F>` of the circuit API: a known value or the placeholder used
      when a backend has no concrete data. */
  datatype Value<+T> = Unknown | Known(value: T)

  /** An element of `RationalField<F>`: a numerator over a denominator,
      evaluated to a field element only in batches. */
  datatype Rational = Rational(numerator: Fr, denominator: Fr)

  /** The rational zero, 0/1. */
  const RationalZero: Rational := Rational(0, 1)

  /** An advice column: its index among the advice columns and the phase in
      which it is assigned. */
  datatype AdviceColumn = AdviceColumn(index: nat, phase: nat)

  /** The errors surfaced to callers of the assignment and instance APIs. */
  datatype Error = NoError | InstanceTooLarge | NotEnoughRowsAvailable | BoundsFailure

  /** `base::Range<size_t>`: the half-open interval [from, to). */
  datatype Range = Range(from: nat, to: nat) {
    predicate Contains(i: nat) {
      from <= i < to
    }
  }

  /** `base::Range<size_t>::Until(n)` is [0, n). */
  function Until(n: nat): (r: Range)
    ensures forall i: nat :: r.Contains(i) <==> i < n
  {
    Range(0, n)
  }

  /** Width of `size_t`: unsigned arithmetic in the source wraps modulo this. */
  const SizeModulus: nat := 0x1_0000_0000_0000_0000

  /** `a - b` on `size_t`, wrapping around when b > a. */
  function SizeSub(a: nat, b: nat): (r: nat)
    requires a < SizeModulus && b < SizeModulus
    ensures r < SizeModulus
    ensures b <= a ==> r == a - b
    ensures a < b ==> r == SizeModulus + a - b
  {
    (a - b) % SizeModulus
  }

  /** 2 to the power n, the number of points of an n-dimensional Boolean
      hypercube and the value of `1 << n` on `size_t` for n < 64. */
  function Pow2(n: nat): (r: nat)
    ensures r >= 1
  {
    if n == 0 then 1 else 2 * Pow2(n - 1)
  }

  /** Appending is associative; stated once so that proofs about logs built
      by appending need not rediscover it by extensionality. */
  lemma AppendAssoc<T>(a: seq<T>, b: seq<T>, c: seq<T>)
    ensures (a + b) + c == a + (b + c)
  {
  }

  /** A non-empty sequence is its front followed by its last element. */
  lemma SplitLast<T>(s: seq<T>)
    requires s != []
    ensures s == s[..|s| - 1] + [s[|s| - 1]]
  {
  }

  /** Taking one more element of a sequence appends that element. */
  lemma TakeSnoc<T>(s: seq<T>, i: nat)
    requires i < |s|
    ensures s[..i + 1] == s[..i] + [s[i]]
  {
  }
}
