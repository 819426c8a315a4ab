/** `XORShiftRNG`: Marsaglia's xorshift128 generator ("Xorshift RNGs",
    Journal of Statistical Software 8(14), 2003) over four 32-bit registers.
    All arithmetic is on `bv32`, so shifts drop the bits that leave the word
    exactly as `uint32_t` does. */
module XorShiftRng {

  /** The four registers x, y, z, w. */
  datatype RngState = RngState(x: bv32, y: bv32, z: bv32, w: bv32)

  /** Every register starts at 195911405 (0xBAD5EED). */
  const DefaultSeedWord: bv32 := 0xBAD5EED

  /** `t = x ^ (x << 11)`. */
  function Scramble(x: bv32): bv32 {
    x ^ (x << 11)
  }

  /** `t ^ (t >> 8)`. */
  function XorShift8(t: bv32): bv32 {
    t ^ (t >> 8)
  }

  /** `w ^ (w >> 19) ^ v`; the step uses it with `v = t ^ (t >> 8)`. */
  function Mix(w: bv32, v: bv32): bv32 {
    w ^ (w >> 19) ^ v
  }

  /** One xorshift128 step: the registers move down one place and the new w
      mixes the old w with the scrambled old x. The new w is the output. */
  function Next(s: RngState): RngState {
    RngState(s.y, s.z, s.w, Mix(s.w, XorShift8(Scramble(s.x))))
  }

  /** The inverses of the three shift-xor steps of `Next`. */
  function Unmix(mixed: bv32, w: bv32): bv32 {
    mixed ^ w ^ (w >> 19)
  }

  function UnXorShift8(u: bv32): bv32 {
    u ^ (u >> 8) ^ (u >> 16) ^ (u >> 24)
  }

  function Unscramble(t: bv32): bv32 {
    t ^ (t << 11) ^ (t << 22)
  }

  // Each inverse is first proved on plain words (the hypothesis names the
  // mixed word), then restated on the functions `Next` is made of.

  lemma UnmixWord(w: bv32, v: bv32, mixed: bv32)
    requires mixed == w ^ (w >> 19) ^ v
    ensures Unmix(mixed, w) == v
  {
  }

  lemma UnXorShift8Word(t: bv32, u: bv32)
    requires u == t ^ (t >> 8)
    ensures UnXorShift8(u) == t
  {
  }

  lemma UnscrambleWord(x: bv32, t: bv32)
    requires t == x ^ (x << 11)
    ensures Unscramble(t) == x
  {
  }

  lemma {:induction false} UnmixMix(w: bv32, v: bv32)
    ensures Unmix(Mix(w, v), w) == v
  {
    UnmixWord(w, v, Mix(w, v));
  }

  lemma {:induction false} UnXorShift8XorShift8(t: bv32)
    ensures UnXorShift8(XorShift8(t)) == t
  {
    UnXorShift8Word(t, XorShift8(t));
  }

  lemma {:induction false} UnscrambleScramble(x: bv32)
    ensures Unscramble(Scramble(x)) == x
  {
    UnscrambleWord(x, Scramble(x));
  }

  /** The step run backwards: the old w is the new z, and the old x is
      recovered from the new w. */
  function Previous(s: RngState): RngState {
    RngState(Unscramble(UnXorShift8(Unmix(s.w, s.z))), s.x, s.y, s.z)
  }

  /** The step is invertible, so no two states lead to the same state. */
  lemma {:induction false} PreviousUndoesNext(s: RngState)
    ensures Previous(Next(s)) == s
  {
    UnmixMix(s.w, XorShift8(Scramble(s.x)));
    UnXorShift8XorShift8(Scramble(s.x));
    UnscrambleScramble(s.x);
  }

  lemma {:induction false} NextInjective(s: RngState, s': RngState)
    requires Next(s) == Next(s')
    ensures s == s'
  {
    PreviousUndoesNext(s);
    PreviousUndoesNext(s');
  }

  /** The all-zero state is a fixed point: it only ever outputs zero. */
  lemma ZeroIsFixed()
    ensures Next(RngState(0, 0, 0, 0)) == RngState(0, 0, 0, 0)
  {
  }

  /** Any other state never reaches it. */
  lemma {:induction false} NonZeroStaysNonZero(s: RngState)
    requires s != RngState(0, 0, 0, 0)
    ensures Next(s) != RngState(0, 0, 0, 0)
  {
    if Next(s) == RngState(0, 0, 0, 0) {
      ZeroIsFixed();
      NextInjective(s, RngState(0, 0, 0, 0));
    }
  }

  /** The state after any number of steps. */
  function Advance(s: RngState, n: nat): RngState
    decreases n
  {
    if n == 0 then s else Next(Advance(s, n - 1))
  }

  /** The first n outputs from state s. */
  function Outputs(s: RngState, n: nat): (r: seq<bv32>)
    ensures |r| == n
    ensures forall i | 0 <= i < n :: r[i] == Advance(s, i + 1).w
    decreases n
  {
    if n == 0 then [] else Outputs(s, n - 1) + [Advance(s, n).w]
  }

  /** A generator started from a non-zero state never reaches the all-zero
      state, however many steps it takes. */
  lemma {:induction false} AdvanceNonZero(s: RngState, n: nat)
    requires s != RngState(0, 0, 0, 0)
    ensures Advance(s, n) != RngState(0, 0, 0, 0)
    decreases n
  {
    if n > 0 {
      AdvanceNonZero(s, n - 1);
      NonZeroStaysNonZero(Advance(s, n - 1));
    }
  }

  /** A word read from four bytes in little-endian order, the host order of
      `memcpy` into a `uint32_t` on the targets the library supports. */
  function WordOf(b0: bv8, b1: bv8, b2: bv8, b3: bv8): bv32 {
    (b0 as bv32) | ((b1 as bv32) << 8) | ((b2 as bv32) << 16) | ((b3 as bv32) << 24)
  }

  /** Byte k (0 = least significant) of a word. */
  function ByteOf(v: bv32, k: nat): bv8
    requires k < 4
  {
    if k == 0 then (v & 0xFF) as bv8
    else if k == 1 then ((v >> 8) & 0xFF) as bv8
    else if k == 2 then ((v >> 16) & 0xFF) as bv8
    else ((v >> 24) & 0xFF) as bv8
  }

  function LoadWord(bs: seq<bv8>): bv32
    requires |bs| == 4
  {
    WordOf(bs[0], bs[1], bs[2], bs[3])
  }

  /** The four bytes of a word, least significant first. */
  function StoreWord(v: bv32): (r: seq<bv8>)
    ensures |r| == 4
  {
    [ByteOf(v, 0), ByteOf(v, 1), ByteOf(v, 2), ByteOf(v, 3)]
  }

  lemma BytesOfWord(b0: bv8, b1: bv8, b2: bv8, b3: bv8, v: bv32)
    requires v == (b0 as bv32) | ((b1 as bv32) << 8) | ((b2 as bv32) << 16) | ((b3 as bv32) << 24)
    ensures ByteOf(v, 0) == b0 && ByteOf(v, 1) == b1 && ByteOf(v, 2) == b2 && ByteOf(v, 3) == b3
  {
  }

  lemma WordOfBytes(v: bv32, b0: bv8, b1: bv8, b2: bv8, b3: bv8)
    requires b0 == (v & 0xFF) as bv8 && b1 == ((v >> 8) & 0xFF) as bv8
    requires b2 == ((v >> 16) & 0xFF) as bv8 && b3 == ((v >> 24) & 0xFF) as bv8
    ensures WordOf(b0, b1, b2, b3) == v
  {
  }

  lemma {:induction false} LoadStoreWord(v: bv32)
    ensures LoadWord(StoreWord(v)) == v
  {
    WordOfBytes(v, ByteOf(v, 0), ByteOf(v, 1), ByteOf(v, 2), ByteOf(v, 3));
  }

  lemma {:induction false} StoreLoadWord(bs: seq<bv8>)
    requires |bs| == 4
    ensures StoreWord(LoadWord(bs)) == bs
  {
    BytesOfWord(bs[0], bs[1], bs[2], bs[3], WordOf(bs[0], bs[1], bs[2], bs[3]));
  }

  /** `FromSeed`: x, y, z, w from seed bytes 0-3, 4-7, 8-11 and 12-15. */
  function SeedState(seed: seq<bv8>): RngState
    requires |seed| == 16
  {
    RngState(LoadWord(seed[0..4]), LoadWord(seed[4..8]), LoadWord(seed[8..12]), LoadWord(seed[12..16]))
  }

  /** The seed that loads a given state. */
  function StateSeed(s: RngState): (r: seq<bv8>)
    ensures |r| == 16
  {
    StoreWord(s.x) + StoreWord(s.y) + StoreWord(s.z) + StoreWord(s.w)
  }

  /** Every state is reachable from exactly one seed: loading is a bijection
      between 16-byte seeds and states. */
  lemma {:induction false} SeedRoundTrip(s: RngState)
    ensures SeedState(StateSeed(s)) == s
  {
    var seed := StateSeed(s);
    assert seed[0..4] == StoreWord(s.x) && seed[4..8] == StoreWord(s.y);
    assert seed[8..12] == StoreWord(s.z) && seed[12..16] == StoreWord(s.w);
    LoadStoreWord(s.x);
    LoadStoreWord(s.y);
    LoadStoreWord(s.z);
    LoadStoreWord(s.w);
  }

  lemma {:induction false} StateRoundTrip(seed: seq<bv8>)
    requires |seed| == 16
    ensures StateSeed(SeedState(seed)) == seed
  {
    StoreLoadWord(seed[0..4]);
    StoreLoadWord(seed[4..8]);
    StoreLoadWord(seed[8..12]);
    StoreLoadWord(seed[12..16]);
    assert seed == seed[0..4] + seed[4..8] + seed[8..12] + seed[12..16];
  }

  class XORShiftRNG {
    var x: bv32
    var y: bv32
    var z: bv32
    var w: bv32

    function State(): RngState
      reads this
    {
      RngState(x, y, z, w)
    }

    /** The default-constructed generator. */
    constructor ()
      ensures State() == RngState(DefaultSeedWord, DefaultSeedWord, DefaultSeedWord, DefaultSeedWord)
    {
      x, y, z, w := DefaultSeedWord, DefaultSeedWord, DefaultSeedWord, DefaultSeedWord;
    }

    static method FromSeed(seed: seq<bv8>) returns (ret: XORShiftRNG)
      requires |seed| == 16
      ensures fresh(ret) && ret.State() == SeedState(seed)
    {
      ret := new XORShiftRNG();
      ret.x := LoadWord(seed[0..4]);
      ret.y := LoadWord(seed[4..8]);
      ret.z := LoadWord(seed[8..12]);
      ret.w := LoadWord(seed[12..16]);
    }

    /** One step; the value returned is the new w. */
    method NextUint32() returns (r: bv32)
      modifies this
      ensures State() == Next(old(State())) && r == w
    {
      var t := Scramble(x);
      x := y;
      y := z;
      z := w;
      w := Mix(w, XorShift8(t));
      r := w;
    }

    /** `n` calls of `NextUint32`, collected: the outputs depend only on the
        state the generator started in. */
    method NextUint32s(n: nat) returns (out: seq<bv32>)
      modifies this
      ensures out == Outputs(old(State()), n) && State() == Advance(old(State()), n)
    {
      out := [];
      var i := 0;
      while i < n
        invariant 0 <= i <= n
        invariant State() == Advance(old(State()), i)
        invariant out == Outputs(old(State()), i)
      {
        var v := NextUint32();
        out := out + [v];
        i := i + 1;
      }
    }
  }

  /** The first three outputs of the default generator. */
  lemma DefaultOutputs()
    ensures var d := RngState(DefaultSeedWord, DefaultSeedWord, DefaultSeedWord, DefaultSeedWord);
      Outputs(d, 3) == [0x6A963343, 0x0BAD52CA, 0x6A963F64]
  {
    var d := RngState(DefaultSeedWord, DefaultSeedWord, DefaultSeedWord, DefaultSeedWord);
    assert Advance(d, 1).w == 0x6A963343;
    assert Advance(d, 2).w == 0x0BAD52CA;
    assert Advance(d, 3).w == 0x6A963F64;
  }

  /** The seed bytes 0, 1, ..., 15 load x = 0x03020100, ..., w = 0x0F0E0D0C. */
  lemma CountingSeed()
    ensures SeedState([0, 1, 2, 3, 4, 5, 6, 7, 8, 9, 10, 11, 12, 13, 14, 15])
         == RngState(0x03020100, 0x07060504, 0x0B0A0908, 0x0F0E0D0C)
  {
  }
}
