/** The SHA-256 Fiat-Shamir transcript (`Sha256Reader` / `Sha256Writer`).

    The running `SHA256_CTX` is modelled by the byte string absorbed since the
    context was last initialised; SHA-256 itself (FIPS 180-4) is the
    uninterpreted `hash` of the parameters, applied to that byte string. */
module Sha256Transcript {
  import opened Common
  import opened ByteCodec

  type Digest = s: seq<Byte> | |s| == 32 witness [0, 0, 0, 0, 0, 0, 0, 0, 0, 0, 0, 0, 0, 0, 0, 0, 0, 0, 0, 0, 0, 0, 0, 0, 0, 0, 0, 0, 0, 0, 0, 0]

  /** The curve- and hash-dependent constants of one instantiation. */
  datatype TranscriptParams = TranscriptParams(
    hash: seq<Byte> -> Digest,  // SHA-256 of a whole message
    scalarModulus: nat,         // modulus of Curve::ScalarField
    scalarBytes: nat,           // ScalarField::BigIntTy::kByteNums
    scalarLimbs: nat,           // ScalarField::N, the number of 64-bit limbs
    baseModulus: nat,           // modulus of Curve::BaseField
    baseBytes: nat)             // BaseField::BigIntTy::kByteNums
  {
    /** Field elements fit their encoding width, and the challenge path is
        the one compiled in (`ScalarField::N <= 4`; wider fields are rejected
        at compile time). */
    predicate Valid() {
      && 0 < scalarModulus <= Pow256(scalarBytes)
      && 0 < baseModulus <= Pow256(baseBytes)
      && scalarLimbs <= 4
    }
  }

  /** An affine point given by its two base-field coordinates. */
  datatype AffinePoint = AffinePoint(x: nat, y: nat)

  predicate IsScalar(p: TranscriptParams, s: Fr) {
    s < p.scalarModulus
  }

  predicate IsPoint(p: TranscriptParams, pt: AffinePoint) {
    pt.x < p.baseModulus && pt.y < p.baseModulus
  }

  /** Dummy zeros that come before the prefix of a prover's message. */
  const ShaPrefixZeros: seq<Byte> := [0, 0, 0, 0, 0, 0, 0, 0, 0, 0, 0, 0, 0, 0, 0, 0, 0, 0, 0, 0, 0, 0, 0, 0, 0, 0, 0, 0, 0, 0, 0]
  /** Prefix of a message soliciting a challenge. */
  const ShaPrefixChallenge: seq<Byte> := [0]
  /** Prefix of a message containing a curve point. */
  const ShaPrefixPoint: seq<Byte> := [1]
  /** Prefix of a message containing a scalar. */
  const ShaPrefixScalar: seq<Byte> := [2]

  /** The bytes `WriteToTranscript(scalar)` feeds to the hash. */
  function ScalarAbsorption(p: TranscriptParams, s: Fr): seq<Byte> {
    ShaPrefixZeros + ShaPrefixScalar + ToBytesBE(s, p.scalarBytes)
  }

  /** The bytes `WriteToTranscript(point)` feeds to the hash. */
  function PointAbsorption(p: TranscriptParams, pt: AffinePoint): seq<Byte> {
    ShaPrefixZeros + ShaPrefixPoint + ToBytesBE(pt.x, p.baseBytes) + ToBytesBE(pt.y, p.baseBytes)
  }

  /** `SqueezeChallenge`: appends the challenge prefix, finalises a copy of the
      context, restarts the live context from the 32-byte digest and reduces
      the digest, read little-endian, into the scalar field
      (`FromAnySizedBigInt(BigInt<4>::FromBytesLE(result))`). Returns the
      challenge and the new live context. */
  function Squeeze(p: TranscriptParams, absorbed: seq<Byte>): (r: (Fr, seq<Byte>))
    requires p.Valid()
    ensures IsScalar(p, r.0)
    ensures |r.1| == 32 && r.1 == p.hash(absorbed + ShaPrefixChallenge)
    ensures r.0 == FromBytesLE(r.1) % p.scalarModulus
  {
    var digest := p.hash(absorbed + ShaPrefixChallenge);
    (FromBytesLE(digest) % p.scalarModulus, digest)
  }

  /** Proof-stream encoding of a scalar: fixed-width big-endian. */
  function ScalarBytes(p: TranscriptParams, s: Fr): seq<Byte> {
    ToBytesBE(s, p.scalarBytes)
  }

  /** Proof-stream encoding of a point: x then y, each fixed-width big-endian. */
  function PointBytes(p: TranscriptParams, pt: AffinePoint): seq<Byte> {
    ToBytesBE(pt.x, p.baseBytes) + ToBytesBE(pt.y, p.baseBytes)
  }

  /** Reading a scalar from the front of `input`: fails on short input and on a
      non-canonical value; otherwise returns the value and the rest. */
  function ParseScalar(p: TranscriptParams, input: seq<Byte>): Option<(Fr, seq<Byte>)> {
    if |input| < p.scalarBytes then None
    else
      var v := FromBytesBE(input[..p.scalarBytes]);
      if v < p.scalarModulus then Some((v, input[p.scalarBytes..])) else None
  }

  function ParsePoint(p: TranscriptParams, input: seq<Byte>): Option<(AffinePoint, seq<Byte>)> {
    if |input| < 2 * p.baseBytes then None
    else
      var x := FromBytesBE(input[..p.baseBytes]);
      var y := FromBytesBE(input[p.baseBytes..2 * p.baseBytes]);
      if x < p.baseModulus && y < p.baseModulus then Some((AffinePoint(x, y), input[2 * p.baseBytes..]))
      else None
  }

  /** Every absorbed scalar is framed as 31 zeros, the scalar tag 0x02 and the
      big-endian value, which can be read back from the frame. */
  lemma ScalarAbsorptionLayout(p: TranscriptParams, s: Fr)
    requires p.Valid() && IsScalar(p, s)
    ensures var b := ScalarAbsorption(p, s);
      && |b| == 32 + p.scalarBytes
      && (forall i | 0 <= i < 31 :: b[i] == 0)
      && b[31] == 2
      && FromBytesBE(b[32..]) == s
  {
    var b := ScalarAbsorption(p, s);
    assert b[32..] == ToBytesBE(s, p.scalarBytes);
    BigEndianRoundTrip(s, p.scalarBytes);
  }

  /** Every absorbed point is framed as 31 zeros, the point tag 0x01, then
      big-endian x and big-endian y, both of which can be read back. */
  lemma PointAbsorptionLayout(p: TranscriptParams, pt: AffinePoint)
    requires p.Valid() && IsPoint(p, pt)
    ensures var b := PointAbsorption(p, pt);
      && |b| == 32 + 2 * p.baseBytes
      && (forall i | 0 <= i < 31 :: b[i] == 0)
      && b[31] == 1
      && FromBytesBE(b[32..32 + p.baseBytes]) == pt.x
      && FromBytesBE(b[32 + p.baseBytes..]) == pt.y
  {
    var b := PointAbsorption(p, pt);
    assert b[32..32 + p.baseBytes] == ToBytesBE(pt.x, p.baseBytes);
    assert b[32 + p.baseBytes..] == ToBytesBE(pt.y, p.baseBytes);
    BigEndianRoundTrip(pt.x, p.baseBytes);
    BigEndianRoundTrip(pt.y, p.baseBytes);
  }

  /** Domain separation: a scalar frame, a point frame and a challenge request
      never coincide, and each frame determines the value it carries. */
  lemma DomainSeparation(p: TranscriptParams, s: Fr, s': Fr, pt: AffinePoint)
    requires p.Valid() && IsScalar(p, s) && IsScalar(p, s') && IsPoint(p, pt)
    ensures ScalarAbsorption(p, s) != PointAbsorption(p, pt)
    ensures ScalarAbsorption(p, s) != ShaPrefixChallenge
    ensures PointAbsorption(p, pt) != ShaPrefixChallenge
    ensures ScalarAbsorption(p, s) == ScalarAbsorption(p, s') ==> s == s'
  {
    assert ScalarAbsorption(p, s)[31] == 2;
    assert PointAbsorption(p, pt)[31] == 1;
    if ScalarAbsorption(p, s) == ScalarAbsorption(p, s') {
      ScalarAbsorptionLayout(p, s);
      ScalarAbsorptionLayout(p, s');
    }
  }

  /** Reading back what was written gives the value and leaves the rest. */
  lemma ScalarRoundTrip(p: TranscriptParams, s: Fr, rest: seq<Byte>)
    requires p.Valid() && IsScalar(p, s)
    ensures ParseScalar(p, ScalarBytes(p, s) + rest) == Some((s, rest))
  {
    var input := ScalarBytes(p, s) + rest;
    assert input[..p.scalarBytes] == ScalarBytes(p, s);
    assert input[p.scalarBytes..] == rest;
    BigEndianRoundTrip(s, p.scalarBytes);
  }

  lemma PointRoundTrip(p: TranscriptParams, pt: AffinePoint, rest: seq<Byte>)
    requires p.Valid() && IsPoint(p, pt)
    ensures ParsePoint(p, PointBytes(p, pt) + rest) == Some((pt, rest))
  {
    var input := PointBytes(p, pt) + rest;
    assert input[..p.baseBytes] == ToBytesBE(pt.x, p.baseBytes);
    assert input[p.baseBytes..2 * p.baseBytes] == ToBytesBE(pt.y, p.baseBytes);
    assert input[2 * p.baseBytes..] == rest;
    BigEndianRoundTrip(pt.x, p.baseBytes);
    BigEndianRoundTrip(pt.y, p.baseBytes);
  }

  /** The prover side: absorbs into the hash and appends to the proof buffer. */
  class Sha256Writer {
    const params: TranscriptParams
    /** Bytes absorbed into the live SHA-256 context since its last initialisation. */
    var state: seq<Byte>
    /** The proof bytes, `buffer_`. */
    var buffer: seq<Byte>

    /** `Sha256Writer(write_buf)`: a freshly initialised context. */
    constructor (params: TranscriptParams, writeBuf: seq<Byte>)
      requires params.Valid()
      ensures this.params == params && state == [] && buffer == writeBuf
    {
      this.params := params;
      state := [];
      buffer := writeBuf;
    }

    method SqueezeChallenge() returns (challenge: Fr)
      requires params.Valid()
      modifies this`state
      ensures (challenge, state) == Squeeze(params, old(state))
    {
      var digest := params.hash(state + ShaPrefixChallenge);
      state := digest;
      challenge := FromBytesLE(digest) % params.scalarModulus;
    }

    method WriteScalarToTranscript(scalar: Fr) returns (ok: bool)
      modifies this`state
      ensures ok && state == old(state) + ScalarAbsorption(params, scalar)
    {
      state := state + ShaPrefixZeros;
      state := state + ShaPrefixScalar;
      state := state + ToBytesBE(scalar, params.scalarBytes);
      ok := true;
    }

    method WritePointToTranscript(point: AffinePoint) returns (ok: bool)
      modifies this`state
      ensures ok && state == old(state) + PointAbsorption(params, point)
    {
      state := state + ShaPrefixZeros;
      state := state + ShaPrefixPoint;
      state := state + ToBytesBE(point.x, params.baseBytes);
      state := state + ToBytesBE(point.y, params.baseBytes);
      ok := true;
    }

    /** Absorbs first, then appends to the growable buffer (which cannot fail). */
    method WriteScalarToProof(scalar: Fr) returns (ok: bool)
      modifies this`state, this`buffer
      ensures ok
      ensures state == old(state) + ScalarAbsorption(params, scalar)
      ensures buffer == old(buffer) + ScalarBytes(params, scalar)
    {
      ok := WriteScalarToTranscript(scalar);
      if ok {
        buffer := buffer + ScalarBytes(params, scalar);
      }
    }

    method WritePointToProof(point: AffinePoint) returns (ok: bool)
      modifies this`state, this`buffer
      ensures ok
      ensures state == old(state) + PointAbsorption(params, point)
      ensures buffer == old(buffer) + PointBytes(params, point)
    {
      ok := WritePointToTranscript(point);
      if ok {
        buffer := buffer + PointBytes(params, point);
      }
    }
  }

  /** The verifier side: reads from the proof buffer, then absorbs. */
  class Sha256Reader {
    const params: TranscriptParams
    var state: seq<Byte>
    /** The proof being read and the read position in it. */
    var buffer: seq<Byte>
    var offset: nat

    ghost predicate Valid()
      reads this
    {
      offset <= |buffer|
    }

    /** The bytes not yet read. */
    function Remaining(): seq<Byte>
      reads this
      requires Valid()
    {
      buffer[offset..]
    }

    constructor (params: TranscriptParams, readBuf: seq<Byte>)
      requires params.Valid()
      ensures Valid() && this.params == params && state == [] && Remaining() == readBuf
    {
      this.params := params;
      state := [];
      buffer := readBuf;
      offset := 0;
    }

    method SqueezeChallenge() returns (challenge: Fr)
      requires params.Valid()
      modifies this`state
      ensures (challenge, state) == Squeeze(params, old(state))
    {
      var digest := params.hash(state + ShaPrefixChallenge);
      state := digest;
      challenge := FromBytesLE(digest) % params.scalarModulus;
    }

    method WriteScalarToTranscript(scalar: Fr) returns (ok: bool)
      modifies this`state
      ensures ok && state == old(state) + ScalarAbsorption(params, scalar)
    {
      state := state + ShaPrefixZeros;
      state := state + ShaPrefixScalar;
      state := state + ToBytesBE(scalar, params.scalarBytes);
      ok := true;
    }

    method WritePointToTranscript(point: AffinePoint) returns (ok: bool)
      modifies this`state
      ensures ok && state == old(state) + PointAbsorption(params, point)
    {
      state := state + ShaPrefixZeros;
      state := state + ShaPrefixPoint;
      state := state + ToBytesBE(point.x, params.baseBytes);
      state := state + ToBytesBE(point.y, params.baseBytes);
      ok := true;
    }

    /** `ReadScalar`: `buffer_.Read(scalar) && WriteToTranscript(*scalar)`.
        A failed read neither absorbs nor moves the read position. */
    method ReadScalar() returns (ok: bool, scalar: Option<Fr>)
      requires Valid()
      modifies this`state, this`offset
      ensures Valid()
      ensures match ParseScalar(params, old(Remaining()))
        case None => !ok && scalar == None && state == old(state) && offset == old(offset)
        case Some((s, rest)) =>
          ok && scalar == Some(s) && state == old(state) + ScalarAbsorption(params, s) && Remaining() == rest
    {
      var input := buffer[offset..];
      if |input| < params.scalarBytes {
        return false, None;
      }
      var v := FromBytesBE(input[..params.scalarBytes]);
      if v >= params.scalarModulus {
        return false, None;
      }
      offset := offset + params.scalarBytes;
      assert buffer[offset..] == input[params.scalarBytes..];
      scalar := Some(v);
      ok := WriteScalarToTranscript(v);
    }

    method ReadPoint() returns (ok: bool, point: Option<AffinePoint>)
      requires Valid()
      modifies this`state, this`offset
      ensures Valid()
      ensures match ParsePoint(params, old(Remaining()))
        case None => !ok && point == None && state == old(state) && offset == old(offset)
        case Some((pt, rest)) =>
          ok && point == Some(pt) && state == old(state) + PointAbsorption(params, pt) && Remaining() == rest
    {
      var input := buffer[offset..];
      if |input| < 2 * params.baseBytes {
        return false, None;
      }
      var x := FromBytesBE(input[..params.baseBytes]);
      var y := FromBytesBE(input[params.baseBytes..2 * params.baseBytes]);
      if x >= params.baseModulus || y >= params.baseModulus {
        return false, None;
      }
      offset := offset + 2 * params.baseBytes;
      assert buffer[offset..] == input[2 * params.baseBytes..];
      point := Some(AffinePoint(x, y));
      ok := WritePointToTranscript(AffinePoint(x, y));
    }
  }

  // ---------------------------------------------------------------------------
  // Replay symmetry. A protocol run is a script of transcript operations; the
  // Writer performs the prover's script, the Reader the same script with every
  // proof value replaced by a read.

  datatype WriterOp =
    | CommonScalar(s: Fr)          // WriteToTranscript(scalar)
    | CommonPoint(pt: AffinePoint) // WriteToTranscript(point)
    | ProofScalar(s: Fr)           // WriteToProof(scalar)
    | ProofPoint(pt: AffinePoint)  // WriteToProof(point)
    | Challenge                    // SqueezeChallenge()

  datatype ReaderOp =
    | RCommonScalar(s: Fr)
    | RCommonPoint(pt: AffinePoint)
    | RReadScalar                  // ReadScalar
    | RReadPoint                   // ReadPoint
    | RChallenge

  /** What the verifier does at the step where the prover did `op`. */
  function ReaderView(op: WriterOp): ReaderOp {
    match op
    case CommonScalar(s) => RCommonScalar(s)
    case CommonPoint(pt) => RCommonPoint(pt)
    case ProofScalar(_) => RReadScalar
    case ProofPoint(_) => RReadPoint
    case Challenge => RChallenge
  }

  function ReaderScript(ops: seq<WriterOp>): (r: seq<ReaderOp>)
    ensures |r| == |ops| && forall i | 0 <= i < |ops| :: r[i] == ReaderView(ops[i])
  {
    if ops == [] then [] else [ReaderView(ops[0])] + ReaderScript(ops[1..])
  }

  predicate WellFormedOp(p: TranscriptParams, op: WriterOp) {
    match op
    case CommonScalar(s) => IsScalar(p, s)
    case CommonPoint(pt) => IsPoint(p, pt)
    case ProofScalar(s) => IsScalar(p, s)
    case ProofPoint(pt) => IsPoint(p, pt)
    case Challenge => true
  }

  /** The state a Writer's method moves to: (absorbed bytes, appended proof
      bytes, challenge squeezed if any), as its postconditions state. */
  function WriterStep(p: TranscriptParams, absorbed: seq<Byte>, op: WriterOp): (seq<Byte>, seq<Byte>, seq<Fr>)
    requires p.Valid()
  {
    match op
    case CommonScalar(s) => (absorbed + ScalarAbsorption(p, s), [], [])
    case CommonPoint(pt) => (absorbed + PointAbsorption(p, pt), [], [])
    case ProofScalar(s) => (absorbed + ScalarAbsorption(p, s), ScalarBytes(p, s), [])
    case ProofPoint(pt) => (absorbed + PointAbsorption(p, pt), PointBytes(p, pt), [])
    case Challenge => var (c, next) := Squeeze(p, absorbed); (next, [], [c])
  }

  /** Running a Writer script: final absorbed bytes, every proof byte written
      and every challenge squeezed, in order. */
  function WriterRun(p: TranscriptParams, absorbed: seq<Byte>, ops: seq<WriterOp>): (seq<Byte>, seq<Byte>, seq<Fr>)
    requires p.Valid()
    decreases |ops|
  {
    if ops == [] then (absorbed, [], [])
    else
      var (a1, out1, cs1) := WriterStep(p, absorbed, ops[0]);
      var (a2, out2, cs2) := WriterRun(p, a1, ops[1..]);
      (a2, out1 + out2, cs1 + cs2)
  }

  /** A Reader step: None when a read fails, otherwise (absorbed bytes,
      unread input, challenge squeezed if any), as its postconditions state. */
  function ReaderStep(p: TranscriptParams, absorbed: seq<Byte>, input: seq<Byte>, op: ReaderOp)
    : Option<(seq<Byte>, seq<Byte>, seq<Fr>)>
    requires p.Valid()
  {
    match op
    case RCommonScalar(s) => Some((absorbed + ScalarAbsorption(p, s), input, []))
    case RCommonPoint(pt) => Some((absorbed + PointAbsorption(p, pt), input, []))
    case RReadScalar =>
      (match ParseScalar(p, input)
       case None => None
       case Some((s, rest)) => Some((absorbed + ScalarAbsorption(p, s), rest, [])))
    case RReadPoint =>
      (match ParsePoint(p, input)
       case None => None
       case Some((pt, rest)) => Some((absorbed + PointAbsorption(p, pt), rest, [])))
    case RChallenge => var (c, next) := Squeeze(p, absorbed); Some((next, input, [c]))
  }

  function ReaderRun(p: TranscriptParams, absorbed: seq<Byte>, input: seq<Byte>, ops: seq<ReaderOp>)
    : Option<(seq<Byte>, seq<Byte>, seq<Fr>)>
    requires p.Valid()
    decreases |ops|
  {
    if ops == [] then Some((absorbed, input, []))
    else
      match ReaderStep(p, absorbed, input, ops[0])
      case None => None
      case Some((a1, in1, cs1)) =>
        match ReaderRun(p, a1, in1, ops[1..])
        case None => None
        case Some((a2, in2, cs2)) => Some((a2, in2, cs1 + cs2))
  }

  /** Fiat-Shamir replay symmetry: a Reader replaying, over the bytes a Writer
      produced (followed by anything), the script the Writer ran reaches the
      same hash state, squeezes the same challenges and consumes exactly the
      Writer's bytes. Applied to every prefix of a script, this says the two
      agree at every step. */
  lemma {:induction false} ReplaySymmetry(p: TranscriptParams, absorbed: seq<Byte>, ops: seq<WriterOp>, rest: seq<Byte>)
    requires p.Valid()
    requires forall i | 0 <= i < |ops| :: WellFormedOp(p, ops[i])
    ensures var (a, out, cs) := WriterRun(p, absorbed, ops);
      ReaderRun(p, absorbed, out + rest, ReaderScript(ops)) == Some((a, rest, cs))
    decreases |ops|
  {
    if ops == [] {
      assert [] + rest == rest;
    } else {
      var (a1, out1, cs1) := WriterStep(p, absorbed, ops[0]);
      var (a2, out2, cs2) := WriterRun(p, a1, ops[1..]);
      ReplaySymmetry(p, a1, ops[1..], rest);
      assert ReaderScript(ops)[0] == ReaderView(ops[0]);
      assert ReaderScript(ops)[1..] == ReaderScript(ops[1..]);
      AppendAssoc(out1, out2, rest);
      StepSymmetry(p, absorbed, ops[0], out2 + rest);
    }
  }

  /** One step of the replay: the Reader's view of a Writer operation, over
      the bytes that operation wrote followed by anything, reaches the same
      hash state and challenges and consumes exactly those bytes. */
  lemma StepSymmetry(p: TranscriptParams, absorbed: seq<Byte>, op: WriterOp, rest: seq<Byte>)
    requires p.Valid()
    requires WellFormedOp(p, op)
    ensures var (a, out, cs) := WriterStep(p, absorbed, op);
      ReaderStep(p, absorbed, out + rest, ReaderView(op)) == Some((a, rest, cs))
  {
    match op
    case ProofScalar(s) => ScalarRoundTrip(p, s, rest);
    case ProofPoint(pt) => PointRoundTrip(p, pt, rest);
    case CommonScalar(s) => assert [] + rest == rest;
    case CommonPoint(pt) => assert [] + rest == rest;
    case Challenge => assert [] + rest == rest;
  }

  /** A run of a prefix is a prefix of the run. */
  lemma {:induction false} PrefixRun(p: TranscriptParams, absorbed: seq<Byte>, ops: seq<WriterOp>, i: nat)
    requires p.Valid()
    requires i <= |ops|
    ensures var (_, outP, csP) := WriterRun(p, absorbed, ops[..i]);
      var (_, out, cs) := WriterRun(p, absorbed, ops);
      |csP| <= |cs| && cs[..|csP|] == csP && |outP| <= |out| && out[..|outP|] == outP
    decreases i
  {
    if i > 0 {
      var (a1, out1, cs1) := WriterStep(p, absorbed, ops[0]);
      assert ops[..i][0] == ops[0];
      assert ops[..i][1..] == ops[1..][..i - 1];
      PrefixRun(p, a1, ops[1..], i - 1);
    }
  }
}
