/** The generic transcript views (`TranscriptReaderImpl` / `TranscriptWriterImpl`).

    A concrete transcript supplies the virtual calls: absorbing a value into
    the transcript state (`WriteToTranscript`) and moving a value into or out
    of the proof buffer (`DoWriteToProof` / `DoReadFromProof`). They are the
    hooks below. A value is either a commitment or a field element
    (`Item`) in the variant where the two types differ; in the variant where
    they coincide only field overloads exist, and the value type is the field
    itself. */
module Transcript {
  import opened Common
  import opened ByteCodec
  import opened Sha256Transcript

  /** A value passed to an overloaded transcript call when the commitment and
      field types differ. */
  datatype Item<C, F> = CommitmentItem(c: C) | FieldItem(f: F)

  /** The virtual calls of a writer: S is the transcript state, B the output
      buffer, X the value type. */
  datatype WriterHooks<!S, !B, !X> = WriterHooks(
    writeToTranscript: (S, X) -> (bool, S),
    doWriteToProof: (B, X) -> (bool, B))

  /** The virtual calls of a reader. `DoReadFromProof` yields the value read
      (None on failure) and the buffer after the read. */
  datatype ReaderHooks<!S, !B, !X> = ReaderHooks(
    writeToTranscript: (S, X) -> (bool, S),
    doReadFromProof: B -> (Option<X>, B))

  /** `WriteToProof`: `WriteToTranscript(v) && DoWriteToProof(v)`.
      Returns (result, new state, new buffer). */
  function WriteToProofStep<S, B, X>(h: WriterHooks<S, B, X>, s: S, b: B, v: X): (r: (bool, S, B))
    ensures r.1 == h.writeToTranscript(s, v).1
    ensures r.0 <==> h.writeToTranscript(s, v).0 && h.doWriteToProof(b, v).0
    ensures !h.writeToTranscript(s, v).0 ==> r.2 == b
    ensures h.writeToTranscript(s, v).0 ==> r.2 == h.doWriteToProof(b, v).1
  {
    var absorb := h.writeToTranscript(s, v);
    if !absorb.0 then (false, absorb.1, b)
    else
      var write := h.doWriteToProof(b, v);
      (write.0, absorb.1, write.1)
  }

  /** `ReadFromProof`: `DoReadFromProof(&v) && WriteToTranscript(v)`.
      Returns (result, value read, new state, new buffer). */
  function ReadFromProofStep<S, B, X>(h: ReaderHooks<S, B, X>, s: S, b: B): (r: (bool, Option<X>, S, B))
    ensures r.3 == h.doReadFromProof(b).1
    ensures r.1 == h.doReadFromProof(b).0
    ensures h.doReadFromProof(b).0.None? ==> !r.0 && r.2 == s
    ensures h.doReadFromProof(b).0.Some? ==>
      var absorb := h.writeToTranscript(s, h.doReadFromProof(b).0.value);
      r.0 == absorb.0 && r.2 == absorb.1
  {
    var read := h.doReadFromProof(b);
    match read.0
    case None => (false, None, s, read.1)
    case Some(v) =>
      var absorb := h.writeToTranscript(s, v);
      (absorb.0, Some(v), absorb.1, read.1)
  }

  /** The prover's view: absorbs into the transcript, appends to the proof. */
  class TranscriptWriter<S, B, X> {
    const hooks: WriterHooks<S, B, X>
    var state: S
    var buffer: B

    constructor (hooks: WriterHooks<S, B, X>, state: S, buf: B)
      ensures this.hooks == hooks && this.state == state && buffer == buf
    {
      this.hooks := hooks;
      this.state := state;
      buffer := buf;
    }

    /** The buffer is only touched when the absorption succeeded. */
    method WriteToProof(value: X) returns (ok: bool)
      modifies this`state, this`buffer
      ensures (ok, state, buffer) == WriteToProofStep(hooks, old(state), old(buffer), value)
    {
      var absorb := hooks.writeToTranscript(state, value);
      state := absorb.1;
      if !absorb.0 {
        return false;
      }
      var write := hooks.doWriteToProof(buffer, value);
      buffer := write.1;
      ok := write.0;
    }
  }

  /** The verifier's view: reads from the proof, then absorbs. */
  class TranscriptReader<S, B, X> {
    const hooks: ReaderHooks<S, B, X>
    var state: S
    var buffer: B

    constructor (hooks: ReaderHooks<S, B, X>, state: S, buf: B)
      ensures this.hooks == hooks && this.state == state && buffer == buf
    {
      this.hooks := hooks;
      this.state := state;
      buffer := buf;
    }

    /** A failed read leaves the transcript state as it was. */
    method ReadFromProof() returns (ok: bool, value: Option<X>)
      modifies this`state, this`buffer
      ensures (ok, value, state, buffer) == ReadFromProofStep(hooks, old(state), old(buffer))
      ensures value.None? ==> !ok && state == old(state)
    {
      var read := hooks.doReadFromProof(buffer);
      buffer := read.1;
      value := read.0;
      if read.0.None? {
        return false, value;
      }
      var absorb := hooks.writeToTranscript(state, read.0.value);
      state := absorb.1;
      ok := absorb.0;
    }
  }

  /** When absorption cannot fail (as in every concrete transcript here), the
      result of writing to the proof is the result of the buffer write. */
  lemma AbsorbingNeverFailsWrite<S, B, X>(h: WriterHooks<S, B, X>, s: S, b: B, v: X)
    requires forall s': S, v': X :: h.writeToTranscript(s', v').0
    ensures WriteToProofStep(h, s, b, v).0 == h.doWriteToProof(b, v).0
    ensures WriteToProofStep(h, s, b, v).2 == h.doWriteToProof(b, v).1
  {
    assert h.writeToTranscript(s, v).0;
  }

  /** One step of replay: when the reader absorbs as the writer does and its
      read returns the value the writer wrote, reader and writer leave the
      step in the same transcript state with the same result. */
  lemma ReplayStep<S, B, B', X>(w: WriterHooks<S, B, X>, r: ReaderHooks<S, B', X>,
                                s: S, b: B, b': B', v: X)
    requires w.writeToTranscript == r.writeToTranscript
    requires w.writeToTranscript(s, v).0 && w.doWriteToProof(b, v).0
    requires r.doReadFromProof(b').0 == Some(v)
    ensures var wr := WriteToProofStep(w, s, b, v);
      var rd := ReadFromProofStep(r, s, b');
      wr.0 && rd.0 && wr.1 == rd.2 && rd.1 == Some(v)
  {
  }

  // ---------------------------------------------------------------------------
  // The SHA-256 transcript as an instance of the generic views.

  /** `Sha256Writer`'s overrides: the value type is a point or a scalar. */
  function Sha256WriterHooks(p: TranscriptParams): WriterHooks<seq<Byte>, seq<Byte>, Item<AffinePoint, Fr>> {
    WriterHooks(
      (s: seq<Byte>, v: Item<AffinePoint, Fr>) =>
        match v
        case CommitmentItem(pt) => (true, s + PointAbsorption(p, pt))
        case FieldItem(x) => (true, s + ScalarAbsorption(p, x)),
      (b: seq<Byte>, v: Item<AffinePoint, Fr>) =>
        match v
        case CommitmentItem(pt) => (true, b + PointBytes(p, pt))
        case FieldItem(x) => (true, b + ScalarBytes(p, x)))
  }

  /** `Sha256Reader`'s overrides; the reader's buffer is the unread input. */
  function Sha256ReaderHooks(p: TranscriptParams, readPoint: bool): ReaderHooks<seq<Byte>, seq<Byte>, Item<AffinePoint, Fr>> {
    ReaderHooks(
      Sha256WriterHooks(p).writeToTranscript,
      (b: seq<Byte>) =>
        if readPoint then
          match ParsePoint(p, b)
          case None => (None, b)
          case Some((pt, rest)) => (Some(CommitmentItem(pt)), rest)
        else
          match ParseScalar(p, b)
          case None => (None, b)
          case Some((x, rest)) => (Some(FieldItem(x)), rest))
  }

  /** A scalar written by the SHA-256 writer is read back by the SHA-256
      reader from the front of the written bytes: both succeed, end in the
      same transcript state, and the reader consumes exactly those bytes. */
  lemma Sha256ScalarReplay(p: TranscriptParams, s: seq<Byte>, x: Fr, rest: seq<Byte>)
    requires p.Valid() && IsScalar(p, x)
    ensures var wr := WriteToProofStep(Sha256WriterHooks(p), s, [], FieldItem(x));
      var rd := ReadFromProofStep(Sha256ReaderHooks(p, false), s, wr.2 + rest);
      wr.0 && rd.0 && rd.1 == Some(FieldItem(x)) && rd.2 == wr.1 && rd.3 == rest
  {
    assert [] + ScalarBytes(p, x) == ScalarBytes(p, x);
    ScalarRoundTrip(p, x, rest);
  }

  lemma Sha256PointReplay(p: TranscriptParams, s: seq<Byte>, pt: AffinePoint, rest: seq<Byte>)
    requires p.Valid() && IsPoint(p, pt)
    ensures var wr := WriteToProofStep(Sha256WriterHooks(p), s, [], CommitmentItem(pt));
      var rd := ReadFromProofStep(Sha256ReaderHooks(p, true), s, wr.2 + rest);
      wr.0 && rd.0 && rd.1 == Some(CommitmentItem(pt)) && rd.2 == wr.1 && rd.3 == rest
  {
    assert [] + PointBytes(p, pt) == PointBytes(p, pt);
    PointRoundTrip(p, pt, rest);
  }
}
