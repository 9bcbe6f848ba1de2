/** Appending a whole frame to an output buffer. */
module FrameWriter {
  import opened Wrappers
  import opened Octets
  import opened Wire
  import opened WireBuffers
  import opened LinkFrames
  import opened CoreFrames

  /** What `EncodeFrame` makes of `f` is in the buffer, or nothing is. */
  ghost predicate Appended(encoded: Result<seq<byte>, EncodeError>, r: Result<(), EncodeError>,
                           before: seq<byte>, after: seq<byte>)
  {
    match encoded
    case Ok(b) => r.Ok? && after == before + b
    case Err(error) => r == Err(error) && after == before
  }

  /** `EncodeFrame` of a table's frame, said of its payload. */
  function Finished(head: Header, written: Result<seq<byte>, EncodeError>): Result<seq<byte>, EncodeError> {
    var payload :- written;
    LengthFits();
    var length := KIND_AND_SESSION_LEN + |payload|;
    if length > MAX_FRAME_LEN then Err(TooLong("frame", length, MAX_FRAME_LEN)) else Ok(Framed(Body(head, payload)))
  }

  lemma {:induction false} EncodeIsFinished(table: Table, f: Frame)
    requires IsFrame(table, f)
    ensures EncodeFrame(CodecOf(table), f) == Finished(f.head, Encode(table[f.head.kind].shape, f.payload))
  {
  }

  /** Append `f`, its length written over a placeholder once it is known. On an
      error the buffer is left as it was. */
  method AppendFrame(w: Writer, table: Table, f: Frame) returns (r: Result<(), EncodeError>)
    requires IsFrame(table, f)
    modifies w
    ensures Appended(EncodeFrame(CodecOf(table), f), r, old(w.out), w.out)
  {
    EncodeIsFinished(table, f);
    r := AppendBody(w, f.head, table[f.head.kind].shape, f.payload);
  }

  method AppendBody(w: Writer, head: Header, shape: Shape, payload: Value) returns (r: Result<(), EncodeError>)
    requires Writable(shape, payload)
    modifies w
    ensures Appended(Finished(head, Encode(shape, payload)), r, old(w.out), w.out)
  {
    var start := |w.out|;
    Begin(w, head);
    r := w.Put(shape, payload);
    if r.Err? {
      StillAhead(old(w.out), Begun(head), w.out);
      w.out := w.out[..start];
      return;
    }
    ghost var written := Encode(shape, payload).value;
    Placeholder(old(w.out), head, written);
    r := Seal(w, start, Body(head, written));
  }

  /** A placeholder for the length, then the kind and session. */
  function Begun(head: Header): seq<byte> {
    [0, 0, 0, 0] + ([head.kind] + BigEndian(head.session, 8))
  }

  method Begin(w: Writer, head: Header)
    modifies w
    ensures w.out == old(w.out) + Begun(head)
  {
    w.out := w.out + [0, 0, 0, 0];
    w.out := w.out + [head.kind];
    w.PutWord(head.session, 8);
    Glue(old(w.out) + [0, 0, 0, 0], [head.kind], BigEndian(head.session, 8));
    Glue(old(w.out), [0, 0, 0, 0], [head.kind] + BigEndian(head.session, 8));
  }

  lemma {:induction false} StillAhead(before: seq<byte>, more: seq<byte>, after: seq<byte>)
    requires before + more <= after
    ensures after[..|before|] == before
  {
    assert after[..|before|] == (before + more)[..|before|];
  }

  /** Write the length of what follows the placeholder at `start`, or take the
      frame back when it is too long. */
  method Seal(w: Writer, start: nat, ghost body: seq<byte>) returns (r: Result<(), EncodeError>)
    requires start + 4 <= |w.out| && w.out[start + 4..] == body
    modifies w
    ensures if |body| > MAX_FRAME_LEN
            then r == Err(TooLong("frame", |body|, MAX_FRAME_LEN)) && w.out == old(w.out)[..start]
            else r.Ok? && |body| < Span(4) && w.out == old(w.out)[..start] + Framed(body)
  {
    LengthFits();
    var length := |w.out| - start - 4;
    if length > MAX_FRAME_LEN {
      w.out := w.out[..start];
      return Err(TooLong("frame", length, MAX_FRAME_LEN));
    }
    w.out := w.out[..start] + (BigEndian(length, 4) + w.out[start + 4..]);
    return Ok(());
  }

  lemma {:induction false} Placeholder(before: seq<byte>, head: Header, payload: seq<byte>)
    ensures var out := before + Begun(head) + payload;
            |before| + 4 <= |out| && out[..|before|] == before && out[|before| + 4..] == Body(head, payload)
  {
    var kind := [head.kind] + BigEndian(head.session, 8);
    assert before + Begun(head) + payload == before + [0, 0, 0, 0] + (kind + payload);
  }
}
