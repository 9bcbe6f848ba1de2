/**
  The core link's frames: `u32 length | u8 kind | u64 session | payload`, the
  length counting everything after itself. What an edge and the core exchange
  is a stream of them, cut into reads wherever the transport pleases.
 */
module LinkFrames {
  import opened Wrappers
  import opened Octets
  import opened Wire

  const MAX_FRAME_LEN: nat := 0x10_0000
  const KIND_AND_SESSION_LEN: nat := 9

  datatype FrameError =
    | ShortFrame(length: nat)
    | LongFrame(length: nat)
    | UnknownKind(kind: byte)
    | MissingSession
    | UnexpectedSession(kind: byte)
    | BadPayload(error: DecodeError)

  /** What goes before a payload: the frame's kind, and the session it concerns
      or 0 for a frame about the link. */
  datatype Header = Header(kind: byte, session: SessionWord)

  type SessionWord = n: nat | n < Span(8)

  /** One direction's frames: how each is headed, how its whole payload is written
      and read, and which of those that are written the reader admits. */
  datatype Codec<!F> = Codec(
    header: F -> Header,
    write: F -> Result<seq<byte>, EncodeError>,
    read: (Header, seq<byte>) -> Result<F, FrameError>,
    admits: F -> bool)

  /** What is read is exactly what is admitted and written; what is written and
      not admitted is refused. */
  ghost predicate Lawful<F(!new)>(c: Codec<F>) {
    && (forall head, payload, f ::
          c.read(head, payload) == Ok(f) <==> c.admits(f) && c.header(f) == head && c.write(f) == Ok(payload))
    && (forall f :: c.write(f).Ok? && !c.admits(f) ==> c.read(c.header(f), c.write(f).value).Err?)
  }

  /** The kind, session and payload of a frame. */
  function Body(head: Header, payload: seq<byte>): seq<byte> {
    [head.kind] + BigEndian(head.session, 8) + payload
  }

  /** A frame's body behind its length. */
  function Framed(body: seq<byte>): seq<byte>
    requires |body| < Span(4)
  {
    BigEndian(|body|, 4) + body
  }

  function EncodeFrame<F>(c: Codec<F>, f: F): Result<seq<byte>, EncodeError> {
    var payload :- c.write(f);
    var body := Body(c.header(f), payload);
    LengthFits();
    if |body| > MAX_FRAME_LEN then Err(TooLong("frame", |body|, MAX_FRAME_LEN)) else Ok(Framed(body))
  }

  function HeaderOf(body: seq<byte>): Header
    requires |body| >= KIND_AND_SESSION_LEN
  {
    Header(body[0], FromBigEndian(body[1..9]))
  }

  /** The first whole frame of `b` and what follows it; nothing while `b` holds
      less than one. */
  function DecodeFrame<F>(c: Codec<F>, b: seq<byte>): (r: Result<Option<(F, seq<byte>)>, FrameError>)
    ensures r.Ok? && r.value.Some? ==> |r.value.value.1| < |b|
  {
    if |b| < 4 then Ok(None)
    else
      var length := FromBigEndian(b[..4]);
      if length < KIND_AND_SESSION_LEN then Err(ShortFrame(length))
      else if length > MAX_FRAME_LEN then Err(LongFrame(length))
      else if |b| < 4 + length then Ok(None)
      else
        var body := b[4..4 + length];
        var frame :- c.read(HeaderOf(body), body[9..]);
        Ok(Some((frame, b[4 + length..])))
  }

  lemma {:induction false} BodyParts(head: Header, payload: seq<byte>)
    ensures HeaderOf(Body(head, payload)) == head && Body(head, payload)[9..] == payload
  {
    assert Body(head, payload)[1..9] == BigEndian(head.session, 8);
    WordSurvives(head.session, 8);
  }

  lemma {:induction false} BodyWhole(body: seq<byte>)
    requires |body| >= KIND_AND_SESSION_LEN
    ensures Body(HeaderOf(body), body[9..]) == body
  {
    BytesSurvive(body[1..9]);
    assert body == [body[0]] + body[1..9] + body[9..];
  }

  /** A frame as its bytes: four that count the rest, one for the kind, eight for the
      session, and the payload. */
  lemma {:induction false} FrameLayout<F>(c: Codec<F>, f: F)
    requires EncodeFrame(c, f).Ok?
    ensures var b := EncodeFrame(c, f).value;
            && |b| >= 13 && |b| <= 4 + MAX_FRAME_LEN
            && FromBigEndian(b[..4]) == |b| - 4
            && b[4] == c.header(f).kind
            && FromBigEndian(b[5..13]) == c.header(f).session
            && c.write(f) == Ok(b[13..])
  {
    var body := Body(c.header(f), c.write(f).value);
    LengthFits();
    FramedParts(body, []);
    BodyParts(c.header(f), c.write(f).value);
    var b := Framed(body);
    assert b + [] == b && b[4..] == body && b[5..13] == body[1..9] && b[13..] == body[9..];
  }

  lemma {:induction false} LengthFits()
    ensures MAX_FRAME_LEN < Span(4)
  {
    assert Span(2) == 0x1_0000 && Span(3) == 0x100_0000;
  }

  lemma {:induction false} FramedParts(body: seq<byte>, tail: seq<byte>)
    requires |body| < Span(4)
    ensures var b := Framed(body) + tail;
            FromBigEndian(b[..4]) == |body| && b[4..4 + |body|] == body && b[4 + |body|..] == tail
  {
    assert (Framed(body) + tail)[..4] == BigEndian(|body|, 4);
    WordSurvives(|body|, 4);
  }

  lemma {:induction false} FramedWhole(b: seq<byte>)
    requires |b| >= 4 && 4 + FromBigEndian(b[..4]) <= |b|
    ensures var length := FromBigEndian(b[..4]);
            b == Framed(b[4..4 + length]) + b[4 + length..]
  {
    BytesSurvive(b[..4]);
  }

  /** A frame the reader admits, whatever follows it, is read back alone; any
      other is refused. */
  lemma {:induction false} FrameRoundTrip<F(!new)>(c: Codec<F>, f: F, tail: seq<byte>)
    requires Lawful(c) && EncodeFrame(c, f).Ok?
    ensures var read := DecodeFrame(c, EncodeFrame(c, f).value + tail);
            if c.admits(f) then read == Ok(Some((f, tail))) else read == Err(c.read(c.header(f), c.write(f).value).error)
  {
    LengthFits();
    FramedParts(Body(c.header(f), c.write(f).value), tail);
    BodyParts(c.header(f), c.write(f).value);
  }

  /** Part of a frame is awaited, never refused. */
  lemma {:induction false} PartIsAwaited<F(!new)>(c: Codec<F>, f: F, k: nat)
    requires Lawful(c) && EncodeFrame(c, f).Ok? && k < |EncodeFrame(c, f).value|
    ensures DecodeFrame(c, EncodeFrame(c, f).value[..k]) == Ok(None)
  {
    var e := EncodeFrame(c, f).value;
    LengthFits();
    FramedParts(Body(c.header(f), c.write(f).value), []);
    if k >= 4 {
      assert e[..k][..4] == (e + [])[..4];
    }
  }

  /** A frame that is read is one the reader admits and an encoder wrote, byte for
      byte. */
  lemma {:induction false} FrameCanonical<F(!new)>(c: Codec<F>, b: seq<byte>)
    requires Lawful(c) && DecodeFrame(c, b).Ok? && DecodeFrame(c, b).value.Some?
    ensures var (f, rest) := DecodeFrame(c, b).value.value;
            c.admits(f) && EncodeFrame(c, f).Ok? && b == EncodeFrame(c, f).value + rest
  {
    FramedWhole(b);
    BodyWhole(b[4..4 + FromBigEndian(b[..4])]);
  }

  // ---- streams

  /** What came of decoding for as long as there was a whole frame. */
  datatype Progress<F> = Progress(frames: seq<F>, rest: seq<byte>, broken: Option<FrameError>)

  function Ahead<F>(frame: F, later: Progress<F>): Progress<F> {
    later.(frames := [frame] + later.frames)
  }

  function DecodeStream<F>(c: Codec<F>, b: seq<byte>): Progress<F>
    decreases |b|
  {
    match DecodeFrame(c, b)
    case Err(error) => Progress([], b, Some(error))
    case Ok(None) => Progress([], b, None)
    case Ok(Some((frame, rest))) =>
      Ahead(frame, DecodeStream(c, rest))
  }

  /** However the bytes are cut into reads, the frames are the same: decoding
      what has arrived and then the rest is decoding it all at once. */
  lemma {:induction false} CutsDoNotMatter<F>(c: Codec<F>, a: seq<byte>, b: seq<byte>)
    ensures var early := DecodeStream(c, a);
            var whole := DecodeStream(c, a + b);
            if early.broken.Some? then
              whole.frames == early.frames && whole.broken == early.broken
            else
              var later := DecodeStream(c, early.rest + b);
              whole == later.(frames := early.frames + later.frames)
    decreases |a|
  {
    match DecodeFrame(c, a)
    case Err(error) => HeadStands(c, a, b);
    case Ok(None) =>
      var later := DecodeStream(c, a + b);
      assert [] + later.frames == later.frames;
    case Ok(Some((frame, rest))) =>
      HeadStands(c, a, b);
      CutsDoNotMatter(c, rest, b);
      var early := DecodeStream(c, rest);
      if early.broken.None? {
        Glue([frame], early.frames, DecodeStream(c, early.rest + b).frames);
      }
  }

  /** A verdict on the first frame stands whatever arrives after it. */
  lemma {:induction false} HeadStands<F>(c: Codec<F>, a: seq<byte>, b: seq<byte>)
    requires DecodeFrame(c, a) != Ok(None)
    ensures DecodeFrame(c, a + b)
         == match DecodeFrame(c, a)
            case Err(error) => Err(error)
            case Ok(Some((frame, rest))) => Ok(Some((frame, rest + b)))
            case Ok(None) => Ok(None)
  {
    assert (a + b)[..4] == a[..4];
    var length := FromBigEndian(a[..4]);
    if KIND_AND_SESSION_LEN <= length <= MAX_FRAME_LEN {
      assert (a + b)[4..4 + length] == a[4..4 + length];
      assert (a + b)[4 + length..] == a[4 + length..] + b;
    }
  }

  function Concat(pieces: seq<seq<byte>>): seq<byte> {
    if pieces == [] then [] else pieces[0] + Concat(pieces[1..])
  }

  /** How many of `pieces` end within the first `k` bytes of them laid end to
      end, and where the last of those ends. */
  function EndedBy(pieces: seq<seq<byte>>, k: nat): (ended: (nat, nat))
    ensures ended.0 <= |pieces| && ended.1 <= k
  {
    if pieces == [] || k < |pieces[0]| then (0, 0)
    else
      var (count, end) := EndedBy(pieces[1..], k - |pieces[0]|);
      (count + 1, |pieces[0]| + end)
  }

  /** What is to be read of a stream cut at `k`: exactly the frames that end by
      `k`, with the part of the next kept and nothing refused. */
  function ReadBy<F>(frames: seq<F>, pieces: seq<seq<byte>>, k: nat): Progress<F>
    requires |frames| == |pieces| && k <= |Concat(pieces)|
  {
    var (count, end) := EndedBy(pieces, k);
    Progress(frames[..count], Concat(pieces)[end..k], None)
  }

  /** What reading needs of one frame's bytes. */
  ghost predicate ReadsAs<F>(c: Codec<F>, frame: F, piece: seq<byte>) {
    && (forall tail :: DecodeFrame(c, piece + tail) == Ok(Some((frame, tail))))
    && (forall k | 0 <= k < |piece| :: DecodeFrame(c, piece[..k]) == Ok(None))
  }

  /** A stream of encoded frames the reader admits, cut anywhere, is read to the
      last whole frame. */
  lemma {:induction false} StreamCut<F(!new)>(c: Codec<F>, frames: seq<F>, pieces: seq<seq<byte>>, k: nat)
    requires Lawful(c) && |frames| == |pieces|
    requires forall i | 0 <= i < |frames| :: c.admits(frames[i]) && EncodeFrame(c, frames[i]) == Ok(pieces[i])
    requires k <= |Concat(pieces)|
    ensures DecodeStream(c, Concat(pieces)[..k]) == ReadBy(frames, pieces, k)
  {
    forall i | 0 <= i < |frames| ensures ReadsAs(c, frames[i], pieces[i]) {
      forall tail ensures DecodeFrame(c, pieces[i] + tail) == Ok(Some((frames[i], tail))) {
        FrameRoundTrip(c, frames[i], tail);
      }
      forall k | 0 <= k < |pieces[i]| ensures DecodeFrame(c, pieces[i][..k]) == Ok(None) {
        PartIsAwaited(c, frames[i], k);
      }
    }
    EachReads(c, frames, pieces);
    PiecesCut(c, frames, pieces, k);
  }

  ghost predicate AllRead<F>(c: Codec<F>, frames: seq<F>, pieces: seq<seq<byte>>)
    requires |frames| == |pieces|
  {
    frames == [] || (ReadsAs(c, frames[0], pieces[0]) && AllRead(c, frames[1..], pieces[1..]))
  }

  lemma {:induction false} EachReads<F>(c: Codec<F>, frames: seq<F>, pieces: seq<seq<byte>>)
    requires |frames| == |pieces|
    requires forall i | 0 <= i < |frames| :: ReadsAs(c, frames[i], pieces[i])
    ensures AllRead(c, frames, pieces)
  {
    if frames != [] {
      EachReads(c, frames[1..], pieces[1..]);
    }
  }

  lemma {:induction false} PiecesCut<F>(c: Codec<F>, frames: seq<F>, pieces: seq<seq<byte>>, k: nat)
    requires |frames| == |pieces| && k <= |Concat(pieces)| && AllRead(c, frames, pieces)
    ensures ReadsTo(c, frames, pieces, k)
    decreases |frames|
  {
    if frames == [] {
      NothingToRead(c, frames, pieces, k);
    } else if k < |pieces[0]| {
      DecodeInsideFirst(c, frames, pieces, k);
    } else {
      PiecesCut(c, frames[1..], pieces[1..], k - |pieces[0]|);
      DecodePastFirst(c, frames[0], pieces, k);
      ReadPastFirst(frames, pieces, k);
    }
  }

  ghost predicate ReadsTo<F>(c: Codec<F>, frames: seq<F>, pieces: seq<seq<byte>>, k: nat)
    requires |frames| == |pieces| && k <= |Concat(pieces)|
  {
    DecodeStream(c, Concat(pieces)[..k]) == ReadBy(frames, pieces, k)
  }

  lemma {:induction false} NothingToRead<F>(c: Codec<F>, frames: seq<F>, pieces: seq<seq<byte>>, k: nat)
    requires |frames| == |pieces| == 0 && k <= |Concat(pieces)|
    ensures ReadsTo(c, frames, pieces, k)
  {
  }

  lemma {:induction false} DecodeInsideFirst<F>(c: Codec<F>, frames: seq<F>, pieces: seq<seq<byte>>, k: nat)
    requires |frames| == |pieces| > 0 && ReadsAs(c, frames[0], pieces[0]) && k < |pieces[0]| && k <= |Concat(pieces)|
    ensures ReadsTo(c, frames, pieces, k)
  {
    assert Concat(pieces)[..k] == pieces[0][..k];
  }

  lemma {:induction false} StreamHead<F>(c: Codec<F>, b: seq<byte>, frame: F, rest: seq<byte>)
    requires DecodeFrame(c, b) == Ok(Some((frame, rest)))
    ensures DecodeStream(c, b) == Ahead(frame, DecodeStream(c, rest))
  {
  }

  lemma {:induction false} FirstThenMore<F>(c: Codec<F>, frame: F, piece: seq<byte>, more: seq<byte>)
    requires ReadsAs(c, frame, piece)
    ensures DecodeStream(c, piece + more) == Ahead(frame, DecodeStream(c, more))
  {
    StreamHead(c, piece + more, frame, more);
  }

  lemma {:induction false} DecodePastFirst<F>(c: Codec<F>, frame: F, pieces: seq<seq<byte>>, k: nat)
    requires pieces != [] && |pieces[0]| <= k <= |Concat(pieces)| && ReadsAs(c, frame, pieces[0])
    ensures DecodeStream(c, Concat(pieces)[..k]) == Ahead(frame, DecodeStream(c, Concat(pieces[1..])[..k - |pieces[0]|]))
  {
    var first, more, left := pieces[0], Concat(pieces[1..]), k - |pieces[0]|;
    FirstThenMore(c, frame, first, more[..left]);
    assert Concat(pieces)[..k] == first + more[..left] by {
      Slices(first, more, 0, left);
    }
  }

  lemma {:induction false} ReadPastFirst<F>(frames: seq<F>, pieces: seq<seq<byte>>, k: nat)
    requires |frames| == |pieces| > 0 && |pieces[0]| <= k <= |Concat(pieces)|
    ensures ReadBy(frames, pieces, k) == Ahead(frames[0], ReadBy(frames[1..], pieces[1..], k - |pieces[0]|))
  {
    var left := k - |pieces[0]|;
    var (count, end) := EndedBy(pieces[1..], left);
    Slices(pieces[0], Concat(pieces[1..]), end, left);
    FirstAndMore(frames, count);
  }

  lemma {:induction false} FirstAndMore<F>(frames: seq<F>, count: nat)
    requires count < |frames|
    ensures [frames[0]] + frames[1..][..count] == frames[..count + 1]
  {
  }

  lemma {:induction false} Slices(first: seq<byte>, more: seq<byte>, end: nat, left: nat)
    requires end <= left <= |more|
    ensures (first + more)[..|first| + left] == first + more[..left]
    ensures (first + more)[|first| + end..|first| + left] == more[end..left]
  {
  }
}

/** The frames whose payloads are shapes, and the core's own. */
module CoreFrames {
  import opened Wrappers
  import opened Octets
  import opened Wire
  import opened LinkFrames

  /** A frame kind: what its payload holds, and whether it concerns a session
      (whose identifier is then not 0) or the link itself (then 0). */
  datatype Kind = Kind(shape: Shape, ofSession: bool)

  /** One direction's kinds. */
  type Table = table: map<byte, Kind> | forall kind :: kind in table ==> WellFormed(table[kind].shape)
    witness map[]

  datatype Frame = Frame(head: Header, payload: Value)

  /** A frame of `table`, as its writer's types guarantee. */
  predicate IsFrame(table: Table, f: Frame) {
    && f.head.kind in table
    && (table[f.head.kind].ofSession <==> f.head.session != 0)
    && Writable(table[f.head.kind].shape, f.payload)
  }

  /** A frame of `table` that its reader admits. */
  predicate Admits(table: Table, f: Frame) {
    IsFrame(table, f) && Admitted(table[f.head.kind].shape, f.payload)
  }

  function WriteFrame(table: Table, f: Frame): Result<seq<byte>, EncodeError> {
    if IsFrame(table, f) then Encode(table[f.head.kind].shape, f.payload) else Err(TooLong("no frame", 0, 0))
  }

  function ReadFrame(table: Table, head: Header, payload: seq<byte>): Result<Frame, FrameError> {
    if head.kind !in table then Err(UnknownKind(head.kind))
    else if table[head.kind].ofSession && head.session == 0 then Err(MissingSession)
    else if !table[head.kind].ofSession && head.session != 0 then Err(UnexpectedSession(head.kind))
    else match DecodeWhole(table[head.kind].shape, payload)
         case Ok(value) => Ok(Frame(head, value))
         case Err(error) => Err(BadPayload(error))
  }

  function CodecOf(table: Table): Codec<Frame> {
    Codec((f: Frame) => f.head, (f: Frame) => WriteFrame(table, f), (head, payload) => ReadFrame(table, head, payload),
          (f: Frame) => Admits(table, f))
  }

  /** Every table of shapes is a lawful codec, so all of the above is true of
      its frames. */
  lemma {:induction false} TableIsLawful(table: Table)
    ensures Lawful(CodecOf(table))
  {
    forall head, payload, f
      ensures ReadFrame(table, head, payload) == Ok(f) <==> Admits(table, f) && f.head == head && WriteFrame(table, f) == Ok(payload)
    {
      if head.kind in table {
        WholeIsEncoded(table[head.kind].shape, payload, f.payload);
      }
    }
    forall f | WriteFrame(table, f).Ok? && !Admits(table, f)
      ensures ReadFrame(table, f.head, WriteFrame(table, f).value).Err?
    {
      NotAdmitted(table, f);
    }
  }

  /** A frame the writer takes and the reader does not admit is refused for the
      first field at fault. */
  lemma {:induction false} NotAdmitted(table: Table, f: Frame)
    requires IsFrame(table, f) && !Admits(table, f) && WriteFrame(table, f).Ok?
    ensures ReadFrame(table, f.head, WriteFrame(table, f).value)
         == Err(BadPayload(Invalid(Fault(table[f.head.kind].shape, f.payload))))
  {
    var written := WriteFrame(table, f).value;
    WrittenIsRefused(table[f.head.kind].shape, f.payload, |written|, []);
    assert written[..|written|] + [] == written;
  }

  function u16(field: string): Shape { Word(field, 2, 0, Span(2) - 1) }
  function u32(field: string): Shape { Word(field, 4, 0, Span(4) - 1) }
  function u64(field: string): Shape { Word(field, 8, 0, Span(8) - 1) }

  const MAX_TRUSTED_PROXIES: nat := 1024
  const MAX_STREAMS: nat := 256

  function ProxiesShape(): Shape {
    Listing("trusted proxies", MAX_TRUSTED_PROXIES, Network("trusted proxy", "trusted proxy prefix"))
  }

  function LimitShape(): Shape {
    Optional("connection limit", u32("connection limit"))
  }

  function FloodShape(): Shape {
    Optional("command flood", Then(u32("flood burst"), u32("flood rate")))
  }

  function QueueShape(): Shape {
    Then(u32("send-queue bytes"), Then(FloodShape(), u32("line credit")))
  }

  function Terms(): Shape {
    Then(ProxiesShape(), Then(LimitShape(), QueueShape()))
  }

  function Welcome(): Shape {
    Then(u16("version"), Then(u64("epoch"), Then(Word("slot", 2, 1, 0x3FFF), Then(Word("streams", 2, 1, MAX_STREAMS), Terms()))))
  }

  /** What the core sends an edge. */
  function CoreKind(kind: byte): Option<Kind> {
    match kind
    case 0x41 => Some(Kind(Welcome(), false))
    case 0x42 => Some(Kind(Text("refusal", 2048), false))
    case 0x43 => Some(Kind(Bytes("output", MAX_FRAME_LEN - KIND_AND_SESSION_LEN - 4), true))
    case 0x44 => Some(Kind(Bytes("final line", MAX_FRAME_LEN - KIND_AND_SESSION_LEN - 4), true))
    case 0x45 => Some(Kind(Optional("close frame", Then(u16("close code"), Text("close reason", 123))), true))
    case 0x46 => Some(Kind(Flag("flood exemption"), true))
    case 0x47 => Some(Kind(u32("credit"), false))
    case 0x48 => Some(Kind(u32("credit"), true))
    case _ => None
  }

  lemma {:induction false} WordIsSound(field: string, width: nat, least: nat, most: nat)
    requires width in {1, 2, 4, 8} && least <= most < Span(width)
    ensures WellFormed(Word(field, width, least, most)) && Longest(Word(field, width, least, most)) == width
  {
  }

  lemma {:induction false} Sound(first: Shape, rest: Shape, a: nat, b: nat)
    requires WellFormed(first) && WellFormed(rest) && Longest(first) == a && Longest(rest) == b
    ensures WellFormed(Then(first, rest)) && Longest(Then(first, rest)) == a + b
  {
  }

  lemma {:induction false} TermsAreSound()
    ensures WellFormed(Terms()) && Longest(Terms()) == 18456
  {
    var number := Span(4) - 1;
    assert Span(2) == 0x1_0000;
    assert WellFormed(ProxiesShape()) && Longest(ProxiesShape()) == 18434;
    WordIsSound("flood burst", 4, 0, number);
    WordIsSound("flood rate", 4, 0, number);
    Sound(u32("flood burst"), u32("flood rate"), 4, 4);
    WordIsSound("line credit", 4, 0, number);
    Sound(FloodShape(), u32("line credit"), 9, 4);
    WordIsSound("send-queue bytes", 4, 0, number);
    Sound(u32("send-queue bytes"), Then(FloodShape(), u32("line credit")), 4, 13);
    WordIsSound("connection limit", 4, 0, number);
    Sound(LimitShape(), QueueShape(), 5, 17);
    Sound(ProxiesShape(), Then(LimitShape(), QueueShape()), 18434, 22);
  }

  lemma {:induction false} WelcomeIsSound()
    ensures WellFormed(Welcome()) && Longest(Welcome()) == 18470
  {
    Spans();
    TermsAreSound();
    WordIsSound("streams", 2, 1, MAX_STREAMS);
    Sound(Welcome().rest.rest.rest.first, Terms(), 2, 18456);
    WordIsSound("slot", 2, 1, 0x3FFF);
    Sound(Welcome().rest.rest.first, Welcome().rest.rest.rest, 2, 18458);
    WordIsSound("epoch", 8, 0, Span(8) - 1);
    Sound(u64("epoch"), Welcome().rest.rest, 8, 18460);
    WordIsSound("version", 2, 0, Span(2) - 1);
    Sound(u16("version"), Welcome().rest, 2, 18468);
  }

  lemma {:induction false} CoreKindsAreSound(kind: byte)
    requires CoreKind(kind).Some?
    ensures WellFormed(CoreKind(kind).value.shape) && KIND_AND_SESSION_LEN + Longest(CoreKind(kind).value.shape) <= MAX_FRAME_LEN
  {
    if kind == 0x41 {
      WelcomeIsSound();
    } else if kind == 0x45 {
      assert Span(2) == 0x1_0000;
      LengthFits();
      Sound(u16("close code"), Text("close reason", 123), 2, 127);
    } else {
      LengthFits();
    }
  }

  function CoreTable(): Table {
    assert forall kind: byte | 0x41 <= kind <= 0x48 :: WellFormed(CoreKind(kind).value.shape) by {
      forall kind: byte | 0x41 <= kind <= 0x48 ensures WellFormed(CoreKind(kind).value.shape) {
        CoreKindsAreSound(kind);
      }
    }
    map kind: byte | 0x41 <= kind <= 0x48 :: CoreKind(kind).value
  }

  lemma {:induction false} FitsAFrame(table: Table, f: Frame)
    requires IsFrame(table, f) && WriteFrame(table, f).Ok?
    requires KIND_AND_SESSION_LEN + Longest(table[f.head.kind].shape) <= MAX_FRAME_LEN
    ensures EncodeFrame(CodecOf(table), f).Ok?
  {
    NoLonger(table[f.head.kind].shape, f.payload);
  }

  /** No core frame can be refused for its whole length: what its fields' bounds
      let through always fits a frame. */
  lemma {:induction false} CoreFramesFit(f: Frame)
    requires IsFrame(CoreTable(), f) && WriteFrame(CoreTable(), f).Ok?
    ensures EncodeFrame(CodecOf(CoreTable()), f).Ok?
  {
    CoreKindsAreSound(f.head.kind);
    FitsAFrame(CoreTable(), f);
  }

  // ---- what a `Welcome` must be to be read

  type U8 = n: nat | n < 0x100
  type U16 = n: nat | n < 0x1_0000
  type U32 = n: nat | n < 0x1_0000_0000
  type U64 = n: nat | n < 0x1_0000_0000_0000_0000
  type Slot = n: nat | 1 <= n <= 0x3FFF witness 1
  type IpAddr = ip: Address | IsAddress(ip) witness V4([0, 0, 0, 0])

  datatype Proxy = Proxy(network: IpAddr, prefix: U8)

  datatype Flood = Flood(burst: U32, rate: U32)

  datatype EdgeTerms = EdgeTerms(
    trustedProxies: seq<Proxy>,
    connectionLimit: Option<U32>,
    sendqBytes: U32,
    flood: Option<Flood>,
    lineCredit: U32)

  /** The core's answer to a `Hello` it accepts. */
  datatype Greeting = Greeting(version: U16, epoch: U64, slot: Slot, streams: U16, terms: EdgeTerms)

  function Proxies(proxies: seq<Proxy>): seq<Value> {
    if proxies == [] then [] else [Range(proxies[0].network, proxies[0].prefix)] + Proxies(proxies[1..])
  }

  function LimitValue(limit: Option<U32>): Value {
    if limit.Some? then Present(Number(limit.value)) else Absent
  }

  function FloodValue(flood: Option<Flood>): Value {
    if flood.Some? then Present(Both(Number(flood.value.burst), Number(flood.value.rate))) else Absent
  }

  function QueueValue(terms: EdgeTerms): Value {
    Both(Number(terms.sendqBytes), Both(FloodValue(terms.flood), Number(terms.lineCredit)))
  }

  function TermsValue(terms: EdgeTerms): Value {
    Both(Many(Proxies(terms.trustedProxies)), Both(LimitValue(terms.connectionLimit), QueueValue(terms)))
  }

  function WelcomeFrame(w: Greeting): Frame {
    Frame(Header(0x41, 0),
          Both(Number(w.version), Both(Number(w.epoch), Both(Number(w.slot), Both(Number(w.streams), TermsValue(w.terms))))))
  }

  predicate PrefixesFit(proxies: seq<Proxy>) {
    forall i | 0 <= i < |proxies| :: proxies[i].prefix <= Widest(proxies[i].network)
  }

  /** Everything the reader asks beyond what the writer's types say. */
  predicate Readable(w: Greeting) {
    1 <= w.streams <= MAX_STREAMS && PrefixesFit(w.terms.trustedProxies)
  }

  function BadField(w: Greeting): string {
    if 1 <= w.streams <= MAX_STREAMS then "trusted proxy prefix" else "streams"
  }

  lemma {:induction false} ProxiesAre(proxies: seq<Proxy>)
    ensures |Proxies(proxies)| == |proxies|
    ensures AllTyped(Network("trusted proxy", "trusted proxy prefix"), Proxies(proxies))
    ensures AllAdmitted(Network("trusted proxy", "trusted proxy prefix"), Proxies(proxies)) <==> PrefixesFit(proxies)
    ensures !PrefixesFit(proxies) ==>
              FaultOfAny(Network("trusted proxy", "trusted proxy prefix"), Proxies(proxies)) == "trusted proxy prefix"
    ensures EncodeAll(Network("trusted proxy", "trusted proxy prefix"), Proxies(proxies)).Ok?
    decreases |proxies|
  {
    if proxies != [] {
      ProxiesAre(proxies[1..]);
      assert Proxies(proxies)[1..] == Proxies(proxies[1..]);
      assert PrefixesFit(proxies) <==> proxies[0].prefix <= Widest(proxies[0].network) && PrefixesFit(proxies[1..]) by {
        assert forall i | 1 <= i < |proxies| :: proxies[i] == proxies[1..][i - 1];
      }
    }
  }

  lemma {:induction false} Spans()
    ensures Span(1) == 0x100 && Span(2) == 0x1_0000 && Span(4) == 0x1_0000_0000 && Span(8) == 0x1_0000_0000_0000_0000
  {
    assert Span(3) == 0x100_0000 && Span(5) == 0x100_0000_0000 && Span(6) == 0x1_0000_0000_0000;
  }

  lemma {:induction false} OneAndMore(a: Shape, b: Shape, x: Value, y: Value)
    requires Typed(a, x) && Typed(b, y)
    ensures Typed(Then(a, b), Both(x, y))
    ensures Admitted(Then(a, b), Both(x, y)) <==> Admitted(a, x) && Admitted(b, y)
    ensures !Admitted(Then(a, b), Both(x, y)) ==> Fault(Then(a, b), Both(x, y)) == if Admitted(a, x) then Fault(b, y) else Fault(a, x)
  {
  }

  /** What a value of a shape both sides take is. */
  ghost predicate Passes(s: Shape, v: Value) {
    Writable(s, v) && Encode(s, v).Ok? && Admitted(s, v)
  }

  lemma {:induction false} BothPass(a: Shape, b: Shape, x: Value, y: Value)
    requires Passes(a, x) && Passes(b, y)
    ensures Passes(Then(a, b), Both(x, y))
  {
  }

  lemma {:induction false} AnyWord(field: string, n: U32)
    ensures Passes(u32(field), Number(n))
  {
    Spans();
  }

  lemma {:induction false} FloodPasses(flood: Option<Flood>)
    ensures Passes(FloodShape(), FloodValue(flood))
  {
    Spans();
    if flood.Some? {
      AnyWord("flood burst", flood.value.burst);
      AnyWord("flood rate", flood.value.rate);
      BothPass(u32("flood burst"), u32("flood rate"), Number(flood.value.burst), Number(flood.value.rate));
    }
  }

  lemma {:induction false} LimitPasses(limit: Option<U32>)
    ensures Passes(LimitShape(), LimitValue(limit))
  {
    Spans();
    if limit.Some? {
      AnyWord("connection limit", limit.value);
    }
  }

  lemma {:induction false} RestPasses(terms: EdgeTerms)
    ensures Passes(Then(LimitShape(), QueueShape()), TermsValue(terms).rest)
  {
    LimitPasses(terms.connectionLimit);
    FloodPasses(terms.flood);
    AnyWord("line credit", terms.lineCredit);
    BothPass(FloodShape(), u32("line credit"), FloodValue(terms.flood), Number(terms.lineCredit));
    AnyWord("send-queue bytes", terms.sendqBytes);
    BothPass(u32("send-queue bytes"), QueueShape().rest, Number(terms.sendqBytes), QueueValue(terms).rest);
    BothPass(LimitShape(), QueueShape(), LimitValue(terms.connectionLimit), QueueValue(terms));
  }

  lemma {:induction false} TermsAre(terms: EdgeTerms)
    ensures Writable(Terms(), TermsValue(terms))
    ensures Admitted(Terms(), TermsValue(terms)) <==> PrefixesFit(terms.trustedProxies)
    ensures !PrefixesFit(terms.trustedProxies) ==> Fault(Terms(), TermsValue(terms)) == "trusted proxy prefix"
    ensures |terms.trustedProxies| <= MAX_TRUSTED_PROXIES ==> Encode(Terms(), TermsValue(terms)).Ok?
  {
    TermsAreSound();
    ProxiesAre(terms.trustedProxies);
    RestPasses(terms);
    OneAndMore(ProxiesShape(), Then(LimitShape(), QueueShape()), TermsValue(terms).first, TermsValue(terms).rest);
  }

  /** A number both sides take, before anything else, changes no verdict on it. */
  lemma {:induction false} AfterWord(a: Shape, b: Shape, n: nat, y: Value)
    requires a.Word? && WellFormed(a) && n < Span(a.width) && a.least <= n <= a.most && Writable(b, y)
    ensures Writable(Then(a, b), Both(Number(n), y)) && (Admitted(Then(a, b), Both(Number(n), y)) <==> Admitted(b, y))
    ensures !Admitted(b, y) ==> Fault(Then(a, b), Both(Number(n), y)) == Fault(b, y)
    ensures Encode(b, y).Ok? ==> Encode(Then(a, b), Both(Number(n), y)).Ok?
  {
  }

  lemma {:induction false} StreamsAre(w: Greeting)
    ensures var s, v := Welcome().rest.rest.rest, WelcomeFrame(w).payload.rest.rest.rest;
            && Writable(s, v) && (Admitted(s, v) <==> Readable(w)) && (!Readable(w) ==> Fault(s, v) == BadField(w))
            && (|w.terms.trustedProxies| <= MAX_TRUSTED_PROXIES ==> Encode(s, v).Ok?)
  {
    Spans();
    TermsAre(w.terms);
    OneAndMore(Word("streams", 2, 1, MAX_STREAMS), Terms(), Number(w.streams), TermsValue(w.terms));
  }

  lemma {:induction false} WelcomeValueIs(w: Greeting)
    ensures Writable(Welcome(), WelcomeFrame(w).payload)
    ensures Admitted(Welcome(), WelcomeFrame(w).payload) <==> Readable(w)
    ensures !Readable(w) ==> Fault(Welcome(), WelcomeFrame(w).payload) == BadField(w)
    ensures |w.terms.trustedProxies| <= MAX_TRUSTED_PROXIES ==> Encode(Welcome(), WelcomeFrame(w).payload).Ok?
  {
    Spans();
    StreamsAre(w);
    var v := WelcomeFrame(w).payload;
    AfterWord(Word("slot", 2, 1, 0x3FFF), Welcome().rest.rest.rest, w.slot, v.rest.rest.rest);
    AfterWord(u64("epoch"), Welcome().rest.rest, w.epoch, v.rest.rest);
    AfterWord(u16("version"), Welcome().rest, w.version, v.rest);
  }

  lemma {:induction false} WelcomeIs(w: Greeting)
    ensures IsFrame(CoreTable(), WelcomeFrame(w))
    ensures CoreTable()[0x41] == Kind(Welcome(), false)
    ensures Admits(CoreTable(), WelcomeFrame(w)) <==> Readable(w)
  {
    WelcomeValueIs(w);
    var table := CoreTable();
    assert 0x41 in table && table[0x41] == Kind(Welcome(), false);
  }

  /** A `Welcome` that is written is read back exactly when it names 1 to 256
      streams and no prefix is longer than its address; any other is refused, for
      the first of these it fails. */
  lemma {:induction false} WelcomeRoundTripIff(w: Greeting, tail: seq<byte>)
    requires EncodeFrame(CodecOf(CoreTable()), WelcomeFrame(w)).Ok?
    ensures var read := DecodeFrame(CodecOf(CoreTable()), EncodeFrame(CodecOf(CoreTable()), WelcomeFrame(w)).value + tail);
            if Readable(w) then read == Ok(Some((WelcomeFrame(w), tail))) else read == Err(BadPayload(Invalid(BadField(w))))
  {
    var table, f := CoreTable(), WelcomeFrame(w);
    WelcomeIs(w);
    TableIsLawful(table);
    FrameRoundTrip(CodecOf(table), f, tail);
    if !Readable(w) {
      NotAdmitted(table, f);
      WelcomeValueIs(w);
    }
  }

  /** A `Welcome` is written whenever its proxies are not too many. */
  lemma {:induction false} WelcomeIsWritten(w: Greeting)
    requires |w.terms.trustedProxies| <= MAX_TRUSTED_PROXIES
    ensures EncodeFrame(CodecOf(CoreTable()), WelcomeFrame(w)).Ok?
  {
    WelcomeIs(w);
    WelcomeValueIs(w);
    CoreFramesFit(WelcomeFrame(w));
  }

  /** A `Welcome` with no stream, or with the proxy range 10.0.0.0/40, is written
      and then refused by the edge it is for. */
  lemma {:induction false} SomeAreRefused(w: Greeting, tail: seq<byte>)
    requires w.streams == 0 || w.terms.trustedProxies == [Proxy(V4([10, 0, 0, 0]), 40)]
    requires |w.terms.trustedProxies| <= MAX_TRUSTED_PROXIES
    ensures var f := EncodeFrame(CodecOf(CoreTable()), WelcomeFrame(w));
            f.Ok? && DecodeFrame(CodecOf(CoreTable()), f.value + tail) == Err(BadPayload(Invalid(BadField(w))))
  {
    WelcomeIsWritten(w);
    assert w.streams != 0 ==> w.terms.trustedProxies[0].prefix == 40;
    WelcomeRoundTripIff(w, tail);
  }

  // ---- a `Welcome` as its bytes

  function ProxyBytes(proxies: seq<Proxy>): seq<byte> {
    if proxies == [] then []
    else AddressBytes(proxies[0].network) + [proxies[0].prefix] + ProxyBytes(proxies[1..])
  }

  function LimitBytes(limit: Option<U32>): seq<byte> {
    Spans();
    if limit.Some? then [1] + BigEndian(limit.value, 4) else [0]
  }

  function FloodBytes(flood: Option<Flood>): seq<byte> {
    Spans();
    if flood.Some? then [1] + BigEndian(flood.value.burst, 4) + BigEndian(flood.value.rate, 4) else [0]
  }

  /** The terms in the order they are written: the proxies behind their count, the limit,
      the queue's size, the flood rule, the line credit. */
  function TermsBytes(terms: EdgeTerms): seq<byte>
    requires |terms.trustedProxies| <= MAX_TRUSTED_PROXIES
  {
    Spans();
    BigEndian(|terms.trustedProxies|, 2) + ProxyBytes(terms.trustedProxies) + LimitBytes(terms.connectionLimit)
    + BigEndian(terms.sendqBytes, 4) + FloodBytes(terms.flood) + BigEndian(terms.lineCredit, 4)
  }

  lemma {:induction false} ThenBytes(a: Shape, b: Shape, x: Value, y: Value, p: seq<byte>, q: seq<byte>)
    requires Writable(a, x) && Writable(b, y) && Encode(a, x) == Ok(p) && Encode(b, y) == Ok(q)
    ensures Writable(Then(a, b), Both(x, y)) && Encode(Then(a, b), Both(x, y)) == Ok(p + q)
  {
  }

  lemma {:induction false} ProxiesBytes(proxies: seq<Proxy>)
    ensures var entry := Network("trusted proxy", "trusted proxy prefix");
            AllWritable(entry, Proxies(proxies)) && EncodeAll(entry, Proxies(proxies)) == Ok(ProxyBytes(proxies))
  {
    ProxiesAre(proxies);
    if proxies != [] {
      ProxiesBytes(proxies[1..]);
      assert Proxies(proxies)[1..] == Proxies(proxies[1..]);
      OneByte(proxies[0].prefix);
    }
  }

  lemma {:induction false} OneByte(n: U8)
    ensures n < Span(1) && BigEndian(n, 1) == [n]
  {
    Spans();
    assert BigEndian(n / 256, 0) == [];
  }

  lemma {:induction false} WordBytes(field: string, n: U32)
    ensures n < Span(4) && Writable(u32(field), Number(n)) && Encode(u32(field), Number(n)) == Ok(BigEndian(n, 4))
  {
    Spans();
  }

  lemma {:induction false} LimitIsBytes(limit: Option<U32>)
    ensures Writable(LimitShape(), LimitValue(limit)) && Encode(LimitShape(), LimitValue(limit)) == Ok(LimitBytes(limit))
  {
    LimitPasses(limit);
    if limit.Some? {
      WordBytes("connection limit", limit.value);
    }
  }

  lemma {:induction false} FloodIsBytes(flood: Option<Flood>)
    ensures Writable(FloodShape(), FloodValue(flood)) && Encode(FloodShape(), FloodValue(flood)) == Ok(FloodBytes(flood))
  {
    FloodPasses(flood);
    if flood.Some? {
      WordBytes("flood burst", flood.value.burst);
      WordBytes("flood rate", flood.value.rate);
      var p, q := BigEndian(flood.value.burst, 4), BigEndian(flood.value.rate, 4);
      ThenBytes(u32("flood burst"), u32("flood rate"), Number(flood.value.burst), Number(flood.value.rate), p, q);
      assert [1] + (p + q) == [1] + p + q;
    }
  }

  lemma {:induction false} TermsAreBytes(terms: EdgeTerms)
    requires |terms.trustedProxies| <= MAX_TRUSTED_PROXIES
    ensures Writable(Terms(), TermsValue(terms)) && Encode(Terms(), TermsValue(terms)) == Ok(TermsBytes(terms))
  {
    TermsAre(terms);
    Spans();
    var proxies := BigEndian(|terms.trustedProxies|, 2) + ProxyBytes(terms.trustedProxies);
    var limit, flood := LimitBytes(terms.connectionLimit), FloodBytes(terms.flood);
    var queue, credit := BigEndian(terms.sendqBytes, 4), BigEndian(terms.lineCredit, 4);
    WordBytes("line credit", terms.lineCredit);
    FloodIsBytes(terms.flood);
    ThenBytes(FloodShape(), u32("line credit"), FloodValue(terms.flood), Number(terms.lineCredit), flood, credit);
    WordBytes("send-queue bytes", terms.sendqBytes);
    ThenBytes(u32("send-queue bytes"), QueueShape().rest, Number(terms.sendqBytes), QueueValue(terms).rest, queue, flood + credit);
    LimitIsBytes(terms.connectionLimit);
    ThenBytes(LimitShape(), QueueShape(), LimitValue(terms.connectionLimit), QueueValue(terms), limit, queue + (flood + credit));
    ListedBytes(terms);
    ThenBytes(ProxiesShape(), Then(LimitShape(), QueueShape()), TermsValue(terms).first, TermsValue(terms).rest,
              proxies, limit + (queue + (flood + credit)));
    InOneRow(proxies, limit, queue, flood, credit);
  }

  lemma {:induction false} InOneRow(a: seq<byte>, b: seq<byte>, c: seq<byte>, d: seq<byte>, e: seq<byte>)
    ensures a + (b + (c + (d + e))) == a + b + c + d + e
  {
    assert c + (d + e) == c + d + e;
    assert b + (c + d + e) == b + c + d + e;
    assert a + (b + c + d + e) == a + b + c + d + e;
  }

  lemma {:induction false} ListedBytes(terms: EdgeTerms)
    requires |terms.trustedProxies| <= MAX_TRUSTED_PROXIES && |terms.trustedProxies| < Span(2)
    ensures Writable(ProxiesShape(), TermsValue(terms).first)
    ensures Encode(ProxiesShape(), TermsValue(terms).first) == Ok(BigEndian(|terms.trustedProxies|, 2) + ProxyBytes(terms.trustedProxies))
  {
    TermsAre(terms);
    ProxiesAre(terms.trustedProxies);
    ProxiesBytes(terms.trustedProxies);
  }

  /** A `Welcome` as its bytes: the version in two, the epoch in eight, the slot and the
      number of streams in two each, and the terms; behind the header of kind 0x41 for
      no session. */
  lemma {:induction false} WelcomeBytes(w: Greeting)
    requires |w.terms.trustedProxies| <= MAX_TRUSTED_PROXIES
    ensures var written := EncodeFrame(CodecOf(CoreTable()), WelcomeFrame(w));
            && written.Ok? && |written.value| >= 27 && written.value[4] == 0x41
            && FromBigEndian(written.value[5..13]) == 0
            && FromBigEndian(written.value[13..15]) == w.version
            && FromBigEndian(written.value[15..23]) == w.epoch
            && FromBigEndian(written.value[23..25]) == w.slot
            && FromBigEndian(written.value[25..27]) == w.streams
            && written.value[27..] == TermsBytes(w.terms)
  {
    var b := WelcomeFramed(w);
    WelcomePayload(w, b[13..]);
    AfterHeader(b);
  }

  lemma {:induction false} WelcomeFramed(w: Greeting) returns (b: seq<byte>)
    requires |w.terms.trustedProxies| <= MAX_TRUSTED_PROXIES
    ensures EncodeFrame(CodecOf(CoreTable()), WelcomeFrame(w)) == Ok(b)
    ensures |b| >= 13 && b[4] == 0x41 && FromBigEndian(b[5..13]) == 0
    ensures Writable(Welcome(), WelcomeFrame(w).payload) && Encode(Welcome(), WelcomeFrame(w).payload) == Ok(b[13..])
  {
    WelcomeIsWritten(w);
    WelcomeIs(w);
    WelcomeValueIs(w);
    b := EncodeFrame(CodecOf(CoreTable()), WelcomeFrame(w)).value;
    FrameLayout(CodecOf(CoreTable()), WelcomeFrame(w));
  }

  lemma {:induction false} AfterHeader(b: seq<byte>)
    requires |b| >= 27
    ensures b[13..][..2] == b[13..15] && b[13..][2..10] == b[15..23] && b[13..][10..12] == b[23..25]
    ensures b[13..][12..14] == b[25..27] && b[13..][14..] == b[27..]
  {
  }

  lemma {:induction false} WelcomePayload(w: Greeting, b: seq<byte>)
    requires |w.terms.trustedProxies| <= MAX_TRUSTED_PROXIES && Writable(Welcome(), WelcomeFrame(w).payload)
    requires Encode(Welcome(), WelcomeFrame(w).payload) == Ok(b)
    ensures |b| >= 14 && FromBigEndian(b[..2]) == w.version && FromBigEndian(b[2..10]) == w.epoch
    ensures FromBigEndian(b[10..12]) == w.slot && FromBigEndian(b[12..14]) == w.streams && b[14..] == TermsBytes(w.terms)
  {
    Spans();
    var version, epoch := BigEndian(w.version, 2), BigEndian(w.epoch, 8);
    var slot, streams, terms := BigEndian(w.slot, 2), BigEndian(w.streams, 2), TermsBytes(w.terms);
    var s, v := Welcome(), WelcomeFrame(w).payload;
    TermsAreBytes(w.terms);
    ThenBytes(Word("streams", 2, 1, MAX_STREAMS), Terms(), Number(w.streams), TermsValue(w.terms), streams, terms);
    ThenBytes(Word("slot", 2, 1, 0x3FFF), s.rest.rest.rest, Number(w.slot), v.rest.rest.rest, slot, streams + terms);
    ThenBytes(u64("epoch"), s.rest.rest, Number(w.epoch), v.rest.rest, epoch, slot + (streams + terms));
    ThenBytes(u16("version"), s.rest, Number(w.version), v.rest, version, epoch + (slot + (streams + terms)));
    InOneRow(version, epoch, slot, streams, terms);
    RowParts(version, epoch, slot, streams, terms);
    WordSurvives(w.version, 2);
    WordSurvives(w.epoch, 8);
    WordSurvives(w.slot, 2);
    WordSurvives(w.streams, 2);
  }

  lemma {:induction false} RowParts(a: seq<byte>, b: seq<byte>, c: seq<byte>, d: seq<byte>, e: seq<byte>)
    requires |a| == 2 && |b| == 8 && |c| == 2 && |d| == 2
    ensures var r := a + b + c + d + e;
            r[..2] == a && r[2..10] == b && r[10..12] == c && r[12..14] == d && r[14..] == e
  {
  }

  /** Every other core frame that is written is read back. */
  lemma {:induction false} OthersAreAdmitted(f: Frame)
    requires IsFrame(CoreTable(), f) && f.head.kind != 0x41
    ensures Admits(CoreTable(), f)
  {
    Spans();
    if f.head.kind == 0x45 && f.payload.Present? {
      assert Admitted(u16("close code"), f.payload.value.first);
    }
  }
}
