/**
  SASL payloads as `AUTHENTICATE` lines: at most 400 bytes to a line, a shorter
  line ending the payload, and a `+` ending one whose last line was full.
 */
module SaslChunks {
  import opened Wrappers
  import opened Octets
  import Base64

  const MAX_CHUNK_LEN: nat := 400
  const MAX_PAYLOAD_LEN: nat := 8192

  type Text = seq<int>

  /** The lone `+`, which a sender writes for "nothing more". */
  const PLUS: Text := [43]

  function Chunks(payload: Text): seq<Text> {
    if payload == [] then []
    else if |payload| <= MAX_CHUNK_LEN then [payload]
    else [payload[..MAX_CHUNK_LEN]] + Chunks(payload[MAX_CHUNK_LEN..])
  }

  function Lines(payload: Text): seq<Text> {
    Chunks(payload) + if |payload| % MAX_CHUNK_LEN == 0 then [PLUS] else []
  }

  /** Send a payload, or nothing when it is over the limit. */
  method SendPayload(payload: Text) returns (sent: seq<Text>, fits: bool)
    ensures fits <==> |payload| <= MAX_PAYLOAD_LEN
    ensures sent == if fits then Lines(payload) else []
  {
    if |payload| > MAX_PAYLOAD_LEN {
      return [], false;
    }
    sent := [];
    var todo := payload;
    assert [] + Chunks(payload) == Chunks(payload);
    while todo != []
      invariant sent + Chunks(todo) == Chunks(payload)
      decreases |todo|
    {
      var length := if |todo| < MAX_CHUNK_LEN then |todo| else MAX_CHUNK_LEN;
      assert todo[..length] == todo || |todo| > MAX_CHUNK_LEN;
      ghost var before := sent;
      sent := sent + [todo[..length]];
      todo := todo[length..];
      assert before + ([sent[|before|]] + Chunks(todo)) == sent + Chunks(todo);
    }
    if payload == [] || |payload| % MAX_CHUNK_LEN == 0 {
      sent := sent + [PLUS];
    }
    return sent, true;
  }

  /** What reading a challenge comes to: the payload and the lines not read, a
      payload over the limit, or lines that run out first. */
  datatype Reading = Done(payload: Text, rest: seq<Text>) | TooLong | Starved

  function Reassembled(lines: seq<Text>, so: Text): Reading
    decreases |lines|
  {
    if lines == [] then Starved
    else if lines[0] == PLUS then Done(so, lines[1..])
    else if |so + lines[0]| > MAX_PAYLOAD_LEN then TooLong
    else if |lines[0]| < MAX_CHUNK_LEN then Done(so + lines[0], lines[1..])
    else Reassembled(lines[1..], so + lines[0])
  }

  /** Read one challenge, line by line. */
  method ReadChallenge(lines: seq<Text>) returns (r: Reading)
    ensures r == Reassembled(lines, [])
  {
    var payload: Text := [];
    var todo := lines;
    while todo != []
      invariant Reassembled(todo, payload) == Reassembled(lines, [])
    {
      var chunk := todo[0];
      todo := todo[1..];
      if chunk == PLUS {
        return Done(payload, todo);
      }
      payload := payload + chunk;
      if |payload| > MAX_PAYLOAD_LEN {
        return TooLong;
      }
      if |chunk| < MAX_CHUNK_LEN {
        return Done(payload, todo);
      }
    }
    return Starved;
  }

  /** A payload whose last line is a single `+` of its own. */
  predicate EndsInLonePlus(payload: Text) {
    |payload| % MAX_CHUNK_LEN == 1 && payload[|payload| - 1] == 43
  }

  /** Reading what was sent gives the payload back and stops at the sender's last
      line, whatever follows it, unless the payload's last line is a lone `+`,
      which is then read as the terminator and lost. */
  lemma {:induction false} ChunksSurvive(payload: Text, so: Text, tail: seq<Text>)
    requires |so| + |payload| <= MAX_PAYLOAD_LEN
    ensures Reassembled(Lines(payload) + tail, so)
         == if EndsInLonePlus(payload) then Done(so + payload[..|payload| - 1], tail) else Done(so + payload, tail)
    decreases |payload|
  {
    var lines := Lines(payload) + tail;
    if payload == [] {
      assert lines == [PLUS] + tail && so + payload == so;
    } else if |payload| < MAX_CHUNK_LEN {
      assert lines == [payload] + tail;
      if payload == PLUS {
        assert payload[..0] == [] && so + [] == so;
      } else {
        NotPlus(payload);
      }
    } else {
      var first, rest := payload[..MAX_CHUNK_LEN], payload[MAX_CHUNK_LEN..];
      FullLine(payload, tail);
      ChunksSurvive(rest, so + first, tail);
      assert |lines[0]| == MAX_CHUNK_LEN;
      if EndsInLonePlus(payload) {
        assert (so + first) + rest[..|rest| - 1] == so + payload[..|payload| - 1];
      } else {
        assert (so + first) + rest == so + payload;
      }
    }
  }

  lemma {:induction false} NotPlus(payload: Text)
    requires 0 < |payload| < MAX_CHUNK_LEN && payload != PLUS
    ensures !EndsInLonePlus(payload)
  {
    if |payload| == 1 {
      assert payload == [payload[0]];
    }
  }

  lemma {:induction false} FullLine(payload: Text, tail: seq<Text>)
    requires |payload| >= MAX_CHUNK_LEN
    ensures var rest := payload[MAX_CHUNK_LEN..];
            && Lines(payload) + tail == [payload[..MAX_CHUNK_LEN]] + (Lines(rest) + tail)
            && EndsInLonePlus(payload) == EndsInLonePlus(rest)
  {
    var rest := payload[MAX_CHUNK_LEN..];
    assert |rest| % MAX_CHUNK_LEN == |payload| % MAX_CHUNK_LEN;
    if rest == [] {
      assert payload[..MAX_CHUNK_LEN] == payload;
      assert Chunks(rest) == [];
    }
    assert Chunks(payload) == [payload[..MAX_CHUNK_LEN]] + Chunks(rest);
  }

  /** The payload comes back exactly when its last line is not a lone `+`. */
  lemma {:induction false} RoundTripIff(payload: Text, tail: seq<Text>)
    requires |payload| <= MAX_PAYLOAD_LEN
    ensures Reassembled(Lines(payload) + tail, []) == Done(payload, tail) <==> !EndsInLonePlus(payload)
  {
    ChunksSurvive(payload, [], tail);
    assert [] + payload == payload;
  }

  lemma {:induction false} InFours(payload: Text, quads: nat)
    requires |payload| == 4 * quads
    ensures !EndsInLonePlus(payload)
  {
    assert |payload| % 400 == 4 * (quads % 100);
  }

  /** Every payload this program sends is base64, whose length is a multiple of
      four, so what one side encodes the other decodes. */
  lemma {:induction false} CredentialsArrive(bytes: seq<byte>, tail: seq<Text>)
    requires |Base64.Encode(bytes)| <= MAX_PAYLOAD_LEN
    ensures var read := Reassembled(Lines(Base64.Encode(bytes)) + tail, []);
            && read.Done? && read.rest == tail
            && Base64.Decode(read.payload) == Some(bytes)
  {
    var payload := Base64.Encode(bytes);
    var quads := Base64.EncodedInFours(bytes);
    InFours(payload, quads);
    RoundTripIff(payload, tail);
    Base64.DecodeEncode(bytes);
  }
}
