/**
  The payload primitives of the core link: big-endian words, length-prefixed
  bytes and text, tagged options, choices and addresses, counted lists.

  `Shape` stands for any payload built from them. `Encode` is what a writer
  writes for a value of a shape and `Decode` what a reader makes of bytes.
 */
module Wire {
  import opened Wrappers
  import opened Octets

  /** What a payload holds. Every node names the field its errors report. */
  datatype Shape =
    | Word(field: string, width: nat, least: nat, most: nat)
    | Flag(field: string)
    | Bytes(field: string, bound: nat)
    | Text(field: string, bound: nat)
    | Optional(field: string, inner: Shape)
    | Choice(field: string, arms: seq<Shape>)
    | Ip(field: string)
    | Socket(field: string)
    /** A network: an address, then how many of its bits are the prefix. */
    | Network(field: string, prefix: string)
    | Listing(field: string, bound: nat, entry: Shape)
    | Empty
    | Then(first: Shape, rest: Shape)

  datatype Address = V4(octets: seq<byte>) | V6(octets: seq<byte>)

  datatype Value =
    | Number(n: nat)
    | Truth(b: bool)
    | Blob(bytes: seq<byte>)
    | Absent
    | Present(value: Value)
    | Arm(tag: nat, value: Value)
    | Host(ip: Address)
    | Endpoint(ip: Address, port: nat)
    | Range(ip: Address, prefix: nat)
    | Many(values: seq<Value>)
    | Unit
    | Both(first: Value, rest: Value)

  datatype EncodeError = TooLong(field: string, length: nat, bound: nat)

  datatype DecodeError =
    | Truncated(field: string)
    | OverBound(field: string, length: nat, bound: nat)
    | UnknownTag(field: string, tag: byte)
    | NotUtf8(field: string)
    | Invalid(field: string)
    | TrailingBytes(count: nat)

  /** The reader's name for a writer's refusal. */
  function AsRead(error: EncodeError): DecodeError {
    OverBound(error.field, error.length, error.bound)
  }

  /** The shapes the crate writes: every byte bound fits a `u32`, every list
      bound a `u16`, every tag a `u8`. */
  predicate WellFormed(s: Shape) {
    match s
    case Word(_, width, least, most) => width in {1, 2, 4, 8} && least <= most < Span(width)
    case Bytes(_, bound) => bound < Span(4)
    case Text(_, bound) => bound < Span(4)
    case Optional(_, inner) => WellFormed(inner)
    case Choice(_, arms) => |arms| <= 256 && forall i | 0 <= i < |arms| :: WellFormed(arms[i])
    case Listing(_, bound, entry) => bound < Span(2) && WellFormed(entry)
    case Then(first, rest) => WellFormed(first) && WellFormed(rest)
    case _ => true
  }

  predicate IsAddress(ip: Address) {
    |ip.octets| == if ip.V4? then 4 else 16
  }

  /** What the writer's parameter types guarantee of a value, its bounds aside. */
  predicate Typed(s: Shape, v: Value)
    decreases s, 0
  {
    match (s, v)
    case (Word(_, width, _, _), Number(n)) => n < Span(width)
    case (Flag(_), Truth(_)) => true
    case (Bytes(_, _), Blob(_)) => true
    case (Text(_, _), Blob(bytes)) => Utf8(bytes)
    case (Optional(_, _), Absent) => true
    case (Optional(_, inner), Present(value)) => Typed(inner, value)
    case (Choice(_, arms), Arm(tag, value)) => tag < |arms| && Typed(arms[tag], value)
    case (Ip(_), Host(ip)) => IsAddress(ip)
    case (Socket(_), Endpoint(ip, port)) => IsAddress(ip) && port < Span(2)
    case (Network(_, _), Range(ip, prefix)) => IsAddress(ip) && prefix < Span(1)
    case (Listing(_, _, entry), Many(values)) => AllTyped(entry, values)
    case (Empty, Unit) => true
    case (Then(a, b), Both(x, y)) => Typed(a, x) && Typed(b, y)
    case _ => false
  }

  predicate AllTyped(entry: Shape, values: seq<Value>)
    decreases entry, |values| + 1
  {
    values == [] || (Typed(entry, values[0]) && AllTyped(entry, values[1..]))
  }

  function Widest(ip: Address): nat {
    if ip.V4? then 32 else 128
  }

  /** What only the reader looks at: a number's range, and that a prefix is no
      longer than its address. */
  predicate Admitted(s: Shape, v: Value)
    requires Typed(s, v)
    decreases s, 0
  {
    match s
    case Word(_, _, least, most) => least <= v.n <= most
    case Optional(_, inner) => v.Present? ==> Admitted(inner, v.value)
    case Choice(_, arms) => Admitted(arms[v.tag], v.value)
    case Network(_, _) => v.prefix <= Widest(v.ip)
    case Listing(_, _, entry) => AllAdmitted(entry, v.values)
    case Then(a, b) => Admitted(a, v.first) && Admitted(b, v.rest)
    case _ => true
  }

  predicate AllAdmitted(entry: Shape, values: seq<Value>)
    requires AllTyped(entry, values)
    decreases entry, |values| + 1
  {
    values == [] || (Admitted(entry, values[0]) && AllAdmitted(entry, values[1..]))
  }

  /** What a writer is given: a value of a well-formed shape. */
  predicate Writable(s: Shape, v: Value) {
    WellFormed(s) && Typed(s, v)
  }

  predicate AllWritable(entry: Shape, values: seq<Value>) {
    WellFormed(entry) && AllTyped(entry, values)
  }

  /** What a reader can make: a value it admits. */
  predicate Fits(s: Shape, v: Value) {
    Writable(s, v) && Admitted(s, v)
  }

  predicate AllFit(entry: Shape, values: seq<Value>) {
    AllWritable(entry, values) && AllAdmitted(entry, values)
  }

  function AddressBytes(ip: Address): seq<byte>
    requires IsAddress(ip)
  {
    [if ip.V4? then 4 else 6] + ip.octets
  }

  function BytesAfterLength(field: string, bytes: seq<byte>, bound: nat): Result<seq<byte>, EncodeError>
    requires bound < Span(4)
  {
    if |bytes| > bound then Err(TooLong(field, |bytes|, bound)) else Ok(BigEndian(|bytes|, 4) + bytes)
  }

  function Encode(s: Shape, v: Value): Result<seq<byte>, EncodeError>
    requires Writable(s, v)
    decreases s, 0
  {
    match s
    case Word(_, width, _, _) => Ok(BigEndian(v.n, width))
    case Flag(_) => Ok([if v.b then 1 else 0])
    case Bytes(field, bound) => BytesAfterLength(field, v.bytes, bound)
    case Text(field, bound) => BytesAfterLength(field, v.bytes, bound)
    case Optional(_, inner) =>
      if v.Absent? then Ok([0])
      else
        var written :- Encode(inner, v.value);
        Ok([1] + written)
    case Choice(_, arms) =>
      var written :- Encode(arms[v.tag], v.value);
      Ok([v.tag] + written)
    case Ip(_) => Ok(AddressBytes(v.ip))
    case Socket(_) => Ok(AddressBytes(v.ip) + BigEndian(v.port, 2))
    case Network(_, _) => Ok(AddressBytes(v.ip) + BigEndian(v.prefix, 1))
    case Listing(field, bound, entry) =>
      if |v.values| > bound then Err(TooLong(field, |v.values|, bound))
      else
        var written :- EncodeAll(entry, v.values);
        Ok(BigEndian(|v.values|, 2) + written)
    case Empty => Ok([])
    case Then(first, rest) =>
      var a :- Encode(first, v.first);
      var b :- Encode(rest, v.rest);
      Ok(a + b)
  }

  /** The entries of a list one after another, up to the first refused. */
  function EncodeAll(entry: Shape, values: seq<Value>): Result<seq<byte>, EncodeError>
    requires AllWritable(entry, values)
    decreases entry, |values| + 1
  {
    if values == [] then Ok([])
    else
      var a :- Encode(entry, values[0]);
      var b :- EncodeAll(entry, values[1..]);
      Ok(a + b)
  }

  /** A value and the bytes left after it. */
  type Read<T> = Result<(T, seq<byte>), DecodeError>

  function Take(field: string, b: seq<byte>, length: nat): (r: Read<seq<byte>>)
    ensures r.Ok? <==> length <= |b|
    ensures r.Ok? ==> b == r.value.0 + r.value.1 && |r.value.0| == length
    ensures r.Err? ==> r.error == Truncated(field)
  {
    if |b| < length then Err(Truncated(field)) else Ok((b[..length], b[length..]))
  }

  function ReadByte(field: string, b: seq<byte>): Read<byte> {
    if b == [] then Err(Truncated(field)) else Ok((b[0], b[1..]))
  }

  function ReadWord(field: string, b: seq<byte>, width: nat): Read<nat> {
    var (word, rest) :- Take(field, b, width);
    Ok((FromBigEndian(word), rest))
  }

  function ReadBytes(field: string, b: seq<byte>, bound: nat): Read<seq<byte>> {
    var (length, rest) :- ReadWord(field, b, 4);
    if length > bound then Err(OverBound(field, length, bound)) else Take(field, rest, length)
  }

  function ReadAddress(field: string, b: seq<byte>): Read<Address> {
    var (tag, rest) :- ReadByte(field, b);
    if tag == 4 then
      var (octets, left) :- Take(field, rest, 4);
      Ok((V4(octets), left))
    else if tag == 6 then
      var (octets, left) :- Take(field, rest, 16);
      Ok((V6(octets), left))
    else Err(UnknownTag(field, tag))
  }

  function Decode(s: Shape, b: seq<byte>): Read<Value>
    decreases s, 0
  {
    match s
    case Word(field, width, least, most) =>
      var (n, rest) :- ReadWord(field, b, width);
      if least <= n <= most then Ok((Number(n), rest)) else Err(Invalid(field))
    case Flag(field) =>
      var (tag, rest) :- ReadByte(field, b);
      if tag <= 1 then Ok((Truth(tag == 1), rest)) else Err(UnknownTag(field, tag))
    case Bytes(field, bound) =>
      var (bytes, rest) :- ReadBytes(field, b, bound);
      Ok((Blob(bytes), rest))
    case Text(field, bound) =>
      var (bytes, rest) :- ReadBytes(field, b, bound);
      if Utf8(bytes) then Ok((Blob(bytes), rest)) else Err(NotUtf8(field))
    case Optional(field, inner) =>
      var (tag, rest) :- ReadByte(field, b);
      if tag == 0 then Ok((Absent, rest))
      else if tag == 1 then
        var (value, left) :- Decode(inner, rest);
        Ok((Present(value), left))
      else Err(UnknownTag(field, tag))
    case Choice(field, arms) =>
      var (tag, rest) :- ReadByte(field, b);
      if tag < |arms| then
        var (value, left) :- Decode(arms[tag], rest);
        Ok((Arm(tag, value), left))
      else Err(UnknownTag(field, tag))
    case Ip(field) =>
      var (ip, rest) :- ReadAddress(field, b);
      Ok((Host(ip), rest))
    case Socket(field) =>
      var (ip, rest) :- ReadAddress(field, b);
      var (port, left) :- ReadWord(field, rest, 2);
      Ok((Endpoint(ip, port), left))
    case Network(field, prefixField) =>
      var (ip, rest) :- ReadAddress(field, b);
      var (prefix, left) :- ReadWord(prefixField, rest, 1);
      if prefix <= Widest(ip) then Ok((Range(ip, prefix), left)) else Err(Invalid(prefixField))
    case Listing(field, bound, entry) =>
      var (count, rest) :- ReadWord(field, b, 2);
      if count > bound then Err(OverBound(field, count, bound))
      else
        var (values, left) :- DecodeAll(entry, count, rest);
        Ok((Many(values), left))
    case Empty => Ok((Unit, b))
    case Then(first, rest) =>
      var (x, left) :- Decode(first, b);
      var (y, end) :- Decode(rest, left);
      Ok((Both(x, y), end))
  }

  function DecodeAll(entry: Shape, count: nat, b: seq<byte>): Read<seq<Value>>
    decreases entry, count + 1
  {
    if count == 0 then Ok(([], b))
    else
      var (value, rest) :- Decode(entry, b);
      var (values, left) :- DecodeAll(entry, count - 1, rest);
      Ok(([value] + values, left))
  }

  // ---- round trip: what was written is read back, and nothing more is read

  // ---- the bytes of a value

  /** Bytes behind their count in so many bytes, the greatest first. */
  ghost predicate Counts(b: seq<byte>, width: nat, count: nat, bytes: seq<byte>) {
    |b| == width + |bytes| && FromBigEndian(b[..width]) == count && b[width..] == bytes
  }

  lemma {:induction false} CountFirst(count: nat, width: nat, bytes: seq<byte>)
    requires count < Span(width)
    ensures Counts(BigEndian(count, width) + bytes, width, count, bytes)
  {
    WordSurvives(count, width);
    assert (BigEndian(count, width) + bytes)[..width] == BigEndian(count, width);
  }

  /** An address: 4 and four octets, or 6 and sixteen. */
  predicate Spells(b: seq<byte>, ip: Address) {
    b == match ip case V4(octets) => [4] + octets case V6(octets) => [6] + octets
  }

  /** What is written of a value, as its bytes: numbers as wide as they are, the greatest
      byte first; one byte for a flag and for whether there is an optional value; an
      arm behind its number; bytes behind a count of four bytes, entries behind one of
      two. */
  lemma {:induction false} Layout(s: Shape, v: Value)
    requires Writable(s, v) && Encode(s, v).Ok?
    ensures var b := Encode(s, v).value;
            match s
            case Word(_, width, _, _) => |b| == width && FromBigEndian(b) == v.n
            case Flag(_) => b == [if v.b then 1 else 0]
            case Bytes(_, _) => Counts(b, 4, |v.bytes|, v.bytes)
            case Text(_, _) => Counts(b, 4, |v.bytes|, v.bytes)
            case Optional(_, inner) => if v.Absent? then b == [0] else b[..1] == [1] && Encode(inner, v.value) == Ok(b[1..])
            case Choice(_, arms) => b[..1] == [v.tag] && Encode(arms[v.tag], v.value) == Ok(b[1..])
            case Ip(_) => Spells(b, v.ip)
            case Socket(_) => |b| > 2 && Spells(b[..|b| - 2], v.ip) && FromBigEndian(b[|b| - 2..]) == v.port
            case Network(_, _) => |b| > 1 && Spells(b[..|b| - 1], v.ip) && b[|b| - 1] == v.prefix
            case Listing(_, _, entry) => |b| >= 2 && FromBigEndian(b[..2]) == |v.values| && EncodeAll(entry, v.values) == Ok(b[2..])
            case Empty => b == []
            case Then(first, rest) => Encode(first, v.first).Ok? && Encode(rest, v.rest).Ok? && b == Encode(first, v.first).value + Encode(rest, v.rest).value
  {
    match s
    case Word(_, width, _, _) => WordSurvives(v.n, width);
    case Bytes(_, _) => CountFirst(|v.bytes|, 4, v.bytes);
    case Text(_, _) => CountFirst(|v.bytes|, 4, v.bytes);
    case Socket(_) => LayoutSocket(v.ip, v.port);
    case Network(_, _) => LayoutNetwork(v.ip, v.prefix);
    case Listing(_, _, entry) => CountFirst(|v.values|, 2, EncodeAll(entry, v.values).value);
    case _ =>
  }

  lemma {:induction false} LayoutSocket(ip: Address, port: nat)
    requires IsAddress(ip) && port < Span(2)
    ensures var b := AddressBytes(ip) + BigEndian(port, 2);
            |b| > 2 && Spells(b[..|b| - 2], ip) && FromBigEndian(b[|b| - 2..]) == port
  {
    WordSurvives(port, 2);
    var b := AddressBytes(ip) + BigEndian(port, 2);
    assert b[..|b| - 2] == AddressBytes(ip) && b[|b| - 2..] == BigEndian(port, 2);
  }

  lemma {:induction false} LayoutNetwork(ip: Address, prefix: nat)
    requires IsAddress(ip) && prefix < Span(1)
    ensures var b := AddressBytes(ip) + BigEndian(prefix, 1);
            |b| > 1 && Spells(b[..|b| - 1], ip) && b[|b| - 1] == prefix
  {
    WordSurvives(prefix, 1);
    var b := AddressBytes(ip) + BigEndian(prefix, 1);
    assert b[..|b| - 1] == AddressBytes(ip) && b[|b| - 1..] == BigEndian(prefix, 1) == [b[|b| - 1]];
    assert [b[|b| - 1]][..0] == [];
  }

  lemma {:induction false} TakeAhead(field: string, a: seq<byte>, rest: seq<byte>)
    ensures Take(field, a + rest, |a|) == Ok((a, rest))
  {
    assert (a + rest)[..|a|] == a && (a + rest)[|a|..] == rest;
  }

  lemma {:induction false} ByteAhead(field: string, tag: byte, rest: seq<byte>)
    ensures ReadByte(field, [tag] + rest) == Ok((tag, rest))
  {
  }

  lemma {:induction false} WordAhead(field: string, n: nat, width: nat, rest: seq<byte>)
    requires n < Span(width)
    ensures ReadWord(field, BigEndian(n, width) + rest, width) == Ok((n, rest))
  {
    TakeAhead(field, BigEndian(n, width), rest);
    WordSurvives(n, width);
  }

  lemma {:induction false} BytesAhead(field: string, bytes: seq<byte>, bound: nat, rest: seq<byte>)
    requires bound < Span(4) && |bytes| <= bound
    ensures ReadBytes(field, BytesAfterLength(field, bytes, bound).value + rest, bound) == Ok((bytes, rest))
  {
    Glue(BigEndian(|bytes|, 4), bytes, rest);
    WordAhead(field, |bytes|, 4, bytes + rest);
    TakeAhead(field, bytes, rest);
  }

  lemma {:induction false} AddressAhead(field: string, ip: Address, rest: seq<byte>)
    requires IsAddress(ip)
    ensures ReadAddress(field, AddressBytes(ip) + rest) == Ok((ip, rest))
  {
    var tag := AddressBytes(ip)[0];
    assert AddressBytes(ip) + rest == [tag] + (ip.octets + rest);
    ByteAhead(field, tag, ip.octets + rest);
    TakeAhead(field, ip.octets, rest);
  }

  ghost predicate Survives(s: Shape, v: Value, tail: seq<byte>)
    requires Fits(s, v) && Encode(s, v).Ok?
  {
    Decode(s, Encode(s, v).value + tail) == Ok((v, tail))
  }

  /** Decoding an encoding followed by any bytes gives the value back and leaves
      exactly those bytes. */
  lemma {:induction false} RoundTrip(s: Shape, v: Value, tail: seq<byte>)
    requires Fits(s, v) && Encode(s, v).Ok?
    ensures Survives(s, v, tail)
    decreases s, 1
  {
    match s
    case Word(field, width, _, _) => WordAhead(field, v.n, width, tail);
    case Flag(field) => ByteAhead(field, Encode(s, v).value[0], tail);
    case Bytes(field, bound) => BytesAhead(field, v.bytes, bound, tail);
    case Text(field, bound) => BytesAhead(field, v.bytes, bound, tail);
    case Optional(field, inner) => RoundTripOptional(s, v, tail);
    case Choice(field, arms) => RoundTripChoice(s, v, tail);
    case Ip(field) => AddressAhead(field, v.ip, tail);
    case Socket(field) => RoundTripSocket(s, v, tail);
    case Network(field, prefix) => AddressThenWord(field, v.ip, prefix, v.prefix, 1, tail);
    case Listing(field, bound, entry) => RoundTripListing(s, v, tail);
    case Empty => assert Encode(s, v).value + tail == tail;
    case Then(first, rest) => RoundTripThen(s, v, tail);
  }

  lemma {:induction false} RoundTripOptional(s: Shape, v: Value, tail: seq<byte>)
    requires s.Optional? && Fits(s, v) && Encode(s, v).Ok?
    ensures Survives(s, v, tail)
    decreases s, 0
  {
    var b := Encode(s, v).value;
    ByteAhead(s.field, b[0], b[1..] + tail);
    assert b + tail == [b[0]] + (b[1..] + tail);
    if v.Present? {
      RoundTrip(s.inner, v.value, tail);
    } else {
      assert b[1..] + tail == tail;
    }
  }

  lemma {:induction false} RoundTripChoice(s: Shape, v: Value, tail: seq<byte>)
    requires s.Choice? && Fits(s, v) && Encode(s, v).Ok?
    ensures Survives(s, v, tail)
    decreases s, 0
  {
    var b := Encode(s, v).value;
    ByteAhead(s.field, v.tag, b[1..] + tail);
    assert b + tail == [v.tag] + (b[1..] + tail);
    RoundTrip(s.arms[v.tag], v.value, tail);
  }

  lemma {:induction false} AddressThenWord(field: string, ip: Address, wordField: string, n: nat, width: nat, tail: seq<byte>)
    requires IsAddress(ip) && n < Span(width)
    ensures ReadAddress(field, AddressBytes(ip) + BigEndian(n, width) + tail) == Ok((ip, BigEndian(n, width) + tail))
    ensures ReadWord(wordField, BigEndian(n, width) + tail, width) == Ok((n, tail))
  {
    Glue(AddressBytes(ip), BigEndian(n, width), tail);
    AddressAhead(field, ip, BigEndian(n, width) + tail);
    WordAhead(wordField, n, width, tail);
  }

  lemma {:induction false} RoundTripSocket(s: Shape, v: Value, tail: seq<byte>)
    requires s.Socket? && Typed(s, v)
    ensures Survives(s, v, tail)
  {
    AddressThenWord(s.field, v.ip, s.field, v.port, 2, tail);
  }

  lemma {:induction false} RoundTripListing(s: Shape, v: Value, tail: seq<byte>)
    requires s.Listing? && Fits(s, v) && Encode(s, v).Ok?
    ensures Survives(s, v, tail)
    decreases s, 0
  {
    var written := EncodeAll(s.entry, v.values).value;
    Glue(BigEndian(|v.values|, 2), written, tail);
    WordAhead(s.field, |v.values|, 2, written + tail);
    RoundTripAll(s.entry, v.values, tail);
  }

  lemma {:induction false} RoundTripThen(s: Shape, v: Value, tail: seq<byte>)
    requires s.Then? && Fits(s, v) && Encode(s, v).Ok?
    ensures Survives(s, v, tail)
    decreases s, 0
  {
    var a, c := Encode(s.first, v.first).value, Encode(s.rest, v.rest).value;
    Glue(a, c, tail);
    RoundTrip(s.first, v.first, c + tail);
    RoundTrip(s.rest, v.rest, tail);
  }

  lemma {:induction false} RoundTripAll(entry: Shape, values: seq<Value>, tail: seq<byte>)
    requires AllFit(entry, values) && EncodeAll(entry, values).Ok?
    ensures DecodeAll(entry, |values|, EncodeAll(entry, values).value + tail) == Ok((values, tail))
    decreases entry, |values| + 1
  {
    if values == [] {
      assert [] + tail == tail;
    } else {
      var a, c := Encode(entry, values[0]).value, EncodeAll(entry, values[1..]).value;
      Glue(a, c, tail);
      RoundTrip(entry, values[0], c + tail);
      RoundTripAll(entry, values[1..], tail);
      assert values == [values[0]] + values[1..];
    }
  }

  // ---- canonicity: what was read is exactly what an encoder writes

  lemma {:induction false} WordRead(field: string, b: seq<byte>, width: nat)
    requires ReadWord(field, b, width).Ok?
    ensures var (n, rest) := ReadWord(field, b, width).value;
            n < Span(width) && b == BigEndian(n, width) + rest
  {
    BytesSurvive(b[..width]);
  }

  lemma {:induction false} BytesRead(field: string, b: seq<byte>, bound: nat)
    requires bound < Span(4) && ReadBytes(field, b, bound).Ok?
    ensures var (bytes, rest) := ReadBytes(field, b, bound).value;
            |bytes| <= bound && b == BytesAfterLength(field, bytes, bound).value + rest
  {
    WordRead(field, b, 4);
  }

  lemma {:induction false} AddressRead(field: string, b: seq<byte>)
    requires ReadAddress(field, b).Ok?
    ensures var (ip, rest) := ReadAddress(field, b).value;
            IsAddress(ip) && b == AddressBytes(ip) + rest
  {
  }

  /** What a writer writes for `v`, followed by `rest`; nothing when `v` is no
      value of `s` or the writer refuses it. */
  ghost function Rewritten(s: Shape, v: Value, rest: seq<byte>): Option<seq<byte>>
    requires WellFormed(s)
  {
    if Fits(s, v) && Encode(s, v).Ok? then Some(Encode(s, v).value + rest) else None
  }

  ghost predicate IsCanonical(s: Shape, b: seq<byte>)
    requires WellFormed(s) && Decode(s, b).Ok?
  {
    Rewritten(s, Decode(s, b).value.0, Decode(s, b).value.1) == Some(b)
  }

  /** Any bytes that decode are the encoding of what they decode to, followed by
      the bytes left over. */
  lemma {:induction false} Canonical(s: Shape, b: seq<byte>)
    requires WellFormed(s) && Decode(s, b).Ok?
    ensures IsCanonical(s, b)
    decreases s, 1
  {
    match s
    case Word(field, width, _, _) => WordRead(field, b, width);
    case Flag(field) => assert b == [b[0]] + b[1..];
    case Bytes(field, bound) => CanonicalBytes(s, b);
    case Text(field, bound) => CanonicalBytes(s, b);
    case Optional(field, inner) => CanonicalOptional(s, b);
    case Choice(field, arms) => CanonicalChoice(s, b);
    case Ip(field) => AddressRead(field, b);
    case Socket(field) => CanonicalSocket(s, b);
    case Network(field, prefix) => CanonicalNetwork(s, b);
    case Listing(field, bound, entry) => CanonicalListing(s, b);
    case Empty => assert [] + b == b;
    case Then(first, rest) => CanonicalThen(s, b);
  }

  lemma {:induction false} CanonicalBytes(s: Shape, b: seq<byte>)
    requires (s.Bytes? || s.Text?) && WellFormed(s) && Decode(s, b).Ok?
    ensures IsCanonical(s, b)
  {
    BytesRead(s.field, b, s.bound);
  }

  lemma {:induction false} CanonicalOptional(s: Shape, b: seq<byte>)
    requires s.Optional? && WellFormed(s) && Decode(s, b).Ok?
    ensures IsCanonical(s, b)
    decreases s, 0
  {
    assert b == [b[0]] + b[1..];
    if b[0] == 1 {
      Canonical(s.inner, b[1..]);
      var (value, rest) := Decode(s.inner, b[1..]).value;
      Glue([1], Encode(s.inner, value).value, rest);
    }
  }

  lemma {:induction false} CanonicalChoice(s: Shape, b: seq<byte>)
    requires s.Choice? && WellFormed(s) && Decode(s, b).Ok?
    ensures IsCanonical(s, b)
    decreases s, 0
  {
    var tag, left := b[0], b[1..];
    assert b == [tag] + left;
    Canonical(s.arms[tag], left);
    RewrittenArm(s, tag, Decode(s.arms[tag], left).value.0, Decode(s.arms[tag], left).value.1);
  }

  lemma {:induction false} RewrittenArm(s: Shape, tag: byte, value: Value, rest: seq<byte>)
    requires s.Choice? && WellFormed(s) && tag < |s.arms| && Rewritten(s.arms[tag], value, rest).Some?
    ensures Rewritten(s, Arm(tag, value), rest) == Some([tag] + Rewritten(s.arms[tag], value, rest).value)
  {
    Glue([tag], Encode(s.arms[tag], value).value, rest);
  }

  lemma {:induction false} AddressAndWordRead(field: string, b: seq<byte>, wordField: string, width: nat)
    requires ReadAddress(field, b).Ok? && ReadWord(wordField, ReadAddress(field, b).value.1, width).Ok?
    ensures var (ip, left) := ReadAddress(field, b).value;
            var (n, rest) := ReadWord(wordField, left, width).value;
            IsAddress(ip) && n < Span(width) && b == AddressBytes(ip) + BigEndian(n, width) + rest
  {
    AddressRead(field, b);
    var (ip, left) := ReadAddress(field, b).value;
    WordRead(wordField, left, width);
    var (n, rest) := ReadWord(wordField, left, width).value;
    Glue(AddressBytes(ip), BigEndian(n, width), rest);
  }

  lemma {:induction false} CanonicalSocket(s: Shape, b: seq<byte>)
    requires s.Socket? && Decode(s, b).Ok?
    ensures IsCanonical(s, b)
  {
    AddressAndWordRead(s.field, b, s.field, 2);
  }

  lemma {:induction false} CanonicalNetwork(s: Shape, b: seq<byte>)
    requires s.Network? && Decode(s, b).Ok?
    ensures IsCanonical(s, b)
  {
    AddressAndWordRead(s.field, b, s.prefix, 1);
  }

  lemma {:induction false} CanonicalListing(s: Shape, b: seq<byte>)
    requires s.Listing? && WellFormed(s) && Decode(s, b).Ok?
    ensures IsCanonical(s, b)
    decreases s, 0
  {
    WordRead(s.field, b, 2);
    var (count, left) := ReadWord(s.field, b, 2).value;
    CanonicalAll(s.entry, count, left);
    var (values, rest) := DecodeAll(s.entry, count, left).value;
    Glue(BigEndian(count, 2), EncodeAll(s.entry, values).value, rest);
  }

  lemma {:induction false} CanonicalThen(s: Shape, b: seq<byte>)
    requires s.Then? && WellFormed(s) && Decode(s, b).Ok?
    ensures IsCanonical(s, b)
    decreases s, 0
  {
    Canonical(s.first, b);
    var (x, left) := Decode(s.first, b).value;
    Canonical(s.rest, left);
    var (y, rest) := Decode(s.rest, left).value;
    RewrittenThen(s, x, y, rest);
  }

  lemma {:induction false} RewrittenThen(s: Shape, x: Value, y: Value, rest: seq<byte>)
    requires s.Then? && WellFormed(s) && Rewritten(s.rest, y, rest).Some?
    requires Rewritten(s.first, x, Rewritten(s.rest, y, rest).value).Some?
    ensures Rewritten(s, Both(x, y), rest) == Rewritten(s.first, x, Rewritten(s.rest, y, rest).value)
  {
    Glue(Encode(s.first, x).value, Encode(s.rest, y).value, rest);
  }

  ghost function RewrittenAll(entry: Shape, values: seq<Value>, rest: seq<byte>): Option<seq<byte>>
    requires WellFormed(entry)
  {
    if AllFit(entry, values) && EncodeAll(entry, values).Ok? then Some(EncodeAll(entry, values).value + rest) else None
  }

  lemma {:induction false} CanonicalAll(entry: Shape, count: nat, b: seq<byte>)
    requires WellFormed(entry) && DecodeAll(entry, count, b).Ok?
    ensures var (values, rest) := DecodeAll(entry, count, b).value;
            |values| == count && RewrittenAll(entry, values, rest) == Some(b)
    decreases entry, count + 1
  {
    if count == 0 {
      assert [] + b == b;
    } else {
      Canonical(entry, b);
      var (value, left) := Decode(entry, b).value;
      CanonicalAll(entry, count - 1, left);
      var (values, rest) := DecodeAll(entry, count - 1, left).value;
      RewrittenFirst(entry, value, values, rest);
    }
  }

  lemma {:induction false} RewrittenFirst(entry: Shape, value: Value, values: seq<Value>, rest: seq<byte>)
    requires WellFormed(entry) && RewrittenAll(entry, values, rest).Some?
    requires Rewritten(entry, value, RewrittenAll(entry, values, rest).value).Some?
    ensures RewrittenAll(entry, [value] + values, rest) == Rewritten(entry, value, RewrittenAll(entry, values, rest).value)
  {
    assert ([value] + values)[1..] == values;
    Glue(Encode(entry, value).value, EncodeAll(entry, values).value, rest);
  }

  // ---- encodings are apart, whether or not a reader admits them

  /** Encodings of one shape, each followed by anything, are equal only if the values
      and what follows them are. */
  lemma {:induction false} EncodedApart(s: Shape, v: Value, x: seq<byte>, w: Value, y: seq<byte>)
    requires Writable(s, v) && Writable(s, w) && Encode(s, v).Ok? && Encode(s, w).Ok?
    requires Encode(s, v).value + x == Encode(s, w).value + y
    ensures v == w && x == y
    decreases s, 1
  {
    match s
    case Bytes(field, bound) => BytesApart(s, v, x, w, y);
    case Text(field, bound) => BytesApart(s, v, x, w, y);
    case Optional(field, inner) => OptionalApart(s, v, x, w, y);
    case Choice(field, arms) => ChoiceApart(s, v, x, w, y);
    case Listing(field, bound, entry) => ListingApart(s, v, x, w, y);
    case Then(first, rest) => ThenApart(s, v, x, w, y);
    case _ => FixedApart(s, v, x, w, y);
  }

  lemma {:induction false} FixedApart(s: Shape, v: Value, x: seq<byte>, w: Value, y: seq<byte>)
    requires s.Word? || s.Flag? || s.Ip? || s.Socket? || s.Network? || s.Empty?
    requires Writable(s, v) && Writable(s, w) && Encode(s, v).value + x == Encode(s, w).value + y
    ensures v == w && x == y
  {
    match s
    case Word(field, width, _, _) =>
      WordAhead(field, v.n, width, x);
      WordAhead(field, w.n, width, y);
    case Flag(field) => TagsApart(Encode(s, v).value, x, Encode(s, w).value, y);
    case Ip(field) =>
      AddressAhead(field, v.ip, x);
      AddressAhead(field, w.ip, y);
    case Socket(field) =>
      AddressThenWord(field, v.ip, field, v.port, 2, x);
      AddressThenWord(field, w.ip, field, w.port, 2, y);
    case Network(field, prefix) =>
      AddressThenWord(field, v.ip, prefix, v.prefix, 1, x);
      AddressThenWord(field, w.ip, prefix, w.prefix, 1, y);
    case Empty => assert [] + x == x && [] + y == y;
  }

  lemma {:induction false} BytesApart(s: Shape, v: Value, x: seq<byte>, w: Value, y: seq<byte>)
    requires (s.Bytes? || s.Text?) && Writable(s, v) && Writable(s, w) && Encode(s, v).Ok? && Encode(s, w).Ok?
    requires Encode(s, v).value + x == Encode(s, w).value + y
    ensures v == w && x == y
  {
    BytesAhead(s.field, v.bytes, s.bound, x);
    BytesAhead(s.field, w.bytes, s.bound, y);
  }

  lemma {:induction false} ThenApart(s: Shape, v: Value, x: seq<byte>, w: Value, y: seq<byte>)
    requires s.Then? && Writable(s, v) && Writable(s, w) && Encode(s, v).Ok? && Encode(s, w).Ok?
    requires Encode(s, v).value + x == Encode(s, w).value + y
    ensures v == w && x == y
    decreases s, 0
  {
    var a, b := Encode(s.rest, v.rest).value, Encode(s.rest, w.rest).value;
    Glue(Encode(s.first, v.first).value, a, x);
    Glue(Encode(s.first, w.first).value, b, y);
    EncodedApart(s.first, v.first, a + x, w.first, b + y);
    EncodedApart(s.rest, v.rest, x, w.rest, y);
  }

  lemma {:induction false} OptionalApart(s: Shape, v: Value, x: seq<byte>, w: Value, y: seq<byte>)
    requires s.Optional? && Writable(s, v) && Writable(s, w) && Encode(s, v).Ok? && Encode(s, w).Ok?
    requires Encode(s, v).value + x == Encode(s, w).value + y
    ensures v == w && x == y
    decreases s, 0
  {
    var a, b := Encode(s, v).value, Encode(s, w).value;
    TagsApart(a, x, b, y);
    if v.Present? {
      EncodedApart(s.inner, v.value, x, w.value, y);
    }
  }

  lemma {:induction false} ChoiceApart(s: Shape, v: Value, x: seq<byte>, w: Value, y: seq<byte>)
    requires s.Choice? && Writable(s, v) && Writable(s, w) && Encode(s, v).Ok? && Encode(s, w).Ok?
    requires Encode(s, v).value + x == Encode(s, w).value + y
    ensures v == w && x == y
    decreases s, 0
  {
    var a, b := Encode(s, v).value, Encode(s, w).value;
    TagsApart(a, x, b, y);
    assert a[1..] == Encode(s.arms[v.tag], v.value).value && b[1..] == Encode(s.arms[w.tag], w.value).value;
    EncodedApart(s.arms[v.tag], v.value, x, w.value, y);
  }

  lemma {:induction false} TagsApart(a: seq<byte>, x: seq<byte>, b: seq<byte>, y: seq<byte>)
    requires a != [] && b != [] && a + x == b + y
    ensures a[0] == b[0] && a[1..] + x == b[1..] + y
    ensures |a| == |b| == 1 ==> x == y
  {
    assert (a + x)[0] == a[0] && (b + y)[0] == b[0];
    assert (a + x)[1..] == a[1..] + x && (b + y)[1..] == b[1..] + y;
    assert |a| == 1 ==> a[1..] + x == x;
    assert |b| == 1 ==> b[1..] + y == y;
  }

  lemma {:induction false} ListingApart(s: Shape, v: Value, x: seq<byte>, w: Value, y: seq<byte>)
    requires s.Listing? && Writable(s, v) && Writable(s, w) && Encode(s, v).Ok? && Encode(s, w).Ok?
    requires Encode(s, v).value + x == Encode(s, w).value + y
    ensures v == w && x == y
    decreases s, 0
  {
    var a, b := EncodeAll(s.entry, v.values).value, EncodeAll(s.entry, w.values).value;
    Glue(BigEndian(|v.values|, 2), a, x);
    Glue(BigEndian(|w.values|, 2), b, y);
    WordAhead(s.field, |v.values|, 2, a + x);
    WordAhead(s.field, |w.values|, 2, b + y);
    EncodedAllApart(s.entry, v.values, x, w.values, y);
  }

  lemma {:induction false} EncodedAllApart(entry: Shape, v: seq<Value>, x: seq<byte>, w: seq<Value>, y: seq<byte>)
    requires AllWritable(entry, v) && AllWritable(entry, w) && |v| == |w| && EncodeAll(entry, v).Ok? && EncodeAll(entry, w).Ok?
    requires EncodeAll(entry, v).value + x == EncodeAll(entry, w).value + y
    ensures v == w && x == y
    decreases entry, |v| + 1
  {
    if v == [] {
      assert [] + x == x && [] + y == y;
    } else {
      var a, b := EncodeAll(entry, v[1..]).value, EncodeAll(entry, w[1..]).value;
      Glue(Encode(entry, v[0]).value, a, x);
      Glue(Encode(entry, w[0]).value, b, y);
      EncodedApart(entry, v[0], a + x, w[0], b + y);
      EncodedAllApart(entry, v[1..], x, w[1..], y);
      assert v == [v[0]] + v[1..] && w == [w[0]] + w[1..];
    }
  }

  /** No encoding of one value starts an encoding of another, so encodings can
      be told apart and laid end to end. */
  lemma {:induction false} PrefixFree(s: Shape, v: Value, w: Value)
    requires Writable(s, v) && Writable(s, w) && Encode(s, v).Ok? && Encode(s, w).Ok?
    requires Encode(s, v).value <= Encode(s, w).value
    ensures v == w
  {
    var a, b := Encode(s, v).value, Encode(s, w).value;
    Rejoined(a, b);
    EncodedApart(s, v, b[|a|..], w, []);
  }

  lemma {:induction false} Rejoined(a: seq<byte>, b: seq<byte>)
    requires a <= b
    ensures a + b[|a|..] == b == b + []
  {
  }

  /** A payload that ends where its last field does. */
  function DecodeWhole(s: Shape, b: seq<byte>): Result<Value, DecodeError> {
    var (v, rest) :- Decode(s, b);
    if rest == [] then Ok(v) else Err(TrailingBytes(|rest|))
  }

  /** The whole payloads a reader accepts are exactly the encodings. */
  lemma {:induction false} WholeIsEncoded(s: Shape, b: seq<byte>, v: Value)
    requires WellFormed(s)
    ensures DecodeWhole(s, b) == Ok(v) <==> Fits(s, v) && Encode(s, v) == Ok(b)
  {
    if DecodeWhole(s, b) == Ok(v) {
      Canonical(s, b);
      assert Encode(s, v).value + [] == Encode(s, v).value;
    }
    if Fits(s, v) && Encode(s, v) == Ok(b) {
      RoundTrip(s, v, []);
      assert b + [] == b;
    }
  }

  // ---- what is written and not read

  /** The field the reader finds fault with first. */
  function Fault(s: Shape, v: Value): string
    requires Typed(s, v) && !Admitted(s, v)
    decreases s, 0
  {
    match s
    case Word(field, _, _, _) => field
    case Optional(_, inner) => Fault(inner, v.value)
    case Choice(_, arms) => Fault(arms[v.tag], v.value)
    case Network(_, prefix) => prefix
    case Listing(_, _, entry) => FaultOfAny(entry, v.values)
    case Then(a, b) => if Admitted(a, v.first) then Fault(b, v.rest) else Fault(a, v.first)
  }

  function FaultOfAny(entry: Shape, values: seq<Value>): string
    requires AllTyped(entry, values) && !AllAdmitted(entry, values)
    decreases entry, |values| + 1
  {
    if Admitted(entry, values[0]) then FaultOfAny(entry, values[1..]) else Fault(entry, values[0])
  }

  /** How much of an encoding is read before there is a verdict: all of it, or up to
      the end of the first field at fault. */
  function Checked(s: Shape, v: Value): (n: nat)
    requires Writable(s, v) && Encode(s, v).Ok?
    ensures n <= |Encode(s, v).value| && (Admitted(s, v) ==> n == |Encode(s, v).value|)
    decreases s, 0
  {
    match s
    case Optional(_, inner) => if v.Absent? then 1 else 1 + Checked(inner, v.value)
    case Choice(_, arms) => 1 + Checked(arms[v.tag], v.value)
    case Listing(_, _, entry) => 2 + CheckedAll(entry, v.values)
    case Then(a, b) => if Admitted(a, v.first) then |Encode(a, v.first).value| + Checked(b, v.rest) else Checked(a, v.first)
    case _ => |Encode(s, v).value|
  }

  function CheckedAll(entry: Shape, values: seq<Value>): (n: nat)
    requires AllWritable(entry, values) && EncodeAll(entry, values).Ok?
    ensures n <= |EncodeAll(entry, values).value| && (AllAdmitted(entry, values) ==> n == |EncodeAll(entry, values).value|)
    decreases entry, |values| + 1
  {
    if values == [] then 0
    else if Admitted(entry, values[0]) then |Encode(entry, values[0]).value| + CheckedAll(entry, values[1..])
    else Checked(entry, values[0])
  }

  lemma {:induction false} CutWithin(a: seq<byte>, c: seq<byte>, k: nat)
    requires k <= |a| + |c|
    ensures (a + c)[..k] == if k < |a| then a[..k] else a + c[..k - |a|]
  {
  }

  ghost predicate IsRefused(s: Shape, v: Value, k: nat, tail: seq<byte>)
    requires Writable(s, v) && !Admitted(s, v) && Encode(s, v).Ok? && Checked(s, v) <= k <= |Encode(s, v).value|
  {
    Decode(s, Encode(s, v).value[..k] + tail) == Err(Invalid(Fault(s, v)))
  }

  /** A value the writer takes and the reader does not admit is written and then
      refused, for the first field at fault, as soon as that field is there and
      whatever follows it. */
  lemma {:induction false} WrittenIsRefused(s: Shape, v: Value, k: nat, tail: seq<byte>)
    requires Writable(s, v) && !Admitted(s, v) && Encode(s, v).Ok? && Checked(s, v) <= k <= |Encode(s, v).value|
    ensures IsRefused(s, v, k, tail)
    decreases s, 1
  {
    match s
    case Word(field, width, _, _) =>
      assert Encode(s, v).value[..k] == BigEndian(v.n, width);
      WordAhead(field, v.n, width, tail);
    case Optional(field, inner) => RefusedInner(s, v, k, tail);
    case Choice(field, arms) => RefusedArm(s, v, k, tail);
    case Network(field, prefix) =>
      assert Encode(s, v).value[..k] == Encode(s, v).value;
      AddressThenWord(field, v.ip, prefix, v.prefix, 1, tail);
    case Listing(field, bound, entry) => RefusedListing(s, v, k, tail);
    case Then(first, rest) => RefusedThen(s, v, k, tail);
  }

  lemma {:induction false} BehindTag(tag: byte, b: seq<byte>, k: nat, tail: seq<byte>)
    requires 1 <= k <= 1 + |b|
    ensures ([tag] + b)[..k] + tail == [tag] + (b[..k - 1] + tail)
  {
  }

  lemma {:induction false} RefusedInner(s: Shape, v: Value, k: nat, tail: seq<byte>)
    requires s.Optional? && Writable(s, v) && !Admitted(s, v) && Encode(s, v).Ok? && Checked(s, v) <= k <= |Encode(s, v).value|
    ensures IsRefused(s, v, k, tail)
    decreases s, 0
  {
    var written := Encode(s.inner, v.value).value;
    BehindTag(1, written, k, tail);
    ByteAhead(s.field, 1, written[..k - 1] + tail);
    WrittenIsRefused(s.inner, v.value, k - 1, tail);
  }

  lemma {:induction false} RefusedArm(s: Shape, v: Value, k: nat, tail: seq<byte>)
    requires s.Choice? && Writable(s, v) && !Admitted(s, v) && Encode(s, v).Ok? && Checked(s, v) <= k <= |Encode(s, v).value|
    ensures IsRefused(s, v, k, tail)
    decreases s, 0
  {
    var written := Encode(s.arms[v.tag], v.value).value;
    BehindTag(v.tag, written, k, tail);
    ByteAhead(s.field, v.tag, written[..k - 1] + tail);
    WrittenIsRefused(s.arms[v.tag], v.value, k - 1, tail);
  }

  lemma {:induction false} RefusedListing(s: Shape, v: Value, k: nat, tail: seq<byte>)
    requires s.Listing? && Writable(s, v) && !Admitted(s, v) && Encode(s, v).Ok? && Checked(s, v) <= k <= |Encode(s, v).value|
    ensures IsRefused(s, v, k, tail)
    decreases s, 0
  {
    var count, written := BigEndian(|v.values|, 2), EncodeAll(s.entry, v.values).value;
    CutBehind(count, written, k, tail);
    WordAhead(s.field, |v.values|, 2, written[..k - 2] + tail);
    WrittenAllIsRefused(s.entry, v.values, k - 2, tail);
  }

  lemma {:induction false} CutBehind(a: seq<byte>, c: seq<byte>, k: nat, tail: seq<byte>)
    requires |a| <= k <= |a| + |c|
    ensures (a + c)[..k] + tail == a + (c[..k - |a|] + tail)
  {
  }

  lemma {:induction false} RefusedThen(s: Shape, v: Value, k: nat, tail: seq<byte>)
    requires s.Then? && Writable(s, v) && !Admitted(s, v) && Encode(s, v).Ok? && Checked(s, v) <= k <= |Encode(s, v).value|
    ensures IsRefused(s, v, k, tail)
    decreases s, 0
  {
    var a, c := Encode(s.first, v.first).value, Encode(s.rest, v.rest).value;
    if Admitted(s.first, v.first) {
      CutBehind(a, c, k, tail);
      RoundTrip(s.first, v.first, c[..k - |a|] + tail);
      WrittenIsRefused(s.rest, v.rest, k - |a|, tail);
    } else {
      var left, more := FirstCut(a, c, k, tail);
      WrittenIsRefused(s.first, v.first, left, more);
    }
  }

  /** A cut of two parts as a cut of the first and what is behind it. */
  lemma {:induction false} FirstCut(a: seq<byte>, c: seq<byte>, k: nat, tail: seq<byte>) returns (left: nat, more: seq<byte>)
    requires k <= |a| + |c|
    ensures left == Min(k, |a|) && (a + c)[..k] + tail == a[..left] + more
  {
    left := Min(k, |a|);
    more := (a + c)[left..k] + tail;
    assert (a + c)[..k] == a[..left] + (a + c)[left..k];
    Glue(a[..left], (a + c)[left..k], tail);
  }

  ghost predicate AllRefused(entry: Shape, values: seq<Value>, k: nat, tail: seq<byte>)
    requires AllWritable(entry, values) && !AllAdmitted(entry, values) && EncodeAll(entry, values).Ok?
    requires k <= |EncodeAll(entry, values).value|
  {
    DecodeAll(entry, |values|, EncodeAll(entry, values).value[..k] + tail) == Err(Invalid(FaultOfAny(entry, values)))
  }

  lemma {:induction false} WrittenAllIsRefused(entry: Shape, values: seq<Value>, k: nat, tail: seq<byte>)
    requires AllWritable(entry, values) && !AllAdmitted(entry, values) && EncodeAll(entry, values).Ok?
    requires CheckedAll(entry, values) <= k <= |EncodeAll(entry, values).value|
    ensures AllRefused(entry, values, k, tail)
    decreases entry, |values| + 1, 1
  {
    if Admitted(entry, values[0]) {
      LaterRefused(entry, values, k, tail);
    } else {
      FirstRefused(entry, values, k, tail);
    }
  }

  lemma {:induction false} FirstRefused(entry: Shape, values: seq<Value>, k: nat, tail: seq<byte>)
    requires AllWritable(entry, values) && values != [] && !Admitted(entry, values[0]) && EncodeAll(entry, values).Ok?
    requires CheckedAll(entry, values) <= k <= |EncodeAll(entry, values).value|
    ensures AllRefused(entry, values, k, tail)
    decreases entry, |values| + 1, 0
  {
    var left, more := FirstCut(Encode(entry, values[0]).value, EncodeAll(entry, values[1..]).value, k, tail);
    WrittenIsRefused(entry, values[0], left, more);
  }

  lemma {:induction false} LaterRefused(entry: Shape, values: seq<Value>, k: nat, tail: seq<byte>)
    requires AllWritable(entry, values) && values != [] && Admitted(entry, values[0]) && !AllAdmitted(entry, values) && EncodeAll(entry, values).Ok?
    requires CheckedAll(entry, values) <= k <= |EncodeAll(entry, values).value|
    ensures AllRefused(entry, values, k, tail)
    decreases entry, |values| + 1, 0
  {
    var a, c := Encode(entry, values[0]).value, EncodeAll(entry, values[1..]).value;
    CutBehind(a, c, k, tail);
    RoundTrip(entry, values[0], c[..k - |a|] + tail);
    WrittenAllIsRefused(entry, values[1..], k - |a|, tail);
  }

  // ---- truncation

  lemma {:induction false} WordCut(field: string, n: nat, width: nat, rest: seq<byte>, k: nat)
    requires n < Span(width) && width <= k <= width + |rest|
    ensures ReadWord(field, (BigEndian(n, width) + rest)[..k], width) == Ok((n, rest[..k - width]))
  {
    assert (BigEndian(n, width) + rest)[..k] == BigEndian(n, width) + rest[..k - width];
    WordAhead(field, n, width, rest[..k - width]);
  }

  lemma {:induction false} BytesCut(field: string, bytes: seq<byte>, bound: nat, k: nat)
    requires bound < Span(4) && |bytes| <= bound && k < 4 + |bytes|
    ensures ReadBytes(field, BytesAfterLength(field, bytes, bound).value[..k], bound) == Err(Truncated(field))
  {
    if k >= 4 {
      WordCut(field, |bytes|, 4, bytes, k);
    }
  }

  lemma {:induction false} AddressCut(field: string, ip: Address, k: nat)
    requires IsAddress(ip) && k < |AddressBytes(ip)|
    ensures ReadAddress(field, AddressBytes(ip)[..k]) == Err(Truncated(field))
  {
  }

  ghost predicate RunsOut<T>(read: Read<T>) {
    read.Err? && read.error.Truncated?
  }

  /** What a cut encoding is read as: truncated, and nothing else, up to the end of the
      encoding or of its first field at fault; from there on that fault. */
  lemma {:induction false} CutVerdict(s: Shape, v: Value, k: nat)
    requires Writable(s, v) && Encode(s, v).Ok? && k < |Encode(s, v).value|
    ensures var read := Decode(s, Encode(s, v).value[..k]);
            if k < Checked(s, v) then RunsOut(read) else !Admitted(s, v) && read == Err(Invalid(Fault(s, v)))
  {
    if k < Checked(s, v) {
      CutIsTruncated(s, v, k);
    } else {
      WrittenIsRefused(s, v, k, []);
      assert Encode(s, v).value[..k] + [] == Encode(s, v).value[..k];
    }
  }

  /** An encoding cut before its end, or before the end of its first field at fault,
      fails as truncated, and as nothing else. */
  lemma {:induction false} CutIsTruncated(s: Shape, v: Value, k: nat)
    requires Writable(s, v) && Encode(s, v).Ok? && k < Checked(s, v)
    ensures RunsOut(Decode(s, Encode(s, v).value[..k]))
    decreases s, 1
  {
    match s
    case Word(field, width, _, _) =>
    case Flag(field) =>
    case Bytes(field, bound) => BytesCut(field, v.bytes, bound, k);
    case Text(field, bound) => BytesCut(field, v.bytes, bound, k);
    case Optional(field, inner) => CutOptional(s, v, k);
    case Choice(field, arms) => CutChoice(s, v, k);
    case Ip(field) => AddressCut(field, v.ip, k);
    case Socket(field) => CutSocket(s, v, k);
    case Network(field, prefix) => CutNetwork(s, v, k);
    case Listing(field, bound, entry) => CutListing(s, v, k);
    case Empty =>
    case Then(first, rest) => CutThen(s, v, k);
  }

  lemma {:induction false} CutOptional(s: Shape, v: Value, k: nat)
    requires s.Optional? && Writable(s, v) && Encode(s, v).Ok? && k < Checked(s, v)
    ensures RunsOut(Decode(s, Encode(s, v).value[..k]))
    decreases s, 0
  {
    var b := Encode(s, v).value;
    if k > 0 {
      assert b[..k][1..] == b[1..][..k - 1];
      CutIsTruncated(s.inner, v.value, k - 1);
    }
  }

  lemma {:induction false} CutChoice(s: Shape, v: Value, k: nat)
    requires s.Choice? && Writable(s, v) && Encode(s, v).Ok? && k < Checked(s, v)
    ensures RunsOut(Decode(s, Encode(s, v).value[..k]))
    decreases s, 0
  {
    var b := Encode(s, v).value;
    if k > 0 {
      assert b[..k][1..] == b[1..][..k - 1];
      assert b[1..] == Encode(s.arms[v.tag], v.value).value;
      CutIsTruncated(s.arms[v.tag], v.value, k - 1);
    }
  }

  lemma {:induction false} AddressThenCut(field: string, ip: Address, word: seq<byte>, k: nat)
    requires IsAddress(ip) && k < |AddressBytes(ip)| + |word|
    ensures var read := ReadAddress(field, (AddressBytes(ip) + word)[..k]);
            RunsOut(read) || (read.Ok? && |read.value.1| < |word|)
  {
    var a, b := AddressBytes(ip), AddressBytes(ip) + word;
    if k < |a| {
      assert b[..k] == a[..k];
      AddressCut(field, ip, k);
    } else {
      assert b[..k] == a + b[|a|..k];
      AddressAhead(field, ip, b[|a|..k]);
    }
  }

  lemma {:induction false} CutSocket(s: Shape, v: Value, k: nat)
    requires s.Socket? && Typed(s, v) && k < |Encode(s, v).value|
    ensures RunsOut(Decode(s, Encode(s, v).value[..k]))
  {
    AddressThenCut(s.field, v.ip, BigEndian(v.port, 2), k);
  }

  lemma {:induction false} CutNetwork(s: Shape, v: Value, k: nat)
    requires s.Network? && Typed(s, v) && k < |Encode(s, v).value|
    ensures RunsOut(Decode(s, Encode(s, v).value[..k]))
  {
    AddressThenCut(s.field, v.ip, BigEndian(v.prefix, 1), k);
  }

  lemma {:induction false} CutListing(s: Shape, v: Value, k: nat)
    requires s.Listing? && Writable(s, v) && Encode(s, v).Ok? && k < Checked(s, v)
    ensures RunsOut(Decode(s, Encode(s, v).value[..k]))
    decreases s, 0
  {
    if k >= 2 {
      WordCut(s.field, |v.values|, 2, EncodeAll(s.entry, v.values).value, k);
      CutAllIsTruncated(s.entry, v.values, k - 2);
    }
  }

  lemma {:induction false} CutThen(s: Shape, v: Value, k: nat)
    requires s.Then? && Writable(s, v) && Encode(s, v).Ok? && k < Checked(s, v)
    ensures RunsOut(Decode(s, Encode(s, v).value[..k]))
    decreases s, 0
  {
    var a, c := Encode(s.first, v.first).value, Encode(s.rest, v.rest).value;
    CutWithin(a, c, k);
    if k < |a| {
      CutIsTruncated(s.first, v.first, k);
    } else {
      RoundTrip(s.first, v.first, c[..k - |a|]);
      CutIsTruncated(s.rest, v.rest, k - |a|);
    }
  }

  lemma {:induction false} CutAllIsTruncated(entry: Shape, values: seq<Value>, k: nat)
    requires AllWritable(entry, values) && EncodeAll(entry, values).Ok? && k < CheckedAll(entry, values)
    ensures RunsOut(DecodeAll(entry, |values|, EncodeAll(entry, values).value[..k]))
    decreases entry, |values| + 1
  {
    var a, c := Encode(entry, values[0]).value, EncodeAll(entry, values[1..]).value;
    CutWithin(a, c, k);
    if k < |a| {
      CutIsTruncated(entry, values[0], k);
    } else {
      RoundTrip(entry, values[0], c[..k - |a|]);
      CutAllIsTruncated(entry, values[1..], k - |a|);
    }
  }

  // ---- the two sides' bounds agree

  /** `s` with every bound as wide as its length word allows. */
  function Lax(s: Shape): (lax: Shape)
    ensures WellFormed(s) ==> WellFormed(lax)
  {
    match s
    case Bytes(field, _) => Bytes(field, Span(4) - 1)
    case Text(field, _) => Text(field, Span(4) - 1)
    case Optional(field, inner) => Optional(field, Lax(inner))
    case Choice(field, arms) => Choice(field, seq(|arms|, i requires 0 <= i < |arms| => Lax(arms[i])))
    case Listing(field, _, entry) => Listing(field, Span(2) - 1, Lax(entry))
    case Then(first, rest) => Then(Lax(first), Lax(rest))
    case _ => s
  }

  lemma {:induction false} LaxTypes(s: Shape, v: Value)
    ensures Typed(Lax(s), v) == Typed(s, v)
    decreases s, 1
  {
    match s
    case Optional(_, inner) =>
      if v.Present? {
        LaxTypes(inner, v.value);
      }
    case Choice(_, arms) => LaxTypesArm(s, v);
    case Listing(_, _, entry) =>
      if v.Many? {
        LaxTypesAll(entry, v.values);
      }
    case Then(a, b) =>
      if v.Both? {
        LaxTypes(a, v.first);
        LaxTypes(b, v.rest);
      }
    case _ =>
  }

  lemma {:induction false} LaxTypesArm(s: Shape, v: Value)
    requires s.Choice?
    ensures Typed(Lax(s), v) == Typed(s, v)
    decreases s, 0
  {
    LaxArms(s);
    if v.Arm? && v.tag < |s.arms| {
      LaxTypes(s.arms[v.tag], v.value);
    }
  }

  lemma {:induction false} LaxArms(s: Shape)
    requires s.Choice?
    ensures |Lax(s).arms| == |s.arms| && forall i | 0 <= i < |s.arms| :: Lax(s).arms[i] == Lax(s.arms[i])
  {
  }

  lemma {:induction false} LaxTypesAll(entry: Shape, values: seq<Value>)
    ensures AllTyped(Lax(entry), values) == AllTyped(entry, values)
    decreases entry, |values| + 1
  {
    if values != [] {
      LaxTypes(entry, values[0]);
      LaxTypesAll(entry, values[1..]);
    }
  }

  /** The verdict a bounded reader gives bytes a boundless writer wrote: the
      bounded writer's own. */
  ghost predicate SameVerdict<T>(written: Result<seq<byte>, EncodeError>, lax: seq<byte>, read: Read<T>, v: T, tail: seq<byte>) {
    match written
    case Ok(b) => b == lax && read == Ok((v, tail))
    case Err(error) => read == Err(AsRead(error))
  }

  /** What the two sides say of `v`, written with and without the bounds of `s`. */
  ghost predicate Agree(s: Shape, v: Value, tail: seq<byte>)
    requires Fits(s, v) && Typed(Lax(s), v) && Encode(Lax(s), v).Ok?
  {
    var b := Encode(Lax(s), v).value;
    SameVerdict(Encode(s, v), b, Decode(s, b + tail), v, tail)
  }

  /** The writer refuses exactly the values whose bytes the reader would refuse,
      each naming the same field, length and bound. */
  lemma {:induction false} BoundsAgree(s: Shape, v: Value, tail: seq<byte>)
    requires Fits(s, v) && Typed(Lax(s), v) && Encode(Lax(s), v).Ok?
    ensures Agree(s, v, tail)
    decreases s, 1
  {
    match s
    case Bytes(field, bound) => AgreeBytes(s, v, tail);
    case Text(field, bound) => AgreeBytes(s, v, tail);
    case Optional(field, inner) => AgreeOptional(s, v, tail);
    case Choice(field, arms) => AgreeChoice(s, v, tail);
    case Listing(field, bound, entry) => AgreeListing(s, v, tail);
    case Then(first, rest) => AgreeThen(s, v, tail);
    case _ =>
      assert Lax(s) == s;
      AgreeFixed(s, v, tail);
  }

  lemma {:induction false} AgreeFixed(s: Shape, v: Value, tail: seq<byte>)
    requires Fits(s, v) && Lax(s) == s && Encode(s, v).Ok?
    ensures Agree(s, v, tail)
  {
    RoundTrip(s, v, tail);
  }

  lemma {:induction false} AgreeBytes(s: Shape, v: Value, tail: seq<byte>)
    requires (s.Bytes? || s.Text?) && Fits(s, v) && Encode(Lax(s), v).Ok?
    ensures Agree(s, v, tail)
  {
    if |v.bytes| <= s.bound {
      RoundTrip(s, v, tail);
    } else {
      Glue(BigEndian(|v.bytes|, 4), v.bytes, tail);
      WordAhead(s.field, |v.bytes|, 4, v.bytes + tail);
    }
  }

  lemma {:induction false} AgreeOptional(s: Shape, v: Value, tail: seq<byte>)
    requires s.Optional? && Fits(s, v) && Typed(Lax(s), v) && Encode(Lax(s), v).Ok?
    ensures Agree(s, v, tail)
    decreases s, 0
  {
    var b := Encode(Lax(s), v).value;
    ByteAhead(s.field, b[0], b[1..] + tail);
    assert b + tail == [b[0]] + (b[1..] + tail);
    if v.Present? {
      BoundsAgree(s.inner, v.value, tail);
    } else {
      assert b[1..] + tail == tail;
    }
  }

  lemma {:induction false} AgreeChoice(s: Shape, v: Value, tail: seq<byte>)
    requires s.Choice? && Fits(s, v) && Typed(Lax(s), v) && Encode(Lax(s), v).Ok?
    ensures Agree(s, v, tail)
    decreases s, 0
  {
    var b := Encode(Lax(s), v).value;
    assert b + tail == [v.tag] + (b[1..] + tail);
    ByteAhead(s.field, v.tag, b[1..] + tail);
    BoundsAgree(s.arms[v.tag], v.value, tail);
  }

  lemma {:induction false} AgreeListing(s: Shape, v: Value, tail: seq<byte>)
    requires s.Listing? && Fits(s, v) && Typed(Lax(s), v) && Encode(Lax(s), v).Ok?
    ensures Agree(s, v, tail)
    decreases s, 0
  {
    var b := Encode(Lax(s), v).value;
    var written := EncodeAll(Lax(s.entry), v.values).value;
    Glue(BigEndian(|v.values|, 2), written, tail);
    WordAhead(s.field, |v.values|, 2, written + tail);
    BoundsAgreeAll(s.entry, v.values, tail);
  }

  lemma {:induction false} AgreeThen(s: Shape, v: Value, tail: seq<byte>)
    requires s.Then? && Fits(s, v) && Typed(Lax(s), v) && Encode(Lax(s), v).Ok?
    ensures Agree(s, v, tail)
    decreases s, 0
  {
    var a, c := Encode(Lax(s.first), v.first).value, Encode(Lax(s.rest), v.rest).value;
    Glue(a, c, tail);
    BoundsAgree(s.first, v.first, c + tail);
    BoundsAgree(s.rest, v.rest, tail);
  }

  lemma {:induction false} BoundsAgreeAll(entry: Shape, values: seq<Value>, tail: seq<byte>)
    requires AllFit(entry, values) && AllTyped(Lax(entry), values)
    requires EncodeAll(Lax(entry), values).Ok?
    ensures var b := EncodeAll(Lax(entry), values).value;
            SameVerdict(EncodeAll(entry, values), b, DecodeAll(entry, |values|, b + tail), values, tail)
    decreases entry, |values| + 1
  {
    if values == [] {
      assert [] + tail == tail;
    } else {
      var a, c := Encode(Lax(entry), values[0]).value, EncodeAll(Lax(entry), values[1..]).value;
      Glue(a, c, tail);
      BoundsAgree(entry, values[0], c + tail);
      BoundsAgreeAll(entry, values[1..], tail);
      assert values == [values[0]] + values[1..];
    }
  }

  // ---- how long an encoding can be

  /** The most bytes an encoding of `s` takes. */
  function Longest(s: Shape): nat {
    match s
    case Word(_, width, _, _) => width
    case Flag(_) => 1
    case Bytes(_, bound) => 4 + bound
    case Text(_, bound) => 4 + bound
    case Optional(_, inner) => 1 + Longest(inner)
    case Choice(_, arms) => 1 + LongestArm(arms)
    case Ip(_) => 17
    case Socket(_) => 19
    case Network(_, _) => 18
    case Listing(_, bound, entry) => 2 + bound * Longest(entry)
    case Empty => 0
    case Then(first, rest) => Longest(first) + Longest(rest)
  }

  function LongestArm(arms: seq<Shape>): (length: nat)
    ensures forall i | 0 <= i < |arms| :: Longest(arms[i]) <= length
  {
    if arms == [] then 0
    else
      var front, last := LongestArm(arms[..|arms| - 1]), Longest(arms[|arms| - 1]);
      if front < last then last else front
  }

  /** An encoding is never longer than its shape allows. */
  lemma {:induction false} NoLonger(s: Shape, v: Value)
    requires Writable(s, v) && Encode(s, v).Ok?
    ensures |Encode(s, v).value| <= Longest(s)
    decreases s, 0
  {
    match s
    case Word(_, _, _, _) =>
    case Flag(_) =>
    case Bytes(_, _) =>
    case Text(_, _) =>
    case Optional(_, inner) =>
      if v.Present? {
        NoLonger(inner, v.value);
      }
    case Choice(_, arms) =>
      NoLonger(arms[v.tag], v.value);
      assert Longest(arms[v.tag]) <= LongestArm(arms);
    case Ip(_) =>
    case Socket(_) =>
    case Network(_, _) =>
    case Listing(_, bound, entry) =>
      NoLongerAll(entry, v.values);
      MoreEntries(|v.values|, bound, Longest(entry));
    case Empty =>
    case Then(first, rest) =>
      NoLonger(first, v.first);
      NoLonger(rest, v.rest);
  }

  lemma {:induction false} MoreEntries(a: nat, b: nat, each: nat)
    requires a <= b
    ensures a * each <= b * each
  {
  }

  lemma {:induction false} NoLongerAll(entry: Shape, values: seq<Value>)
    requires AllWritable(entry, values) && EncodeAll(entry, values).Ok?
    ensures |EncodeAll(entry, values).value| <= |values| * Longest(entry)
    decreases entry, |values| + 1
  {
    if values != [] {
      NoLonger(entry, values[0]);
      NoLongerAll(entry, values[1..]);
      assert |values| * Longest(entry) == Longest(entry) + (|values| - 1) * Longest(entry);
    }
  }
}
