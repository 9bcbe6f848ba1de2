/**
  The writer that appends a payload to its buffer in place, and the reader that
  consumes one, each proved against `Wire.Encode` and `Wire.Decode`.
 */
module WireBuffers {
  import opened Wrappers
  import opened Octets
  import opened Wire

  /** `r` with `written` ahead of what it wrote. */
  function Behind(written: seq<byte>, r: Result<seq<byte>, EncodeError>): Result<seq<byte>, EncodeError> {
    if r.Ok? then Ok(written + r.value) else r
  }

  lemma {:induction false} BehindTwice(a: seq<byte>, b: seq<byte>, r: Result<seq<byte>, EncodeError>)
    ensures Behind([], r) == r && Behind(a, Behind(b, r)) == Behind(a + b, r)
  {
    if r.Ok? {
      assert [] + r.value == r.value && a + (b + r.value) == a + b + r.value;
    }
  }

  lemma {:induction false} OneMore(entry: Shape, todo: seq<Value>, written: seq<byte>)
    requires AllWritable(entry, todo) && todo != []
    ensures AllWritable(entry, todo[1..])
    ensures match Encode(entry, todo[0])
            case Ok(b) => Behind(written, EncodeAll(entry, todo)) == Behind(written + b, EncodeAll(entry, todo[1..]))
            case Err(error) => EncodeAll(entry, todo) == Err(error)
  {
    var first := Encode(entry, todo[0]);
    if first.Ok? {
      BehindTwice(written, first.value, EncodeAll(entry, todo[1..]));
    }
  }

  /** `r` with `values` ahead of those it read. */
  function Following(values: seq<Value>, r: Read<seq<Value>>): Read<seq<Value>> {
    if r.Ok? then Ok((values + r.value.0, r.value.1)) else r
  }

  lemma {:induction false} FollowingTwice(a: seq<Value>, b: seq<Value>, r: Read<seq<Value>>)
    ensures Following([], r) == r && Following(a, Following(b, r)) == Following(a + b, r)
  {
    if r.Ok? {
      var more := r.value.0;
      assert [] + more == more && a + (b + more) == a + b + more;
    }
  }

  /** What a writer's buffer holds once `written` was asked of it: a refusal may
      leave the fields before it, and it is the frame's encoder that takes them
      back. */
  ghost predicate Settled(written: Result<seq<byte>, EncodeError>, r: Result<(), EncodeError>,
                          before: seq<byte>, after: seq<byte>)
  {
    match written
    case Ok(b) => r.Ok? && after == before + b
    case Err(error) => r == Err(error) && before <= after
  }

  class Writer {
    var out: seq<byte>

    constructor ()
      ensures out == []
    {
      out := [];
    }

    method PutWord(n: nat, width: nat)
      requires n < Span(width)
      modifies this
      ensures out == old(out) + BigEndian(n, width)
    {
      out := out + BigEndian(n, width);
    }

    method PutBytes(field: string, bytes: seq<byte>, bound: nat) returns (r: Result<(), EncodeError>)
      requires bound < Span(4)
      modifies this
      ensures match BytesAfterLength(field, bytes, bound)
              case Ok(b) => r.Ok? && out == old(out) + b
              case Err(error) => r == Err(error) && out == old(out)
    {
      if |bytes| > bound {
        return Err(TooLong(field, |bytes|, bound));
      }
      PutWord(|bytes|, 4);
      out := out + bytes;
      return Ok(());
    }

    method PutAddress(ip: Address)
      requires IsAddress(ip)
      modifies this
      ensures out == old(out) + AddressBytes(ip)
    {
      out := out + [if ip.V4? then 4 else 6];
      out := out + ip.octets;
    }

    /** Append `v`. */
    method Put(s: Shape, v: Value) returns (r: Result<(), EncodeError>)
      requires Writable(s, v)
      modifies this
      ensures Settled(Encode(s, v), r, old(out), out)
      decreases s, 1
    {
      r := Ok(());
      match s {
        case Word(_, width, _, _) => PutWord(v.n, width);
        case Flag(_) => out := out + [if v.b then 1 else 0];
        case Bytes(field, bound) => r := PutBytes(field, v.bytes, bound);
        case Text(field, bound) => r := PutBytes(field, v.bytes, bound);
        case Optional(_, inner) => r := PutOptional(s, v);
        case Choice(_, arms) => r := PutChoice(s, v);
        case Ip(_) => PutAddress(v.ip);
        case Socket(_) =>
          PutAddress(v.ip);
          PutWord(v.port, 2);
          Glue(old(out), AddressBytes(v.ip), BigEndian(v.port, 2));
        case Network(_, _) =>
          PutAddress(v.ip);
          PutWord(v.prefix, 1);
          Glue(old(out), AddressBytes(v.ip), BigEndian(v.prefix, 1));
        case Listing(_, _, _) => r := PutListing(s, v);
        case Empty => assert out + [] == out;
        case Then(first, rest) =>
          var _ :- Put(first, v.first);
          r := Put(rest, v.rest);
          if r.Ok? {
            Glue(old(out), Encode(first, v.first).value, Encode(rest, v.rest).value);
          }
      }
    }

    method PutOptional(s: Shape, v: Value) returns (r: Result<(), EncodeError>)
      requires s.Optional? && Writable(s, v)
      modifies this
      ensures Settled(Encode(s, v), r, old(out), out)
      decreases s, 0
    {
      if v.Absent? {
        out := out + [0];
        return Ok(());
      }
      out := out + [1];
      r := Put(s.inner, v.value);
      if r.Ok? {
        Glue(old(out), [1], Encode(s.inner, v.value).value);
      }
    }

    method PutChoice(s: Shape, v: Value) returns (r: Result<(), EncodeError>)
      requires s.Choice? && Writable(s, v)
      modifies this
      ensures Settled(Encode(s, v), r, old(out), out)
      decreases s, 0
    {
      out := out + [v.tag];
      r := Put(s.arms[v.tag], v.value);
      if r.Ok? {
        Glue(old(out), [v.tag], Encode(s.arms[v.tag], v.value).value);
      }
    }

    method PutListing(s: Shape, v: Value) returns (r: Result<(), EncodeError>)
      requires s.Listing? && Writable(s, v)
      modifies this
      ensures Settled(Encode(s, v), r, old(out), out)
      decreases s, 0
    {
      if |v.values| > s.bound {
        return Err(TooLong(s.field, |v.values|, s.bound));
      }
      PutWord(|v.values|, 2);
      r := PutAll(s.entry, v.values);
      if r.Ok? {
        Glue(old(out), BigEndian(|v.values|, 2), EncodeAll(s.entry, v.values).value);
      }
    }

    method PutAll(entry: Shape, values: seq<Value>) returns (r: Result<(), EncodeError>)
      requires AllWritable(entry, values)
      modifies this
      ensures Settled(EncodeAll(entry, values), r, old(out), out)
      decreases entry, 2
    {
      var todo := values;
      ghost var written: seq<byte> := [];
      BehindTwice([], [], EncodeAll(entry, values));
      while todo != []
        invariant AllWritable(entry, todo)
        invariant out == old(out) + written
        invariant EncodeAll(entry, values) == Behind(written, EncodeAll(entry, todo))
      {
        r := Put(entry, todo[0]);
        OneMore(entry, todo, written);
        if r.Err? {
          return;
        }
        ghost var b := Encode(entry, todo[0]).value;
        Glue(old(out), written, b);
        written := written + b;
        todo := todo[1..];
      }
      assert written + [] == written;
      return Ok(());
    }
  }

  class Reader {
    var rest: seq<byte>

    constructor (payload: seq<byte>)
      ensures rest == payload
    {
      rest := payload;
    }

    method Next(field: string, length: nat) returns (r: Result<seq<byte>, DecodeError>)
      modifies this
      ensures match Take(field, old(rest), length)
              case Ok((bytes, left)) => r == Ok(bytes) && rest == left
              case Err(error) => r == Err(error) && rest == old(rest)
    {
      if |rest| < length {
        return Err(Truncated(field));
      }
      r := Ok(rest[..length]);
      rest := rest[length..];
    }

    method NextByte(field: string) returns (r: Result<byte, DecodeError>)
      modifies this
      ensures match ReadByte(field, old(rest))
              case Ok((tag, left)) => r == Ok(tag) && rest == left
              case Err(error) => r == Err(error)
    {
      var one := Next(field, 1);
      if one.Err? {
        return Err(one.error);
      }
      return Ok(one.value[0]);
    }

    method NextWord(field: string, width: nat) returns (r: Result<nat, DecodeError>)
      modifies this
      ensures match ReadWord(field, old(rest), width)
              case Ok((n, left)) => r == Ok(n) && rest == left
              case Err(error) => r == Err(error)
    {
      var word := Next(field, width);
      if word.Err? {
        return Err(word.error);
      }
      return Ok(FromBigEndian(word.value));
    }

    method NextBytes(field: string, bound: nat) returns (r: Result<seq<byte>, DecodeError>)
      modifies this
      ensures match ReadBytes(field, old(rest), bound)
              case Ok((bytes, left)) => r == Ok(bytes) && rest == left
              case Err(error) => r == Err(error)
    {
      var length :- NextWord(field, 4);
      if length > bound {
        return Err(OverBound(field, length, bound));
      }
      r := Next(field, length);
    }

    method NextAddress(field: string) returns (r: Result<Address, DecodeError>)
      modifies this
      ensures match ReadAddress(field, old(rest))
              case Ok((ip, left)) => r == Ok(ip) && rest == left
              case Err(error) => r == Err(error)
    {
      var tag :- NextByte(field);
      if tag == 4 {
        var octets :- Next(field, 4);
        return Ok(V4(octets));
      } else if tag == 6 {
        var octets :- Next(field, 16);
        return Ok(V6(octets));
      }
      return Err(UnknownTag(field, tag));
    }

    method Get(s: Shape) returns (r: Result<Value, DecodeError>)
      modifies this
      ensures match Decode(s, old(rest))
              case Ok((v, left)) => r == Ok(v) && rest == left
              case Err(error) => r == Err(error)
      decreases s, 0
    {
      match s
      case Word(field, width, least, most) =>
        var n :- NextWord(field, width);
        return if least <= n <= most then Ok(Number(n)) else Err(Invalid(field));
      case Flag(field) =>
        var tag :- NextByte(field);
        return if tag <= 1 then Ok(Truth(tag == 1)) else Err(UnknownTag(field, tag));
      case Bytes(field, bound) =>
        var bytes :- NextBytes(field, bound);
        return Ok(Blob(bytes));
      case Text(field, bound) =>
        var bytes :- NextBytes(field, bound);
        return if Utf8(bytes) then Ok(Blob(bytes)) else Err(NotUtf8(field));
      case Optional(field, inner) =>
        var tag :- NextByte(field);
        if tag == 0 {
          return Ok(Absent);
        } else if tag == 1 {
          var value :- Get(inner);
          return Ok(Present(value));
        }
        return Err(UnknownTag(field, tag));
      case Choice(field, arms) =>
        var tag :- NextByte(field);
        if tag >= |arms| {
          return Err(UnknownTag(field, tag));
        }
        var value :- Get(arms[tag]);
        return Ok(Arm(tag, value));
      case Ip(field) =>
        var ip :- NextAddress(field);
        return Ok(Host(ip));
      case Socket(field) =>
        var ip :- NextAddress(field);
        var port :- NextWord(field, 2);
        return Ok(Endpoint(ip, port));
      case Network(field, prefixField) =>
        var ip :- NextAddress(field);
        var prefix :- NextWord(prefixField, 1);
        return if prefix <= Widest(ip) then Ok(Range(ip, prefix)) else Err(Invalid(prefixField));
      case Listing(field, bound, entry) =>
        var count :- NextWord(field, 2);
        if count > bound {
          return Err(OverBound(field, count, bound));
        }
        var values :- GetAll(entry, count);
        return Ok(Many(values));
      case Empty => return Ok(Unit);
      case Then(first, second) =>
        var x :- Get(first);
        var y :- Get(second);
        return Ok(Both(x, y));
    }

    method GetAll(entry: Shape, count: nat) returns (r: Result<seq<Value>, DecodeError>)
      modifies this
      ensures match DecodeAll(entry, count, old(rest))
              case Ok((values, left)) => r == Ok(values) && rest == left
              case Err(error) => r == Err(error)
      decreases entry, 1
    {
      var values: seq<Value> := [];
      FollowingTwice([], [], DecodeAll(entry, count, rest));
      for i := 0 to count
        invariant DecodeAll(entry, count, old(rest)) == Following(values, DecodeAll(entry, count - i, rest))
      {
        var value :- Get(entry);
        FollowingTwice(values, [value], DecodeAll(entry, count - i - 1, rest));
        values := values + [value];
      }
      assert values + [] == values;
      return Ok(values);
    }

    method Finish() returns (r: Result<(), DecodeError>)
      ensures r == if rest == [] then Ok(()) else Err(TrailingBytes(|rest|))
    {
      if rest != [] {
        return Err(TrailingBytes(|rest|));
      }
      return Ok(());
    }
  }
}
