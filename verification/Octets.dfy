/** Bytes, big-endian words, and well-formed UTF-8. */
module Octets {

  type byte = n: int | 0 <= n < 256

  /** 256 to the power `width`: how many values a word of `width` bytes has. */
  function Span(width: nat): (span: nat)
    ensures 1 <= span
  {
    if width == 0 then 1 else 256 * Span(width - 1)
  }

  /** `n` as `width` bytes, most significant first. */
  function BigEndian(n: nat, width: nat): (bytes: seq<byte>)
    requires n < Span(width)
    ensures |bytes| == width
    decreases width
  {
    if width == 0 then [] else BigEndian(n / 256, width - 1) + [n % 256]
  }

  function FromBigEndian(bytes: seq<byte>): (n: nat)
    ensures n < Span(|bytes|)
  {
    if bytes == [] then 0 else 256 * FromBigEndian(bytes[..|bytes| - 1]) + bytes[|bytes| - 1]
  }

  lemma {:induction false} WordSurvives(n: nat, width: nat)
    requires n < Span(width)
    ensures FromBigEndian(BigEndian(n, width)) == n
    decreases width
  {
    if width > 0 {
      WordSurvives(n / 256, width - 1);
      assert BigEndian(n, width)[..width - 1] == BigEndian(n / 256, width - 1);
    }
  }

  lemma {:induction false} BytesSurvive(bytes: seq<byte>)
    ensures BigEndian(FromBigEndian(bytes), |bytes|) == bytes
  {
    if bytes != [] {
      var front := bytes[..|bytes| - 1];
      BytesSurvive(front);
      assert bytes == front + [bytes[|bytes| - 1]];
    }
  }

  predicate Continuation(b: byte) {
    0x80 <= b <= 0xBF
  }

  /** How many bytes the well-formed code point that starts `bytes` takes, or 0
      when none starts there (table 3-7 of the Unicode standard). */
  function LeadLength(bytes: seq<byte>): (length: nat)
    requires bytes != []
    ensures length <= |bytes|
  {
    var a := bytes[0];
    var b := if |bytes| > 1 then bytes[1] else 0;
    var c := if |bytes| > 2 then bytes[2] else 0;
    var d := if |bytes| > 3 then bytes[3] else 0;
    if a < 0x80 then 1
    else if 0xC2 <= a <= 0xDF && Continuation(b) then 2
    else if a == 0xE0 && 0xA0 <= b <= 0xBF && Continuation(c) then 3
    else if (0xE1 <= a <= 0xEC || a == 0xEE || a == 0xEF) && Continuation(b) && Continuation(c) then 3
    else if a == 0xED && 0x80 <= b <= 0x9F && Continuation(c) then 3
    else if a == 0xF0 && 0x90 <= b <= 0xBF && Continuation(c) && Continuation(d) then 4
    else if 0xF1 <= a <= 0xF3 && Continuation(b) && Continuation(c) && Continuation(d) then 4
    else if a == 0xF4 && 0x80 <= b <= 0x8F && Continuation(c) && Continuation(d) then 4
    else 0
  }

  /** Whether `bytes` is UTF-8, as a Rust `String` always is. */
  predicate Utf8(bytes: seq<byte>) {
    bytes == [] || (LeadLength(bytes) > 0 && Utf8(bytes[LeadLength(bytes)..]))
  }

  // ---- UTF-8 is the encoding of Unicode scalar values

  /** A code point that is no surrogate. */
  predicate IsScalar(c: int) {
    0 <= c < 0xD800 || 0xE000 <= c < 0x11_0000
  }

  /** Six bits of a code point, behind the mark of a continuation. */
  function Trail(n: nat): (b: byte)
    ensures Continuation(b)
  {
    0x80 + n % 64
  }

  /** A scalar value as UTF-8: seven bits in one byte, or its bits in sixes behind a
      lead that says how many follow. */
  function PointBytes(c: int): (bytes: seq<byte>)
    requires IsScalar(c)
    ensures 1 <= |bytes| <= 4
  {
    if c < 0x80 then [c]
    else if c < 0x800 then [0xC0 + c / 64, Trail(c)]
    else if c < 0x1_0000 then [0xE0 + c / 64 / 64, Trail(c / 64), Trail(c)]
    else [0xF0 + c / 64 / 64 / 64, Trail(c / 64 / 64), Trail(c / 64), Trail(c)]
  }

  predicate AreScalars(points: seq<int>) {
    forall i | 0 <= i < |points| :: IsScalar(points[i])
  }

  function TextBytes(points: seq<int>): seq<byte>
    requires AreScalars(points)
  {
    if points == [] then [] else PointBytes(points[0]) + TextBytes(points[1..])
  }

  /** A scalar value in UTF-16: itself, or its bits beyond sixteen in two tens. */
  function PointUnits(c: int): (units: seq<int>)
    requires IsScalar(c)
    ensures 1 <= |units| <= 2
  {
    if c < 0x1_0000 then [c] else [0xD800 + (c - 0x1_0000) / 0x400, 0xDC00 + (c - 0x1_0000) % 0x400]
  }

  function TextUnits(points: seq<int>): seq<int>
    requires AreScalars(points)
  {
    if points == [] then [] else PointUnits(points[0]) + TextUnits(points[1..])
  }

  /** Six more bits. */
  function More(n: int, trail: int): int {
    64 * n + (trail - 0x80)
  }

  /** The code point whose bytes start `bytes`. */
  function PointAt(bytes: seq<byte>): (c: int)
    requires bytes != [] && LeadLength(bytes) > 0
  {
    match LeadLength(bytes)
    case 1 => bytes[0]
    case 2 => More(bytes[0] - 0xC0, bytes[1])
    case 3 => More(More(bytes[0] - 0xE0, bytes[1]), bytes[2])
    case _ => More(More(More(bytes[0] - 0xF0, bytes[1]), bytes[2]), bytes[3])
  }

  lemma {:induction false} Sixes(n: int, b: byte)
    requires 0 <= n && Continuation(b)
    ensures More(n, b) / 64 == n && Trail(More(n, b)) == b
  {
  }

  lemma {:induction false} ThreeIsPoint(a: byte, b: byte, c: byte)
    requires LeadLength([a, b, c]) == 3
    ensures var p := More(More(a - 0xE0, b), c); IsScalar(p) && PointBytes(p) == [a, b, c]
  {
    Sixes(a - 0xE0, b);
    Sixes(More(a - 0xE0, b), c);
  }

  lemma {:induction false} FourIsPoint(a: byte, b: byte, c: byte, d: byte)
    requires LeadLength([a, b, c, d]) == 4
    ensures var p := More(More(More(a - 0xF0, b), c), d); IsScalar(p) && PointBytes(p) == [a, b, c, d]
  {
    Sixes(a - 0xF0, b);
    Sixes(More(a - 0xF0, b), c);
    Sixes(More(More(a - 0xF0, b), c), d);
  }

  /** A lead and its continuations are the bytes of one scalar value. */
  lemma {:induction false} LeadIsPoint(bytes: seq<byte>)
    requires bytes != [] && LeadLength(bytes) > 0
    ensures IsScalar(PointAt(bytes)) && PointBytes(PointAt(bytes)) == bytes[..LeadLength(bytes)]
  {
    var n := LeadLength(bytes);
    if n == 2 {
      Sixes(bytes[0] - 0xC0, bytes[1]);
    } else if n == 3 {
      ThreeIsPoint(bytes[0], bytes[1], bytes[2]);
    } else if n == 4 {
      FourIsPoint(bytes[0], bytes[1], bytes[2], bytes[3]);
    }
  }

  /** And the bytes of a scalar value, whatever follows, are such a lead. */
  lemma {:induction false} PointIsLead(c: int, rest: seq<byte>)
    requires IsScalar(c)
    ensures LeadLength(PointBytes(c) + rest) == |PointBytes(c)|
  {
    var bytes := PointBytes(c) + rest;
    assert forall i | 0 <= i < |PointBytes(c)| :: bytes[i] == PointBytes(c)[i];
  }

  lemma {:induction false} PointsOf(bytes: seq<byte>) returns (points: seq<int>)
    requires Utf8(bytes)
    ensures AreScalars(points) && TextBytes(points) == bytes
    decreases |bytes|
  {
    if bytes == [] {
      points := [];
    } else {
      var n := LeadLength(bytes);
      LeadIsPoint(bytes);
      var rest := PointsOf(bytes[n..]);
      points := [PointAt(bytes)] + rest;
      assert points[1..] == rest && bytes == bytes[..n] + bytes[n..];
    }
  }

  lemma {:induction false} TextIsUtf8(points: seq<int>)
    requires AreScalars(points)
    ensures Utf8(TextBytes(points))
    decreases |points|
  {
    if points != [] {
      var first, rest := PointBytes(points[0]), TextBytes(points[1..]);
      TextIsUtf8(points[1..]);
      PointIsLead(points[0], rest);
      assert (first + rest)[|first|..] == rest;
    }
  }

  ghost predicate IsTextOf(bytes: seq<byte>, points: seq<int>) {
    AreScalars(points) && bytes == TextBytes(points)
  }

  /** Bytes are UTF-8 exactly when they are the encoding of some text. */
  lemma {:induction false} Utf8Iff(bytes: seq<byte>)
    ensures Utf8(bytes) <==> exists points :: IsTextOf(bytes, points)
  {
    if Utf8(bytes) {
      var points := PointsOf(bytes);
      assert IsTextOf(bytes, points);
    }
    if exists points :: IsTextOf(bytes, points) {
      var points :| IsTextOf(bytes, points);
      TextIsUtf8(points);
    }
  }

  // ---- big-endian, digit by digit

  /** Byte `i` of a word counts multiples of 256 to the power of the bytes behind it. */
  lemma {:induction false} DigitOf(n: nat, width: nat, i: nat)
    requires n < Span(width) && i < width
    ensures BigEndian(n, width)[i] == n / Span(width - 1 - i) % 256
    decreases width
  {
    if i < width - 1 {
      DigitOf(n / 256, width - 1, i);
      Quotients(n, Span(width - 2 - i));
    }
  }

  lemma {:induction false} Quotients(n: nat, d: nat)
    requires d > 0
    ensures n / 256 / d == n / (256 * d)
  {
    var q, r := n / (256 * d), n % (256 * d);
    assert n == 256 * d * q + r;
    var a, b := r / 256, r % 256;
    assert n == 256 * (d * q + a) + b;
    assert n / 256 == d * q + a;
    assert 256 * a <= r < 256 * d;
    Divides(d, q, a);
  }

  lemma {:induction false} Divides(d: nat, q: nat, a: nat)
    requires a < d
    ensures (d * q + a) / d == q
  {
    var p, r := (d * q + a) / d, (d * q + a) % d;
    assert d * q + a == d * p + r;
    var k := q - p;
    assert d * k == r - a;
    assert k >= 1 ==> d * k >= d;
    assert k <= -1 ==> d * k + d <= 0;
  }
}
