/** Standard base64 with padding (section 4 of RFC 4648), strictly decoded. */
module Base64 {
  import opened Wrappers
  import opened Octets

  const PAD: int := 61

  type sextet = n: int | 0 <= n < 64

  /** The alphabet: `A-Z a-z 0-9 + /`. */
  function Symbol(v: sextet): int {
    if v < 26 then v + 65 else if v < 52 then v - 26 + 97 else if v < 62 then v - 52 + 48 else if v == 62 then 43 else 47
  }

  function ValueOf(c: int): Option<sextet> {
    if 65 <= c <= 90 then Some(c - 65)
    else if 97 <= c <= 122 then Some(c - 97 + 26)
    else if 48 <= c <= 57 then Some(c - 48 + 52)
    else if c == 43 then Some(62)
    else if c == 47 then Some(63)
    else None
  }

  lemma {:induction false} SymbolsAreDistinct(v: sextet, c: int)
    ensures ValueOf(Symbol(v)) == Some(v) && Symbol(v) != PAD
    ensures ValueOf(c).Some? ==> Symbol(ValueOf(c).value) == c
  {
  }

  /** Three bytes as one number, and four sextets as one. */
  function Bytes3(a: int, b: int, c: int): int {
    a * 65536 + b * 256 + c
  }

  function Sextets4(w: int, x: int, y: int, z: int): int {
    w * 262144 + x * 4096 + y * 64 + z
  }

  /** The symbols of four sextets, all but the first `keep + 1` padded. */
  function Spelled(w: sextet, x: sextet, y: sextet, z: sextet, keep: nat): seq<int> {
    [Symbol(w), Symbol(x), if keep > 1 then Symbol(y) else PAD, if keep > 2 then Symbol(z) else PAD]
  }

  /** The four symbols of up to three bytes, short groups padded. */
  function Group(bytes: seq<byte>): (symbols: seq<int>)
    requires 1 <= |bytes| <= 3
    ensures |symbols| == 4
  {
    var b := if |bytes| > 1 then bytes[1] else 0;
    var c := if |bytes| > 2 then bytes[2] else 0;
    var n := Bytes3(bytes[0], b, c);
    Spelled(n / 262144, n / 4096 % 64, n / 64 % 64, n % 64, |bytes|)
  }

  function Encode(bytes: seq<byte>): seq<int> {
    if bytes == [] then [] else if |bytes| <= 3 then Group(bytes) else Group(bytes[..3]) + Encode(bytes[3..])
  }

  // ---- what the symbols are

  /** The bits of a group, from the first on: the first six of the first byte, its last
      two with four of the second, the second's last four with two of the third, the
      third's last six; padded where there is no byte. */
  lemma {:induction false} GroupBits(a: byte, b: byte, c: byte)
    ensures Group([a]) == [Symbol(a / 4), Symbol(a % 4 * 16), PAD, PAD]
    ensures Group([a, b]) == [Symbol(a / 4), Symbol(a % 4 * 16 + b / 16), Symbol(b % 16 * 4), PAD]
    ensures Group([a, b, c]) == [Symbol(a / 4), Symbol(a % 4 * 16 + b / 16), Symbol(b % 16 * 4 + c / 64), Symbol(c % 64)]
  {
    BitsOf(a, 0, 0);
    BitsOf(a, b, 0);
    BitsOf(a, b, c);
  }

  lemma {:induction false} BitsOf(a: byte, b: byte, c: byte)
    ensures var n := Bytes3(a, b, c);
            n / 262144 == a / 4 && n / 4096 % 64 == a % 4 * 16 + b / 16 && n / 64 % 64 == b % 16 * 4 + c / 64 && n % 64 == c % 64
  {
    var w: sextet, x: sextet, y: sextet, z: sextet := a / 4, a % 4 * 16 + b / 16, b % 16 * 4 + c / 64, c % 64;
    assert Bytes3(a, b, c) == Sextets4(w, x, y, z);
    SextetsBack(w, x, y, z);
  }

  /** The test vectors of section 10 of RFC 4648 for `f`, `fo` and `foo`: `Zg==`, `Zm8=`
      and `Zm9v`. */
  lemma {:induction false} ShortVectors(f: byte, o: byte)
    requires f == 'f' as int && o == 'o' as int
    ensures Encode([f]) == ['Z' as int, 'g' as int, PAD, PAD]
    ensures Encode([f, o]) == ['Z' as int, 'm' as int, '8' as int, PAD]
    ensures Encode([f, o, o]) == ['Z' as int, 'm' as int, '9' as int, 'v' as int]
  {
    GroupBits(f, o, o);
  }

  /** Groups of three are encoded in turn. */
  lemma {:induction false} GroupsInTurn(first: seq<byte>, more: seq<byte>)
    requires |first| == 3
    ensures Encode(first + more) == Encode(first) + Encode(more)
  {
    if more == [] {
      assert first + more == first && Encode(first) + [] == Encode(first);
    } else {
      assert (first + more)[..3] == first && (first + more)[3..] == more;
    }
  }

  /** The last two symbols: `+/8=`. */
  lemma {:induction false} LastSymbols(a: byte, b: byte)
    requires a == 0xFB && b == 0xFF
    ensures Encode([a, b]) == ['+' as int, '/' as int, '8' as int, PAD]
  {
    GroupBits(a, b, 0);
  }

  /** Padded base64 comes in fours. */
  lemma {:induction false} EncodedInFours(bytes: seq<byte>) returns (quads: nat)
    ensures |Encode(bytes)| == 4 * quads && (quads == 0 <==> bytes == [])
  {
    if bytes == [] {
      return 0;
    } else if |bytes| <= 3 {
      return 1;
    }
    var more := EncodedInFours(bytes[3..]);
    return more + 1;
  }

  function Pads(text: seq<int>): nat {
    if text == [] then 0 else (if text[0] == PAD then 1 else 0) + Pads(text[1..])
  }

  /** The value of a symbol, a pad only where `padded` allows one. */
  function SymbolOrPad(c: int, padded: bool): Option<sextet> {
    if c == PAD then (if padded then Some(0) else None) else ValueOf(c)
  }

  /** The bytes four symbols stand for; the bits padding discards must be zero. */
  function Ungroup(symbols: seq<int>): (bytes: Option<seq<byte>>)
    requires |symbols| == 4
    ensures bytes.Some? ==> 1 <= |bytes.value| <= 3
  {
    var pad := Pads(symbols);
    if pad > 2 then None
    else
      var w, x := SymbolOrPad(symbols[0], false), SymbolOrPad(symbols[1], false);
      var y, z := SymbolOrPad(symbols[2], pad == 2), SymbolOrPad(symbols[3], pad >= 1);
      if w.None? || x.None? || y.None? || z.None? then None
      else
        var n := Sextets4(w.value, x.value, y.value, z.value);
        if (pad == 1 && n % 256 != 0) || (pad == 2 && n % 65536 != 0) then None
        else Some([n / 65536] + (if pad < 2 then [n / 256 % 256] else []) + (if pad < 1 then [n % 256] else []))
  }

  function Decode(text: seq<int>): Option<seq<byte>>
    decreases |text|
  {
    if text == [] then Some([])
    else if |text| < 4 then None
    else
      var first := Ungroup(text[..4]);
      if first.None? || (Pads(text[..4]) > 0 && |text| > 4) then None
      else
        var rest := Decode(text[4..]);
        if rest.None? then None else Some(first.value + rest.value)
  }

  lemma {:induction false} PadsOf(a: int, b: int, c: int, d: int)
    ensures Pads([a, b, c, d]) == (if a == PAD then 1 else 0) + (if b == PAD then 1 else 0)
                                + (if c == PAD then 1 else 0) + (if d == PAD then 1 else 0)
  {
    var q := [a, b, c, d];
    assert q[1..] == [b, c, d] && [b, c, d][1..] == [c, d] && [c, d][1..] == [d] && [d][1..] == [];
    assert Pads([d]) == (if d == PAD then 1 else 0) + Pads([]);
    assert Pads([c, d]) == (if c == PAD then 1 else 0) + Pads([d]);
  }

  lemma {:induction false} GroupSurvives(bytes: seq<byte>)
    requires 1 <= |bytes| <= 3
    ensures Ungroup(Group(bytes)) == Some(bytes) && (Pads(Group(bytes)) > 0 <==> |bytes| < 3)
  {
    var b := if |bytes| > 1 then bytes[1] else 0;
    var c := if |bytes| > 2 then bytes[2] else 0;
    BytesOut(bytes[0], b, c);
    var n := Bytes3(bytes[0], b, c);
    Sextets(n);
    ZeroTail(bytes[0], b, c);
    Ungrouped(n / 262144, n / 4096 % 64, n / 64 % 64, n % 64, |bytes|);
    assert bytes == [bytes[0]] + (if |bytes| > 1 then [b] else []) + (if |bytes| > 2 then [c] else []);
  }

  lemma {:induction false} Ungrouped(w: sextet, x: sextet, y: sextet, z: sextet, keep: nat)
    requires 1 <= keep <= 3
    requires var n := Sextets4(w, x, y, z);
             (keep < 3 ==> z == 0 && n % 256 == 0) && (keep < 2 ==> y == 0 && n % 65536 == 0)
    ensures var q, n := Spelled(w, x, y, z, keep), Sextets4(w, x, y, z);
            && Pads(q) == 3 - keep
            && Ungroup(q) == Some([n / 65536] + (if keep > 1 then [n / 256 % 256] else []) + (if keep > 2 then [n % 256] else []))
  {
    var q := Spelled(w, x, y, z, keep);
    SymbolsAreDistinct(w, 0);
    SymbolsAreDistinct(x, 0);
    SymbolsAreDistinct(y, 0);
    SymbolsAreDistinct(z, 0);
    PadsOf(q[0], q[1], q[2], q[3]);
  }

  lemma {:induction false} Sextets(n: nat)
    requires n < 16777216
    ensures n / 262144 < 64
    ensures Sextets4(n / 262144, n / 4096 % 64, n / 64 % 64, n % 64) == n
  {
    assert n == 64 * (n / 64) + n % 64;
    assert n / 64 == 64 * (n / 4096) + n / 64 % 64;
    assert n / 4096 == 64 * (n / 262144) + n / 4096 % 64;
  }

  lemma {:induction false} SextetsBack(w: sextet, x: sextet, y: sextet, z: sextet)
    ensures var n := Sextets4(w, x, y, z);
            n / 262144 == w && n / 4096 % 64 == x && n / 64 % 64 == y && n % 64 == z
  {
    var n := Sextets4(w, x, y, z);
    assert n / 64 == w * 4096 + x * 64 + y;
    assert n / 4096 == w * 64 + x;
  }

  lemma {:induction false} BytesBack(n: nat)
    requires n < 16777216
    ensures n / 65536 < 256 && Bytes3(n / 65536, n / 256 % 256, n % 256) == n
    ensures n % 65536 == 0 ==> n / 256 % 256 == 0 && n % 256 == 0
  {
    assert n == 256 * (n / 256) + n % 256;
    assert n / 256 == 256 * (n / 65536) + n / 256 % 256;
  }

  lemma {:induction false} ZeroTail(a: byte, b: byte, c: byte)
    ensures var n := Bytes3(a, b, c);
            && (c == 0 ==> n % 256 == 0 && n % 64 == 0)
            && (b == 0 && c == 0 ==> n % 65536 == 0 && n / 64 % 64 == 0)
  {
    var n := Bytes3(a, b, c);
    if c == 0 {
      Multiple(a * 256 + b, 256);
      Multiple(4 * (a * 256 + b), 64);
    }
    if b == 0 && c == 0 {
      Multiple(a, 65536);
      Multiple(1024 * a, 64);
      Multiple(16 * a, 64);
    }
  }

  lemma {:induction false} Multiple(k: nat, d: nat)
    requires d in {64, 256, 65536}
    ensures k * d % d == 0 && k * d / d == k
  {
  }

  lemma {:induction false} BytesOut(a: byte, b: byte, c: byte)
    ensures var n := Bytes3(a, b, c);
            n / 65536 == a && n / 256 % 256 == b && n % 256 == c
  {
    assert Bytes3(a, b, c) / 256 == a * 256 + b;
  }

  lemma {:induction false} DecodeEncode(bytes: seq<byte>)
    ensures Decode(Encode(bytes)) == Some(bytes)
  {
    if bytes != [] {
      var first := if |bytes| <= 3 then bytes else bytes[..3];
      GroupSurvives(first);
      var text := Encode(bytes);
      assert text[..4] == Group(first);
      if |bytes| <= 3 {
        assert text[4..] == [];
        assert bytes + [] == bytes;
      } else {
        assert text[4..] == Encode(bytes[3..]);
        DecodeEncode(bytes[3..]);
        assert bytes == bytes[..3] + bytes[3..];
      }
    }
  }

  /** No two texts decode to the same bytes: what decodes is what the encoder
      writes. */
  lemma {:induction false} EncodeDecode(text: seq<int>)
    requires Decode(text).Some?
    ensures Encode(Decode(text).value) == text
    decreases |text|
  {
    if text != [] {
      var first, rest := Ungroup(text[..4]).value, Decode(text[4..]).value;
      GroupOf(text[..4]);
      EncodeDecode(text[4..]);
      if |text| == 4 {
        assert first + rest == first;
      } else {
        assert |first| == 3 && rest != [];
        assert (first + rest)[..3] == first && (first + rest)[3..] == rest;
      }
      assert text == text[..4] + text[4..];
    }
  }

  lemma {:induction false} GroupOf(symbols: seq<int>)
    requires |symbols| == 4 && Ungroup(symbols).Some?
    ensures Group(Ungroup(symbols).value) == symbols
    ensures Pads(symbols) == 3 - |Ungroup(symbols).value|
  {
    PadsOf(symbols[0], symbols[1], symbols[2], symbols[3]);
    assert symbols == [symbols[0], symbols[1], symbols[2], symbols[3]];
    forall i | 0 <= i < 4 ensures ValueOf(symbols[i]).Some? ==> Symbol(ValueOf(symbols[i]).value) == symbols[i] {
      SymbolsAreDistinct(0, symbols[i]);
    }
    var pad := Pads(symbols);
    var w, x := ValueOf(symbols[0]).value, ValueOf(symbols[1]).value;
    var y := if pad == 2 then 0 else ValueOf(symbols[2]).value;
    var z := if pad >= 1 then 0 else ValueOf(symbols[3]).value;
    SextetsBack(w, x, y, z);
    BytesBack(Sextets4(w, x, y, z));
    assert Spelled(w, x, y, z, 3 - pad) == symbols;
  }

  method EncodeBytes(bytes: seq<byte>) returns (text: seq<int>)
    ensures text == Encode(bytes)
  {
    text := [];
    var todo := bytes;
    assert [] + Encode(bytes) == Encode(bytes);
    while todo != []
      invariant text + Encode(todo) == Encode(bytes)
      decreases |todo|
    {
      var length := if |todo| < 3 then |todo| else 3;
      assert |todo| <= 3 ==> todo[..length] == todo;
      Glue(text, Group(todo[..length]), Encode(todo[length..]));
      text := text + Group(todo[..length]);
      todo := todo[length..];
    }
  }

  method DecodeText(text: seq<int>) returns (bytes: Option<seq<byte>>)
    ensures bytes == Decode(text)
  {
    if |text| % 4 != 0 {
      NotInFours(text);
      return None;
    }
    var done: seq<byte> := [];
    var todo := text;
    var left := |text| / 4;
    Joined([], [], Decode(text));
    while left > 0
      invariant |todo| == 4 * left
      invariant Decode(text) == Join(done, Decode(todo))
    {
      DecodeStep(done, todo);
      var group := Ungroup(todo[..4]);
      if group.None? || (Pads(todo[..4]) > 0 && left > 1) {
        return None;
      }
      done, todo, left := done + group.value, todo[4..], left - 1;
    }
    assert done + [] == done;
    return Some(done);
  }

  lemma {:induction false} DecodeStep(done: seq<byte>, todo: seq<int>)
    requires |todo| >= 4
    ensures Join(done, Decode(todo))
         == if Ungroup(todo[..4]).None? || (Pads(todo[..4]) > 0 && |todo| > 4) then None
            else Join(done + Ungroup(todo[..4]).value, Decode(todo[4..]))
  {
    var group := Ungroup(todo[..4]);
    if group.Some? {
      Joined(done, group.value, Decode(todo[4..]));
    }
  }

  function Join(done: seq<byte>, rest: Option<seq<byte>>): Option<seq<byte>> {
    if rest.None? then None else Some(done + rest.value)
  }

  lemma {:induction false} Joined(a: seq<byte>, b: seq<byte>, rest: Option<seq<byte>>)
    ensures Join([], rest) == rest && Join(a, Join(b, rest)) == Join(a + b, rest)
  {
    if rest.Some? {
      assert [] + rest.value == rest.value && a + (b + rest.value) == a + b + rest.value;
    }
  }

  lemma {:induction false} NotInFours(text: seq<int>)
    requires |text| % 4 != 0
    ensures Decode(text) == None
  {
    if |text| > 4 {
      NotInFours(text[4..]);
    }
  }

  lemma {:induction false} DecodedInFours(text: seq<int>) returns (quads: nat)
    requires Decode(text).Some?
    ensures |text| == 4 * quads
    decreases |text|
  {
    if text == [] {
      return 0;
    }
    var more := DecodedInFours(text[4..]);
    return more + 1;
  }
}
