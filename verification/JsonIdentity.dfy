/**
  The text a JSON value is identified by: its fields in key order and its strings
  quoted, so that two values have one text exactly when they print alike.
 */
module JsonIdentity {
  import opened Wrappers
  import Octets

  /** Text as UTF-16 code units, which is what a string of the language is. */
  type Text = seq<int>

  /** A JSON value as it is parsed. A number is what it prints as, unless it is too
      large for one and becomes an infinity; an object is the values of its fields,
      in no order. */
  datatype Json = Null | Bool(b: bool) | Num(digits: Text) | Infinite(negative: bool) | Str(s: Text)
                | Arr(items: seq<Json>) | Obj(fields: map<Text, Json>)

  predicate IsNumberChar(c: int) {
    48 <= c <= 57 || c == 43 || c == 45 || c == 46 || c == 69 || c == 101
  }

  /** Digits, a sign, a point, an exponent; at least one, a digit or `-` first. */
  predicate IsNumber(digits: Text) {
    && digits != [] && (48 <= digits[0] <= 57 || digits[0] == 45)
    && forall i | 0 <= i < |digits| :: IsNumberChar(digits[i])
  }

  predicate IsText(s: Text) {
    forall i | 0 <= i < |s| :: 0 <= s[i] < 0x10000
  }

  ghost predicate WellFormed(j: Json) {
    match j
    case Num(digits) => IsNumber(digits)
    case Str(s) => IsText(s)
    case Arr(items) => forall i | 0 <= i < |items| :: WellFormed(items[i])
    case Obj(fields) => forall key | key in fields :: IsText(key) && WellFormed(fields[key])
    case _ => true
  }

  /** A value with no infinity in it. */
  ghost predicate Finite(j: Json) {
    match j
    case Num(digits) => IsNumber(digits)
    case Infinite(_) => false
    case Str(s) => IsText(s)
    case Arr(items) => forall i | 0 <= i < |items| :: Finite(items[i])
    case Obj(fields) => forall key | key in fields :: IsText(key) && Finite(fields[key])
    case _ => true
  }

  // ---- strings

  const QUOTE: int := 34
  const BACKSLASH: int := 92
  const COMMA: int := 44
  const COLON: int := 58
  const CLOSE_ARRAY: int := 93
  const CLOSE_OBJECT: int := 125

  function Hex(n: int): int {
    if n < 10 then 48 + n else 87 + n
  }

  /** The letter of a two-character escape; zero for a character that has none. */
  function Letter(c: int): int {
    if c == 8 then 98 else if c == 9 then 116 else if c == 10 then 110 else if c == 12 then 102 else if c == 13 then 114
    else if c == QUOTE then QUOTE else if c == BACKSLASH then BACKSLASH else 0
  }

  predicate NeedsHex(c: int) {
    Letter(c) == 0 && (0 <= c < 32 || 0xd800 <= c < 0xe000)
  }

  function Escape(c: int): (e: Text)
    ensures e != []
  {
    if Letter(c) != 0 then [BACKSLASH, Letter(c)]
    else if NeedsHex(c) then [BACKSLASH, 117, Hex(c / 16 / 16 / 16), Hex(c / 16 / 16 % 16), Hex(c / 16 % 16), Hex(c % 16)]
    else [c]
  }

  /** Two units that are one character. */
  predicate IsPair(s: Text) {
    |s| > 1 && 0xd800 <= s[0] < 0xdc00 <= s[1] < 0xe000
  }

  /** The escaped characters and the closing quote: a surrogate is written as it is
      only beside its other half. */
  function Escaped(s: Text): (e: Text)
    ensures e != []
    decreases |s|
  {
    if s == [] then [QUOTE]
    else if IsPair(s) then [s[0], s[1]] + Escaped(s[2..])
    else Escape(s[0]) + Escaped(s[1..])
  }

  /** How many characters a text has. */
  function CodePoints(s: Text): nat
    decreases |s|
  {
    if s == [] then 0 else if IsPair(s) then 1 + CodePoints(s[2..]) else 1 + CodePoints(s[1..])
  }

  /** A text of so many characters, in UTF-16, has so many. */
  lemma {:induction false} CodePointsOfText(points: seq<int>)
    requires Octets.AreScalars(points)
    ensures CodePoints(Octets.TextUnits(points)) == |points|
  {
    if points != [] {
      CodePointsOfText(points[1..]);
      var units, rest := Octets.PointUnits(points[0]), Octets.TextUnits(points[1..]);
      assert Octets.IsScalar(points[0]);
      assert (units + rest)[|units|..] == rest;
      assert IsPair(units + rest) <==> |units| == 2;
    }
  }

  function Quoted(s: Text): Text {
    [QUOTE] + Escaped(s)
  }

  lemma {:induction false} HexApart(c: int, d: int)
    requires 0 <= c < 65536 && 0 <= d < 65536
    requires Hex(c / 16 / 16 / 16) == Hex(d / 16 / 16 / 16) && Hex(c / 16 / 16 % 16) == Hex(d / 16 / 16 % 16)
    requires Hex(c / 16 % 16) == Hex(d / 16 % 16) && Hex(c % 16) == Hex(d % 16)
    ensures c == d
  {
    HexDigits(c / 16 / 16 / 16, d / 16 / 16 / 16);
    SameNibble(c / 16 / 16, d / 16 / 16);
    SameNibble(c / 16, d / 16);
    SameNibble(c, d);
  }

  lemma {:induction false} HexDigits(n: int, m: int)
    requires Hex(n) == Hex(m) && 0 <= n < 16 && 0 <= m < 16
    ensures n == m
  {
  }

  lemma {:induction false} SameNibble(c: int, d: int)
    requires c / 16 == d / 16 && Hex(c % 16) == Hex(d % 16)
    ensures c == d
  {
    HexDigits(c % 16, d % 16);
  }

  lemma {:induction false} Tails(a: Text, x: Text, b: Text, y: Text)
    requires a + x == b + y && |a| == |b|
    ensures a == b && x == y
  {
    assert (a + x)[..|a|] == a && (b + y)[..|b|] == b;
    assert (a + x)[|a|..] == x && (b + y)[|b|..] == y;
  }

  lemma {:induction false} At(a: Text, x: Text, b: Text, y: Text, i: nat)
    requires a + x == b + y && i < |a| && i < |b|
    ensures a[i] == b[i]
  {
    assert (a + x)[i] == a[i] && (b + y)[i] == b[i];
  }

  /** One escape is never the beginning of another. */
  lemma {:induction false} EscapeApart(c: int, x: Text, d: int, y: Text)
    requires 0 <= c < 0x10000 && 0 <= d < 0x10000 && Escape(c) + x == Escape(d) + y
    ensures c == d && x == y
  {
    At(Escape(c), x, Escape(d), y, 0);
    if Escape(c)[0] == BACKSLASH {
      At(Escape(c), x, Escape(d), y, 1);
      SecondTells(c, d);
      Tails(Escape(c), x, Escape(d), y);
      if NeedsHex(c) {
        assert Escape(c)[2] == Escape(d)[2] && Escape(c)[3] == Escape(d)[3] && Escape(c)[4] == Escape(d)[4] && Escape(c)[5] == Escape(d)[5];
        HexApart(c, d);
      }
    } else {
      Tails(Escape(c), x, Escape(d), y);
    }
  }

  lemma {:induction false} SecondTells(c: int, d: int)
    requires Escape(c)[0] == BACKSLASH && Escape(d)[0] == BACKSLASH && Escape(c)[1] == Escape(d)[1]
    ensures |Escape(c)| == |Escape(d)| && (Letter(c) != 0 ==> c == d) && (NeedsHex(c) <==> NeedsHex(d))
  {
  }

  lemma {:induction false} EscapedApart(s: Text, x: Text, t: Text, y: Text)
    requires IsText(s) && IsText(t) && Escaped(s) + x == Escaped(t) + y
    ensures s == t && x == y
    decreases |s|
  {
    At(Escaped(s), x, Escaped(t), y, 0);
    FirstOfEscaped(s);
    FirstOfEscaped(t);
    if s == [] {
      Tails([QUOTE], x, [QUOTE], y);
    } else if IsPair(s) {
      var a, b := [s[0], s[1]], [t[0], t[1]];
      Glue(a, Escaped(s[2..]), x);
      Glue(b, Escaped(t[2..]), y);
      Tails(a, Escaped(s[2..]) + x, b, Escaped(t[2..]) + y);
      EscapedApart(s[2..], x, t[2..], y);
      assert a[0] == b[0] && a[1] == b[1];
      assert s == a + s[2..] && t == b + t[2..];
    } else {
      Glue(Escape(s[0]), Escaped(s[1..]), x);
      Glue(Escape(t[0]), Escaped(t[1..]), y);
      EscapeApart(s[0], Escaped(s[1..]) + x, t[0], Escaped(t[1..]) + y);
      EscapedApart(s[1..], x, t[1..], y);
      assert s == [s[0]] + s[1..] && t == [t[0]] + t[1..];
    }
  }

  /** The first unit tells the end, a pair, and anything else apart. */
  lemma {:induction false} FirstOfEscaped(s: Text)
    ensures Escaped(s)[0] == QUOTE <==> s == []
    ensures 0xd800 <= Escaped(s)[0] < 0xe000 <==> IsPair(s)
  {
    if s != [] && !IsPair(s) {
      assert Escaped(s)[0] == Escape(s[0])[0];
    }
  }

  lemma {:induction false} QuotedApart(s: Text, x: Text, t: Text, y: Text)
    requires IsText(s) && IsText(t) && Quoted(s) + x == Quoted(t) + y
    ensures s == t && x == y
  {
    Glue([QUOTE], Escaped(s), x);
    Glue([QUOTE], Escaped(t), y);
    Tails([QUOTE], Escaped(s) + x, [QUOTE], Escaped(t) + y);
    EscapedApart(s, x, t, y);
  }

  // ---- the order of keys

  predicate Lower(a: Text, b: Text) {
    b != [] && (a == [] || a[0] < b[0] || (a[0] == b[0] && Lower(a[1..], b[1..])))
  }

  lemma {:induction false} Comparable(a: Text, b: Text)
    ensures Lower(a, b) || a == b || Lower(b, a)
  {
    if a != [] && b != [] && a[0] == b[0] {
      Comparable(a[1..], b[1..]);
      assert a == [a[0]] + a[1..] && b == [b[0]] + b[1..];
    }
  }

  lemma {:induction false} LowerTransitive(a: Text, b: Text, c: Text)
    requires Lower(a, b) && Lower(b, c)
    ensures Lower(a, c)
  {
    if a != [] && a[0] == b[0] && b[0] == c[0] {
      LowerTransitive(a[1..], b[1..], c[1..]);
    }
  }

  ghost predicate IsLeast(key: Text, keys: set<Text>) {
    key in keys && forall other | other in keys :: other == key || Lower(key, other)
  }

  lemma {:induction false} LeastExists(keys: set<Text>)
    requires keys != {}
    ensures exists least :: IsLeast(least, keys)
    decreases |keys|
  {
    var key :| key in keys;
    var rest := keys - {key};
    if rest == {} {
      assert keys == {key};
      assert IsLeast(key, keys);
    } else {
      LeastExists(rest);
      var other :| IsLeast(other, rest);
      Comparable(key, other);
      var least := if Lower(key, other) then key else other;
      forall x | x in keys ensures x == least || Lower(least, x) {
        if x != key && x != other && least == key {
          LowerTransitive(key, other, x);
        }
      }
      assert IsLeast(least, keys);
    }
  }

  ghost function Least(keys: set<Text>): (least: Text)
    requires keys != {}
    ensures IsLeast(least, keys)
  {
    LeastExists(keys);
    var key :| IsLeast(key, keys);
    key
  }

  /** The keys from the lowest up. */
  ghost function InOrder(keys: set<Text>): (order: seq<Text>)
    ensures forall key :: key in order <==> key in keys
    decreases |keys|
  {
    if keys == {} then [] else [Least(keys)] + InOrder(keys - {Least(keys)})
  }

  /** Each key is lower than the next, so none comes twice. */
  lemma {:induction false} KeysAscend(keys: set<Text>, i: nat, j: nat)
    requires i < j < |InOrder(keys)|
    ensures Lower(InOrder(keys)[i], InOrder(keys)[j])
    decreases |keys|
  {
    var least := Least(keys);
    var rest := InOrder(keys - {least});
    assert InOrder(keys)[j] == rest[j - 1];
    if i == 0 {
      assert rest[j - 1] in rest;
    } else {
      KeysAscend(keys - {least}, i - 1, j - 1);
    }
  }

  // ---- values

  /** The text of a value. */
  ghost function Identity(j: Json): Text
    decreases j, 1, 0
  {
    match j
    case Null => [110, 117, 108, 108]
    case Bool(b) => if b then [116, 114, 117, 101] else [102, 97, 108, 115, 101]
    case Num(digits) => digits
    case Infinite(_) => [110, 117, 108, 108]
    case Str(s) => Quoted(s)
    case Arr(items) => [91] + (if items == [] then [CLOSE_ARRAY] else ItemsFrom(j, 0))
    case Obj(fields) => [123] + (if fields == map[] then [CLOSE_OBJECT] else FieldsFrom(j, InOrder(fields.Keys)))
  }

  /** The items from the `i`th on, and the end of the list. */
  ghost function ItemsFrom(j: Json, i: nat): Text
    requires j.Arr? && i < |j.items|
    decreases j, 0, |j.items| - i
  {
    Identity(j.items[i]) + if i + 1 == |j.items| then [CLOSE_ARRAY] else [COMMA] + ItemsFrom(j, i + 1)
  }

  /** The fields of `keys`, and the end of the object. */
  ghost function FieldsFrom(j: Json, keys: seq<Text>): Text
    requires j.Obj? && keys != [] && forall key | key in keys :: key in j.fields
    decreases j, 0, |keys|, 0
  {
    Quoted(keys[0]) + ([COLON] + (Identity(j.fields[keys[0]]) + AfterField(j, keys[1..])))
  }

  ghost function AfterField(j: Json, keys: seq<Text>): Text
    requires j.Obj? && forall key | key in keys :: key in j.fields
    decreases j, 0, |keys|, 1
  {
    if keys == [] then [CLOSE_OBJECT] else [COMMA] + FieldsFrom(j, keys)
  }

  /** What may follow a value. */
  predicate Ends(x: Text) {
    x == [] || x[0] == COMMA || x[0] == CLOSE_ARRAY || x[0] == CLOSE_OBJECT
  }

  /** What kind of value a text begins. */
  function Begins(c: int): nat {
    if c == 110 then 0 else if c == 116 || c == 102 then 1 else if 48 <= c <= 57 || c == 45 then 2
    else if c == QUOTE then 3 else if c == 91 then 4 else if c == 123 then 5 else 6
  }

  function KindOf(j: Json): nat {
    match j
    case Null => 0
    case Bool(_) => 1
    case Num(_) => 2
    case Infinite(_) => 0
    case Str(_) => 3
    case Arr(_) => 4
    case Obj(_) => 5
  }

  lemma {:induction false} FirstTells(j: Json)
    requires Finite(j)
    ensures Identity(j) != [] && Begins(Identity(j)[0]) == KindOf(j)
  {
  }

  lemma {:induction false} NumberEnds(a: Text, x: Text, b: Text, y: Text)
    requires IsNumber(a) && IsNumber(b) && Ends(x) && Ends(y) && a + x == b + y
    ensures a == b && x == y
  {
    NoLonger(a, x, b, y);
    NoLonger(b, y, a, x);
    Tails(a, x, b, y);
  }

  lemma {:induction false} NoLonger(a: Text, x: Text, b: Text, y: Text)
    requires IsNumber(b) && Ends(x) && a + x == b + y
    ensures |b| <= |a|
  {
    assert forall i | 0 <= i < |b| :: (a + x)[i] == b[i];
    assert x != [] ==> (a + x)[|a|] == x[0];
  }

  /** Texts of values, each followed by what may follow one, are equal only if the
      values are. */
  lemma {:induction false} IdentityApart(a: Json, x: Text, b: Json, y: Text)
    requires Finite(a) && Finite(b) && Ends(x) && Ends(y) && Identity(a) + x == Identity(b) + y
    ensures a == b && x == y
    decreases a, 1, 0
  {
    FirstTells(a);
    FirstTells(b);
    At(Identity(a), x, Identity(b), y, 0);
    match a
    case Null => Tails(Identity(a), x, Identity(b), y);
    case Bool(_) => BoolsApart(a, x, b, y);
    case Num(digits) => NumberEnds(digits, x, b.digits, y);
    case Str(s) => QuotedApart(s, x, b.s, y);
    case Arr(_) => ArraysApart(a, x, b, y);
    case Obj(_) => ObjectsApart(a, x, b, y);
  }

  lemma {:induction false} BoolsApart(a: Json, x: Text, b: Json, y: Text)
    requires a.Bool? && b.Bool? && Identity(a) + x == Identity(b) + y
    ensures a == b && x == y
  {
    At(Identity(a), x, Identity(b), y, 0);
    Tails(Identity(a), x, Identity(b), y);
  }

  lemma {:induction false} ArraysApart(a: Json, x: Text, b: Json, y: Text)
    requires a.Arr? && b.Arr? && Finite(a) && Finite(b) && Identity(a) + x == Identity(b) + y
    ensures a == b && x == y
    decreases a, 0, |a.items| + 1
  {
    var p := if a.items == [] then [CLOSE_ARRAY] else ItemsFrom(a, 0);
    var q := if b.items == [] then [CLOSE_ARRAY] else ItemsFrom(b, 0);
    Glue([91], p, x);
    Glue([91], q, y);
    Tails([91], p + x, [91], q + y);
    FirstOfItems(a);
    FirstOfItems(b);
    At(p, x, q, y, 0);
    if a.items == [] {
      Tails(p, x, q, y);
    } else {
      ItemsApart(a, x, b, y, 0);
      assert a.items[0..] == a.items && b.items[0..] == b.items;
    }
  }

  lemma {:induction false} FirstOfItems(a: Json)
    requires a.Arr? && Finite(a)
    ensures a.items != [] ==> ItemsFrom(a, 0) != [] && ItemsFrom(a, 0)[0] != CLOSE_ARRAY
  {
    if a.items != [] {
      FirstTells(a.items[0]);
    }
  }

  /** What follows the `i`th item. */
  ghost function AfterItem(a: Json, i: nat): Text
    requires a.Arr? && i < |a.items|
  {
    if i + 1 == |a.items| then [CLOSE_ARRAY] else [COMMA] + ItemsFrom(a, i + 1)
  }

  lemma {:induction false} ItemsApart(a: Json, x: Text, b: Json, y: Text, i: nat)
    requires a.Arr? && b.Arr? && Finite(a) && Finite(b) && i < |a.items| && i < |b.items|
    requires ItemsFrom(a, i) + x == ItemsFrom(b, i) + y
    ensures a.items[i..] == b.items[i..] && x == y
    decreases a, 0, |a.items| - i
  {
    var p, q := AfterItem(a, i), AfterItem(b, i);
    Glue(Identity(a.items[i]), p, x);
    Glue(Identity(b.items[i]), q, y);
    IdentityApart(a.items[i], p + x, b.items[i], q + y);
    At(p, x, q, y, 0);
    if i + 1 == |a.items| {
      Tails(p, x, q, y);
      FirstItem(a.items, i);
      FirstItem(b.items, i);
    } else {
      Glue([COMMA], ItemsFrom(a, i + 1), x);
      Glue([COMMA], ItemsFrom(b, i + 1), y);
      Tails([COMMA], ItemsFrom(a, i + 1) + x, [COMMA], ItemsFrom(b, i + 1) + y);
      ItemsApart(a, x, b, y, i + 1);
      FirstItem(a.items, i);
      FirstItem(b.items, i);
    }
  }

  lemma {:induction false} FirstItem(items: seq<Json>, i: nat)
    requires i < |items|
    ensures items[i..] == [items[i]] + items[i + 1..] && (i + 1 == |items| ==> items[i..] == [items[i]])
  {
  }

  lemma {:induction false} ObjectsApart(a: Json, x: Text, b: Json, y: Text)
    requires a.Obj? && b.Obj? && Finite(a) && Finite(b) && Identity(a) + x == Identity(b) + y
    ensures a == b && x == y
    decreases a, 0, |InOrder(a.fields.Keys)| + 1
  {
    var keys, others := InOrder(a.fields.Keys), InOrder(b.fields.Keys);
    EmptyInOrder(a.fields);
    EmptyInOrder(b.fields);
    Glue([123], AllFields(a, keys), x);
    Glue([123], AllFields(b, others), y);
    Tails([123], AllFields(a, keys) + x, [123], AllFields(b, others) + y);
    FieldsApart(a, keys, x, b, others, y);
    SameFields(a.fields, b.fields);
  }

  lemma {:induction false} EmptyInOrder(fields: map<Text, Json>)
    ensures fields == map[] <==> InOrder(fields.Keys) == []
  {
    if fields != map[] {
      var key :| key in fields;
      assert key in InOrder(fields.Keys);
    }
  }

  /** The fields of `keys` to the end of the object. */
  ghost function AllFields(j: Json, keys: seq<Text>): Text
    requires j.Obj? && forall key | key in keys :: key in j.fields
  {
    if keys == [] then [CLOSE_OBJECT] else FieldsFrom(j, keys)
  }

  lemma {:induction false} SameFields(a: map<Text, Json>, b: map<Text, Json>)
    requires InOrder(a.Keys) == InOrder(b.Keys) && forall key | key in InOrder(a.Keys) :: a[key] == b[key]
    ensures a == b
  {
    assert forall key :: key in a <==> key in b;
  }

  lemma {:induction false} FieldsApart(a: Json, keys: seq<Text>, x: Text, b: Json, others: seq<Text>, y: Text)
    requires a.Obj? && b.Obj? && Finite(a) && Finite(b)
    requires (forall key | key in keys :: key in a.fields) && forall key | key in others :: key in b.fields
    requires AllFields(a, keys) + x == AllFields(b, others) + y
    ensures keys == others && x == y && forall key | key in keys :: a.fields[key] == b.fields[key]
    decreases a, 0, |keys|
  {
    At(AllFields(a, keys), x, AllFields(b, others), y, 0);
    if keys == [] {
      Tails([CLOSE_OBJECT], x, [CLOSE_OBJECT], y);
    } else {
      FieldApart(a, keys, x, b, others, y);
      FieldsApart(a, keys[1..], x, b, others[1..], y);
      assert keys == [keys[0]] + keys[1..] && others == [others[0]] + others[1..];
    }
  }

  lemma {:induction false} FieldApart(a: Json, keys: seq<Text>, x: Text, b: Json, others: seq<Text>, y: Text)
    requires a.Obj? && b.Obj? && Finite(a) && Finite(b) && keys != [] && others != []
    requires (forall key | key in keys :: key in a.fields) && forall key | key in others :: key in b.fields
    requires FieldsFrom(a, keys) + x == FieldsFrom(b, others) + y
    ensures keys[0] == others[0] && a.fields[keys[0]] == b.fields[others[0]]
    ensures AllFields(a, keys[1..]) + x == AllFields(b, others[1..]) + y
    decreases a, 0, |keys|, 0
  {
    var v, w := Identity(a.fields[keys[0]]), Identity(b.fields[others[0]]);
    var p, q := AfterField(a, keys[1..]), AfterField(b, others[1..]);
    FieldText(Quoted(keys[0]), v, p, x);
    FieldText(Quoted(others[0]), w, q, y);
    QuotedApart(keys[0], [COLON] + (v + (p + x)), others[0], [COLON] + (w + (q + y)));
    Tails([COLON], v + (p + x), [COLON], w + (q + y));
    IdentityApart(a.fields[keys[0]], p + x, b.fields[others[0]], q + y);
    NextField(a, keys[1..], x, b, others[1..], y);
  }

  lemma {:induction false} FieldText(key: Text, v: Text, p: Text, x: Text)
    ensures key + ([COLON] + (v + p)) + x == key + ([COLON] + (v + (p + x)))
  {
    Glue(key, [COLON] + (v + p), x);
    Glue([COLON], v + p, x);
    Glue(v, p, x);
  }

  lemma {:induction false} NextField(a: Json, keys: seq<Text>, x: Text, b: Json, others: seq<Text>, y: Text)
    requires a.Obj? && b.Obj? && (forall key | key in keys :: key in a.fields) && forall key | key in others :: key in b.fields
    requires AfterField(a, keys) + x == AfterField(b, others) + y
    ensures AllFields(a, keys) + x == AllFields(b, others) + y
  {
    At(AfterField(a, keys), x, AfterField(b, others), y, 0);
    if keys != [] {
      Glue([COMMA], FieldsFrom(a, keys), x);
      Glue([COMMA], FieldsFrom(b, others), y);
      Tails([COMMA], FieldsFrom(a, keys) + x, [COMMA], FieldsFrom(b, others) + y);
    }
  }

  // ---- what prints alike

  /** The value its text is the text of: an infinity prints as null. */
  ghost function Printed(j: Json): Json {
    match j
    case Infinite(_) => Null
    case Arr(items) => Arr(seq(|items|, i requires 0 <= i < |items| => Printed(items[i])))
    case Obj(fields) => Obj(map key | key in fields :: Printed(fields[key]))
    case _ => j
  }

  lemma {:induction false} PrintedIsFinite(j: Json)
    requires WellFormed(j)
    ensures Finite(Printed(j))
  {
    match j
    case Arr(items) =>
      forall i | 0 <= i < |items| ensures Finite(Printed(items[i])) {
        PrintedIsFinite(items[i]);
      }
    case Obj(fields) =>
      forall key | key in fields ensures IsText(key) && Finite(Printed(fields[key])) {
        PrintedIsFinite(fields[key]);
      }
    case _ =>
  }

  lemma {:induction false} FinitePrintsAsItself(j: Json)
    requires Finite(j)
    ensures Printed(j) == j
  {
    match j
    case Arr(items) =>
      forall i | 0 <= i < |items| ensures Printed(items[i]) == items[i] {
        FinitePrintsAsItself(items[i]);
      }
      assert Printed(j).items == items;
    case Obj(fields) =>
      forall key | key in fields ensures Printed(fields[key]) == fields[key] {
        FinitePrintsAsItself(fields[key]);
      }
      assert Printed(j).fields == fields;
    case _ =>
  }

  lemma {:induction false} PrintsAlike(j: Json)
    ensures Identity(Printed(j)) == Identity(j)
    decreases j, 1, 0
  {
    match j
    case Arr(items) =>
      if items != [] {
        ItemsPrintAlike(j, 0);
      }
    case Obj(fields) =>
      assert Printed(j).fields.Keys == fields.Keys;
      EmptyInOrder(fields);
      EmptyInOrder(Printed(j).fields);
      if fields != map[] {
        FieldsPrintAlike(j, InOrder(fields.Keys));
      }
    case _ =>
  }

  lemma {:induction false} ItemsPrintAlike(j: Json, i: nat)
    requires j.Arr? && i < |j.items|
    ensures ItemsFrom(Printed(j), i) == ItemsFrom(j, i)
    decreases j, 0, |j.items| - i
  {
    PrintsAlike(j.items[i]);
    if i + 1 < |j.items| {
      ItemsPrintAlike(j, i + 1);
    }
  }

  lemma {:induction false} FieldsPrintAlike(j: Json, keys: seq<Text>)
    requires j.Obj? && keys != [] && forall key | key in keys :: key in j.fields
    ensures FieldsFrom(Printed(j), keys) == FieldsFrom(j, keys)
    decreases j, 0, |keys|
  {
    PrintsAlike(j.fields[keys[0]]);
    if keys[1..] != [] {
      FieldsPrintAlike(j, keys[1..]);
    }
  }

  /** The text identifies what is printed: it is equal for values that print alike and
      for no others; so for values with no infinity, for equal ones alone. */
  lemma {:induction false} IdentityIsIdentity(a: Json, b: Json)
    requires WellFormed(a) && WellFormed(b)
    ensures Identity(a) == Identity(b) <==> Printed(a) == Printed(b)
    ensures Finite(a) && Finite(b) ==> (Identity(a) == Identity(b) <==> a == b)
  {
    PrintsAlike(a);
    PrintsAlike(b);
    if Identity(a) == Identity(b) {
      PrintedIsFinite(a);
      PrintedIsFinite(b);
      assert Identity(Printed(a)) + [] == Identity(Printed(b)) + [];
      IdentityApart(Printed(a), [], Printed(b), []);
    }
    if Finite(a) && Finite(b) {
      FinitePrintsAsItself(a);
      FinitePrintsAsItself(b);
    }
  }

  // ---- unique items

  function Texts(texts: seq<Text>): set<Text> {
    set t | t in texts
  }

  predicate AllDifferent<T(==)>(s: seq<T>) {
    forall i, j | 0 <= i < j < |s| :: s[i] != s[j]
  }

  /** As many different texts as texts: no two are equal. */
  lemma {:induction false} AsManyAs(texts: seq<Text>)
    ensures |Texts(texts)| <= |texts|
    ensures |Texts(texts)| == |texts| <==> AllDifferent(texts)
  {
    if texts != [] {
      var last, rest := texts[|texts| - 1], texts[..|texts| - 1];
      AsManyAs(rest);
      assert Texts(texts) == Texts(rest) + {last};
      if last in Texts(rest) {
        assert Texts(texts) == Texts(rest);
        var i :| 0 <= i < |rest| && rest[i] == last;
        assert texts[i] == texts[|texts| - 1];
      } else {
        assert AllDifferent(rest) ==> AllDifferent(texts);
        assert AllDifferent(texts) ==> AllDifferent(rest);
      }
    }
  }

  ghost function Identities(items: seq<Json>): (texts: seq<Text>)
    ensures |texts| == |items| && forall i | 0 <= i < |items| :: texts[i] == Identity(items[i])
  {
    seq(|items|, i requires 0 <= i < |items| => Identity(items[i]))
  }

  ghost function PrintedAll(items: seq<Json>): (printed: seq<Json>)
    ensures |printed| == |items| && forall i | 0 <= i < |items| :: printed[i] == Printed(items[i])
  {
    seq(|items|, i requires 0 <= i < |items| => Printed(items[i]))
  }

  /** The set-size test for unique items is exactly that no two print alike; for items
      with no infinity, that no two are equal. */
  lemma {:induction false} UniqueByIdentity(items: seq<Json>)
    requires forall i | 0 <= i < |items| :: WellFormed(items[i])
    ensures |Texts(Identities(items))| == |items| <==> AllDifferent(PrintedAll(items))
    ensures (forall i | 0 <= i < |items| :: Finite(items[i])) ==> (AllDifferent(PrintedAll(items)) <==> AllDifferent(items))
  {
    AsManyAs(Identities(items));
    forall i, j | 0 <= i < j < |items| ensures Identities(items)[i] != Identities(items)[j] <==> PrintedAll(items)[i] != PrintedAll(items)[j] {
      IdentityIsIdentity(items[i], items[j]);
    }
    if forall i | 0 <= i < |items| :: Finite(items[i]) {
      forall i | 0 <= i < |items| ensures PrintedAll(items)[i] == items[i] {
        FinitePrintsAsItself(items[i]);
      }
      assert PrintedAll(items) == items;
    }
  }
}
