/**
  The reader of API responses as it runs: it sorts keys, builds the text of a
  value, and builds what it read field by field.
 */
module ApiReader {
  import opened Wrappers
  import opened JsonIdentity
  import opened ApiSchema

  // ---- texts

  lemma {:induction false} LeastIsOne(key: Text, keys: set<Text>)
    requires keys != {} && IsLeast(key, keys)
    ensures Least(keys) == key
  {
    NotBoth(key, Least(keys));
  }

  lemma {:induction false} NotBoth(a: Text, b: Text)
    ensures !(Lower(a, b) && Lower(b, a))
  {
    if a != [] && b != [] && a[0] == b[0] {
      NotBoth(a[1..], b[1..]);
    }
  }

  method IsLower(a: Text, b: Text) returns (lower: bool)
    ensures lower == Lower(a, b)
  {
    var i := 0;
    assert a[0..] == a && b[0..] == b;
    while i < |a| && i < |b| && a[i] == b[i]
      invariant 0 <= i <= |a| && i <= |b| && Lower(a, b) == Lower(a[i..], b[i..])
    {
      assert a[i..][1..] == a[i + 1..] && b[i..][1..] == b[i + 1..];
      i := i + 1;
    }
    return i < |b| && (i == |a| || a[i] < b[i]);
  }

  method LeastKey(keys: set<Text>) returns (least: Text)
    requires keys != {}
    ensures least == Least(keys)
  {
    least :| least in keys;
    var todo := keys - {least};
    while todo != {}
      invariant todo <= keys && IsLeast(least, keys - todo)
    {
      var key :| key in todo;
      var lower := IsLower(key, least);
      Comparable(key, least);
      if lower {
        forall other | other in keys - todo ensures other == key || Lower(key, other) {
          if other != least {
            LowerTransitive(key, least, other);
          }
        }
        least := key;
      }
      todo := todo - {key};
    }
    assert keys - todo == keys;
    LeastIsOne(least, keys);
  }

  method SortedKeys(keys: set<Text>) returns (order: seq<Text>)
    ensures order == InOrder(keys)
  {
    order := [];
    var todo := keys;
    assert [] + InOrder(keys) == InOrder(keys);
    while todo != {}
      invariant order + InOrder(todo) == InOrder(keys)
    {
      var key := LeastKey(todo);
      assert order + ([key] + InOrder(todo - {key})) == order + [key] + InOrder(todo - {key});
      order := order + [key];
      todo := todo - {key};
    }
  }

  /** The text of a value. */
  method IdentityOf(j: Json) returns (text: Text)
    ensures text == Identity(j)
    decreases j, 1
  {
    match j {
      case Null => text := [110, 117, 108, 108];
      case Bool(b) => text := if b then [116, 114, 117, 101] else [102, 97, 108, 115, 101];
      case Num(digits) => text := digits;
      case Infinite(_) => text := [110, 117, 108, 108];
      case Str(s) => text := Quoted(s);
      case Arr(_) => text := TextOfItems(j);
      case Obj(_) => text := TextOfFields(j);
    }
  }

  method TextOfItems(j: Json) returns (text: Text)
    requires j.Arr?
    ensures text == Identity(j)
    decreases j, 0
  {
    if j.items == [] {
      return [91] + [CLOSE_ARRAY];
    }
    var i := |j.items| - 1;
    text := IdentityOf(j.items[i]);
    text := text + [CLOSE_ARRAY];
    while i > 0
      invariant 0 <= i < |j.items| && text == ItemsFrom(j, i)
    {
      var one := IdentityOf(j.items[i - 1]);
      text := one + ([COMMA] + text);
      i := i - 1;
    }
    text := [91] + text;
  }

  method TextOfFields(j: Json) returns (text: Text)
    requires j.Obj?
    ensures text == Identity(j)
    decreases j, 0
  {
    var keys := SortedKeys(j.fields.Keys);
    EmptyInOrder(j.fields);
    text := [CLOSE_OBJECT];
    var i := |keys|;
    while i > 0
      invariant 0 <= i <= |keys| && (forall key | key in keys[i..] :: key in j.fields)
      invariant text == if i < |keys| then FieldsFrom(j, keys[i..]) else [CLOSE_OBJECT]
    {
      i := i - 1;
      assert keys[i] in keys && keys[i..][0] == keys[i] && keys[i..][1..] == keys[i + 1..];
      assert forall key | key in keys[i..] :: key in keys;
      var value := IdentityOf(j.fields[keys[i]]);
      var after := if i + 1 == |keys| then text else [COMMA] + text;
      text := Quoted(keys[i]) + ([COLON] + (value + after));
    }
    assert keys[0..] == keys;
    text := [123] + text;
  }

  // ---- schemas

  method Validate(h: Host, s: Schema) returns (valid: bool)
    ensures valid == Valid(h, s)
    decreases s, 1
  {
    if !OwnRules(h, s) {
      return false;
    }
    if s.oneOf.OneOf? {
      for i := 0 to |s.oneOf.schemas|
        invariant forall k | 0 <= k < i :: Valid(h, s.oneOf.schemas[k])
      {
        var branch := Validate(h, s.oneOf.schemas[i]);
        if !branch {
          return false;
        }
      }
    }
    if TArray in TypesOf(s) {
      var items := Validate(h, s.items.value);
      if !items {
        return false;
      }
    }
    if TObject in TypesOf(s) {
      valid := ValidateFields(h, s);
      return;
    }
    return true;
  }

  method ValidateFields(h: Host, s: Schema) returns (valid: bool)
    ensures valid == ((s.properties.Named? ==> forall key | key in s.properties.schemas :: Valid(h, s.properties.schemas[key]))
                      && (s.additional.Each? ==> Valid(h, s.additional.schema)))
    decreases s, 0
  {
    if s.properties.Named? {
      var todo := s.properties.schemas.Keys;
      while todo != {}
        invariant todo <= s.properties.schemas.Keys
        invariant forall key | key in s.properties.schemas && key !in todo :: Valid(h, s.properties.schemas[key])
      {
        var key :| key in todo;
        var property := Validate(h, s.properties.schemas[key]);
        if !property {
          return false;
        }
        todo := todo - {key};
      }
    }
    if s.additional.Each? {
      valid := Validate(h, s.additional.schema);
      return;
    }
    return true;
  }

  // ---- reading

  /** Read `v`, or refuse it. */
  method Parse(h: Host, s: Schema, v: Json) returns (r: Option<Json>)
    ensures r == Parsed(h, s, v)
    decreases s, 1
  {
    var valid := Validate(h, s);
    if !valid || (s.constant.Some? && !Same(s.constant.value, v)) {
      return None;
    }
    if s.oneOf.OneOf? {
      var read := ParseBranches(h, s, v);
      return if |read| == 1 then Some(read[0]) else None;
    }
    if !Fits(h, s, v) {
      return None;
    }
    match v {
      case Arr(items) =>
        if s.uniqueItems == Some(true) {
          var unique := HaveUniqueTexts(items);
          if !unique {
            return None;
          }
        }
        var read := ParseItems(h, s, items);
        return if read.Some? then Some(Arr(read.value)) else None;
      case Obj(fields) =>
        r := ParseObject(h, s, fields);
      case _ =>
        return Some(v);
    }
  }

  /** What the branches read, of those that read it. */
  method ParseBranches(h: Host, s: Schema, v: Json) returns (read: seq<Json>)
    requires s.oneOf.OneOf?
    ensures read == ReadBy(h, s, 0, v)
    decreases s, 0
  {
    read := [];
    assert [] + ReadBy(h, s, 0, v) == ReadBy(h, s, 0, v);
    for i := 0 to |s.oneOf.schemas|
      invariant read + ReadBy(h, s, i, v) == ReadBy(h, s, 0, v)
    {
      NextBranch(h, s, i, v, read);
      var one := Parse(h, s.oneOf.schemas[i], v);
      if one.Some? {
        read := read + [one.value];
      }
    }
    assert read + [] == read;
  }

  lemma {:induction false} NextBranch(h: Host, s: Schema, i: nat, v: Json, read: seq<Json>)
    requires s.oneOf.OneOf? && i < |s.oneOf.schemas|
    ensures var one := Parsed(h, s.oneOf.schemas[i], v);
            read + ReadBy(h, s, i, v) == (if one.Some? then read + [one.value] else read) + ReadBy(h, s, i + 1, v)
  {
  }

  method HaveUniqueTexts(items: seq<Json>) returns (unique: bool)
    ensures unique == (|Texts(Identities(items))| == |items|)
  {
    var texts: set<Text> := {};
    ghost var all := Identities(items);
    for i := 0 to |items|
      invariant texts == Texts(all[..i])
    {
      var text := IdentityOf(items[i]);
      assert all[..i + 1] == all[..i] + [all[i]];
      texts := texts + {text};
    }
    assert all[..|items|] == all;
    return |texts| == |items|;
  }

  ghost function Prefixed(front: seq<Json>, rest: Option<seq<Json>>): Option<seq<Json>> {
    if rest.Some? then Some(front + rest.value) else None
  }

  method ParseItems(h: Host, s: Schema, items: seq<Json>) returns (read: Option<seq<Json>>)
    requires s.items.Some?
    ensures read == ItemsRead(h, s, items, 0)
    decreases s, 0
  {
    var parsed: seq<Json> := [];
    NothingBefore(ItemsRead(h, s, items, 0));
    for i := 0 to |items|
      invariant ItemsRead(h, s, items, 0) == Prefixed(parsed, ItemsRead(h, s, items, i))
    {
      var one := Parse(h, s.items.value, items[i]);
      if one.None? {
        return None;
      }
      OneBefore(parsed, one.value, ItemsRead(h, s, items, i + 1));
      parsed := parsed + [one.value];
    }
    assert parsed + [] == parsed;
    return Some(parsed);
  }

  lemma {:induction false} NothingBefore(rest: Option<seq<Json>>)
    ensures Prefixed([], rest) == rest
  {
    if rest.Some? {
      assert [] + rest.value == rest.value;
    }
  }

  lemma {:induction false} OneBefore(front: seq<Json>, one: Json, rest: Option<seq<Json>>)
    ensures Prefixed(front, Prefixed([one], rest)) == Prefixed(front + [one], rest)
  {
    if rest.Some? {
      assert front + ([one] + rest.value) == front + [one] + rest.value;
    }
  }

  /** The fields of `done` as they are read, and no other. */
  ghost predicate ReadSoFar(h: Host, s: Schema, fields: map<Text, Json>, parsed: map<Text, Json>, done: set<Text>) {
    && parsed.Keys == fields.Keys * done
    && forall key | key in parsed :: FieldRead(h, s, key, fields[key]) == Some(parsed[key])
  }

  /** Read one field, if the value has it. */
  method ParseField(h: Host, s: Schema, fields: map<Text, Json>, key: Text, so: map<Text, Json>, ghost done: set<Text>)
    returns (parsed: map<Text, Json>, ok: bool)
    requires ReadSoFar(h, s, fields, so, done)
    requires key in Properties(s) || s.additional.Each?
    ensures ok ==> ReadSoFar(h, s, fields, parsed, done + {key})
    ensures ok <==> (key in fields ==> FieldRead(h, s, key, fields[key]).Some?)
    decreases s, 0, 0
  {
    parsed := so;
    if key !in fields {
      return so, true;
    }
    var schema := if s.properties.Named? && key in s.properties.schemas then s.properties.schemas[key] else s.additional.schema;
    var one := Parse(h, schema, fields[key]);
    if one.None? {
      return so, false;
    }
    return so[key := one.value], true;
  }

  /** The fields the schema names, then the rest. */
  method ParseObject(h: Host, s: Schema, fields: map<Text, Json>) returns (r: Option<Json>)
    requires s.additional.Forbidden? ==> forall key | key in fields :: key in Properties(s)
    requires !s.additional.Unsaid?
    ensures r == ObjectRead(h, s, fields)
    decreases s, 0, 1
  {
    var parsed: map<Text, Json> := map[];
    var names, rest := Properties(s).Keys, fields.Keys - Properties(s).Keys;
    ghost var done: set<Text> := {};
    while names != {}
      invariant names <= Properties(s).Keys && done == Properties(s).Keys - names
      invariant ReadSoFar(h, s, fields, parsed, done)
    {
      var key :| key in names;
      var ok;
      parsed, ok := ParseField(h, s, fields, key, parsed, done);
      if !ok {
        return None;
      }
      names, done := names - {key}, done + {key};
    }
    if s.additional.Each? {
      while rest != {}
        invariant rest <= fields.Keys && done == Properties(s).Keys + (fields.Keys - Properties(s).Keys - rest)
        invariant ReadSoFar(h, s, fields, parsed, done)
      {
        var key :| key in rest;
        var ok;
        parsed, ok := ParseField(h, s, fields, key, parsed, done);
        if !ok {
          return None;
        }
        rest, done := rest - {key}, done + {key};
      }
    }
    AllRead(h, s, fields, parsed, done);
    return Some(Obj(parsed));
  }

  ghost function ObjectRead(h: Host, s: Schema, fields: map<Text, Json>): Option<Json> {
    if forall key | key in fields :: FieldRead(h, s, key, fields[key]).Some?
    then Some(Obj(map key | key in fields :: FieldRead(h, s, key, fields[key]).value)) else None
  }

  lemma {:induction false} AllRead(h: Host, s: Schema, fields: map<Text, Json>, parsed: map<Text, Json>, done: set<Text>)
    requires ReadSoFar(h, s, fields, parsed, done) && fields.Keys <= done
    ensures ObjectRead(h, s, fields) == Some(Obj(parsed))
  {
    assert parsed.Keys == fields.Keys;
    assert parsed == map key | key in fields :: FieldRead(h, s, key, fields[key]).value;
  }
}
