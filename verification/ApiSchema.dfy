/**
  Reading an API response against its schema: the value comes back as it is, or
  the response is refused.
 */
module ApiSchema {
  import opened Wrappers
  import opened JsonIdentity

  datatype Type = TNull | TArray | TObject | TString | TBoolean | TInteger | TNumber

  /** What a schema says of fields it does not name. */
  datatype Additional = Unsaid | Forbidden | Each(schema: Schema)

  /** The schemas exactly one of which must read the value, if there are any. */
  datatype Branches = NoBranches | OneOf(schemas: seq<Schema>)

  /** The schemas of the fields a schema names, if it names any. */
  datatype Fields = NoFields | Named(schemas: map<Text, Schema>)

  datatype Schema = Schema(
    types: Option<seq<Type>>,
    oneOf: Branches,
    constant: Option<Json>,
    enumeration: Option<seq<Json>>,
    minLength: Option<nat>, maxLength: Option<nat>, pattern: Option<Text>,
    minimum: Option<real>, maximum: Option<real>,
    items: Option<Schema>, minItems: Option<nat>, maxItems: Option<nat>, uniqueItems: Option<bool>,
    properties: Fields, required: Option<seq<Text>>, additional: Additional)

  /** What the language says of numbers and patterns. */
  datatype Host = Host(value: Text -> real, integer: Text -> bool, compiles: Text -> bool, matches: (Text, Text) -> bool)

  function TypesOf(s: Schema): seq<Type> {
    if s.types.Some? then s.types.value else []
  }

  function Properties(s: Schema): map<Text, Schema> {
    if s.properties.Named? then s.properties.schemas else map[]
  }

  function Required(s: Schema): seq<Text> {
    if s.required.Some? then s.required.value else []
  }

  // ---- schemas that can be used

  predicate InBounds(low: Option<nat>, high: Option<nat>) {
    low.Some? && high.Some? ==> low.value <= high.value
  }

  /** A keyword stands only beside a type it is about. */
  predicate KeywordsBelong(s: Schema) {
    && (s.minLength.Some? || s.maxLength.Some? || s.pattern.Some? ==> TString in TypesOf(s))
    && (s.minimum.Some? || s.maximum.Some? ==> TInteger in TypesOf(s) || TNumber in TypesOf(s))
    && (s.items.Some? || s.minItems.Some? || s.maxItems.Some? || s.uniqueItems.Some? ==> TArray in TypesOf(s))
    && (s.properties.Named? || s.required.Some? || !s.additional.Unsaid? ==> TObject in TypesOf(s))
  }

  /** What an object schema must say. */
  predicate IsObjectSchema(s: Schema) {
    && !s.additional.Unsaid?
    && AllDifferent(Required(s))
    && forall i | 0 <= i < |Required(s)| :: Required(s)[i] in Properties(s)
  }

  predicate OwnRules(h: Host, s: Schema) {
    && (s.types.Some? ==> s.types.value != [] && AllDifferent(s.types.value))
    && (TypesOf(s) == [] ==> s.oneOf.OneOf? || s.constant.Some? || s.enumeration.Some?)
    && (s.enumeration.Some? ==> s.enumeration.value != [])
    && (s.oneOf.OneOf? ==> s.oneOf.schemas != [])
    && KeywordsBelong(s)
    && InBounds(s.minLength, s.maxLength) && InBounds(s.minItems, s.maxItems)
    && (s.minimum.Some? && s.maximum.Some? ==> s.minimum.value <= s.maximum.value)
    && (s.pattern.Some? ==> h.compiles(s.pattern.value))
    && (TArray in TypesOf(s) ==> s.items.Some?)
    && (TObject in TypesOf(s) ==> IsObjectSchema(s))
  }

  /** A schema and every schema in it keep the rules. */
  ghost predicate Valid(h: Host, s: Schema) {
    && OwnRules(h, s)
    && (s.oneOf.OneOf? ==> forall i | 0 <= i < |s.oneOf.schemas| :: Valid(h, s.oneOf.schemas[i]))
    && (TArray in TypesOf(s) ==> Valid(h, s.items.value))
    && (TObject in TypesOf(s) && s.properties.Named? ==> forall key | key in s.properties.schemas :: Valid(h, s.properties.schemas[key]))
    && (TObject in TypesOf(s) && s.additional.Each? ==> Valid(h, s.additional.schema))
  }

  // ---- one value

  predicate Matches(h: Host, v: Json, t: Type) {
    match t
    case TNull => v.Null?
    case TArray => v.Arr?
    case TObject => v.Obj?
    case TString => v.Str?
    case TBoolean => v.Bool?
    case TInteger => v.Num? && h.integer(v.digits)
    case TNumber => v.Num?
  }

  /** Sameness as the language compares parsed values: two objects or two lists are
      never the same one. */
  predicate Same(a: Json, b: Json) {
    !a.Arr? && !a.Obj? && a == b
  }

  predicate Within(n: nat, low: Option<nat>, high: Option<nat>) {
    (low.Some? ==> low.value <= n) && (high.Some? ==> n <= high.value)
  }

  /** The checks that concern the value itself, not what is in it. */
  predicate Fits(h: Host, s: Schema, v: Json) {
    && (TypesOf(s) != [] ==> exists i | 0 <= i < |TypesOf(s)| :: Matches(h, v, TypesOf(s)[i]))
    && (s.enumeration.Some? ==> exists i | 0 <= i < |s.enumeration.value| :: Same(s.enumeration.value[i], v))
    && (v.Str? ==> Within(CodePoints(v.s), s.minLength, s.maxLength) && (s.pattern.Some? ==> h.matches(s.pattern.value, v.s)))
    && (v.Num? ==> (s.minimum.Some? ==> s.minimum.value <= h.value(v.digits)) && (s.maximum.Some? ==> h.value(v.digits) <= s.maximum.value))
    && (v.Infinite? ==> (s.minimum.Some? ==> !v.negative) && (s.maximum.Some? ==> v.negative))
    && (v.Arr? ==> Within(|v.items|, s.minItems, s.maxItems) && s.items.Some?)
    && (v.Obj? ==>
          && IsObjectSchema(s)
          && (forall i | 0 <= i < |Required(s)| :: Required(s)[i] in v.fields)
          && (s.additional.Forbidden? ==> forall key | key in v.fields :: key in Properties(s)))
  }

  // ---- reading

  /** The value read, or nothing when it is refused. */
  ghost function Parsed(h: Host, s: Schema, v: Json): Option<Json>
    decreases s, 1, 0
  {
    if !Valid(h, s) || (s.constant.Some? && !Same(s.constant.value, v)) then None
    else if s.oneOf.OneOf? then
      var read := ReadBy(h, s, 0, v);
      if |read| == 1 then Some(read[0]) else None
    else if !Fits(h, s, v) then None
    else
      match v
      case Arr(items) =>
        if s.uniqueItems == Some(true) && |Texts(Identities(items))| != |items| then None
        else
          var read := ItemsRead(h, s, items, 0);
          if read.Some? then Some(Arr(read.value)) else None
      case Obj(fields) =>
        if forall key | key in fields :: FieldRead(h, s, key, fields[key]).Some?
        then Some(Obj(map key | key in fields :: FieldRead(h, s, key, fields[key]).value)) else None
      case _ => Some(v)
  }

  /** What the branches from the `i`th on read, of those that read it. */
  ghost function ReadBy(h: Host, s: Schema, i: nat, v: Json): seq<Json>
    requires s.oneOf.OneOf? && i <= |s.oneOf.schemas|
    decreases s, 0, |s.oneOf.schemas| - i
  {
    if i == |s.oneOf.schemas| then []
    else
      var read := Parsed(h, s.oneOf.schemas[i], v);
      (if read.Some? then [read.value] else []) + ReadBy(h, s, i + 1, v)
  }

  ghost function ItemsRead(h: Host, s: Schema, items: seq<Json>, i: nat): Option<seq<Json>>
    requires s.items.Some? && i <= |items|
    decreases s, 0, |items| - i
  {
    if i == |items| then Some([])
    else
      var read, rest := Parsed(h, s.items.value, items[i]), ItemsRead(h, s, items, i + 1);
      if read.Some? && rest.Some? then Some([read.value] + rest.value) else None
  }

  /** A field read by its own schema, or by the one for the rest. */
  ghost function FieldRead(h: Host, s: Schema, key: Text, v: Json): Option<Json>
    decreases s, 0, 0
  {
    if s.properties.Named? && key in s.properties.schemas then Parsed(h, s.properties.schemas[key], v)
    else if s.additional.Each? then Parsed(h, s.additional.schema, v)
    else None
  }

  // ---- what is accepted

  /** A value the schema describes, with items unique when no two print alike. */
  ghost predicate Accepts(h: Host, s: Schema, v: Json)
    decreases s, 1
  {
    && Valid(h, s)
    && (s.constant.Some? ==> Same(s.constant.value, v))
    && if s.oneOf.OneOf? then Accepting(h, s, 0, v) == 1
       else
         && Fits(h, s, v)
         && (v.Arr? ==>
               && (s.uniqueItems == Some(true) ==> AllDifferent(PrintedAll(v.items)))
               && forall i | 0 <= i < |v.items| :: Accepts(h, s.items.value, v.items[i]))
         && (v.Obj? ==> forall key | key in v.fields :: AcceptsField(h, s, key, v.fields[key]))
  }

  /** How many branches from the `i`th on accept the value. */
  ghost function Accepting(h: Host, s: Schema, i: nat, v: Json): nat
    requires s.oneOf.OneOf? && i <= |s.oneOf.schemas|
    decreases s, 0, |s.oneOf.schemas| - i
  {
    if i == |s.oneOf.schemas| then 0
    else (if Accepts(h, s.oneOf.schemas[i], v) then 1 else 0) + Accepting(h, s, i + 1, v)
  }

  ghost predicate AcceptsField(h: Host, s: Schema, key: Text, v: Json)
    decreases s, 0
  {
    if s.properties.Named? && key in s.properties.schemas then Accepts(h, s.properties.schemas[key], v)
    else s.additional.Each? && Accepts(h, s.additional.schema, v)
  }

  // ---- what is accepted, kind by kind

  /** The type is said, or none is. */
  predicate MayBe(s: Schema, t: Type) {
    s.types.None? || s.types.value == [] || t in s.types.value
  }

  /** The value is the constant and among the listed ones, where there are any; no object
      and no list ever is. */
  predicate MayEqual(s: Schema, v: Json) {
    && (s.constant.Some? ==> s.constant.value == v && !v.Arr? && !v.Obj?)
    && (s.enumeration.Some? ==> v in s.enumeration.value && !v.Arr? && !v.Obj?)
  }

  lemma {:induction false} TypeIsSaid(h: Host, s: Schema, v: Json)
    ensures (TypesOf(s) == [] || exists i | 0 <= i < |TypesOf(s)| :: Matches(h, v, TypesOf(s)[i])) <==>
            match v
            case Null => MayBe(s, TNull)
            case Bool(_) => MayBe(s, TBoolean)
            case Str(_) => MayBe(s, TString)
            case Num(digits) => MayBe(s, TNumber) || (TInteger in TypesOf(s) && h.integer(digits))
            case Infinite(_) => TypesOf(s) == []
            case Arr(_) => MayBe(s, TArray)
            case Obj(_) => MayBe(s, TObject)
  {
    var types := TypesOf(s);
    forall t: Type ensures t in types <==> exists i | 0 <= i < |types| :: types[i] == t {
    }
  }

  lemma {:induction false} EqualIsSaid(s: Schema, v: Json)
    ensures MayEqual(s, v) <==>
              && (s.constant.Some? ==> Same(s.constant.value, v))
              && (s.enumeration.Some? ==> exists i | 0 <= i < |s.enumeration.value| :: Same(s.enumeration.value[i], v))
  {
    if s.enumeration.Some? && v in s.enumeration.value && !v.Arr? && !v.Obj? {
      var i :| 0 <= i < |s.enumeration.value| && s.enumeration.value[i] == v;
      assert Same(s.enumeration.value[i], v);
    }
  }

  /** A null or a truth value: its type and value alone. */
  lemma {:induction false} SimpleIsAccepted(h: Host, s: Schema, b: bool)
    requires Valid(h, s) && s.oneOf.NoBranches?
    ensures Accepts(h, s, Null) <==> MayBe(s, TNull) && MayEqual(s, Null)
    ensures Accepts(h, s, Bool(b)) <==> MayBe(s, TBoolean) && MayEqual(s, Bool(b))
  {
    TypeIsSaid(h, s, Null);
    TypeIsSaid(h, s, Bool(b));
    EqualIsSaid(s, Null);
    EqualIsSaid(s, Bool(b));
  }

  /** A text: also its code points are within both bounds, and it matches the pattern. */
  lemma {:induction false} TextIsAccepted(h: Host, s: Schema, text: Text)
    requires Valid(h, s) && s.oneOf.NoBranches?
    ensures Accepts(h, s, Str(text)) <==>
              && MayBe(s, TString) && MayEqual(s, Str(text))
              && (s.minLength.Some? ==> s.minLength.value <= CodePoints(text))
              && (s.maxLength.Some? ==> CodePoints(text) <= s.maxLength.value)
              && (s.pattern.Some? ==> h.matches(s.pattern.value, text))
  {
    TypeIsSaid(h, s, Str(text));
    EqualIsSaid(s, Str(text));
  }

  /** A number: an integer where only integers are said, and within both bounds. */
  lemma {:induction false} NumberIsAccepted(h: Host, s: Schema, digits: Text)
    requires Valid(h, s) && s.oneOf.NoBranches?
    ensures Accepts(h, s, Num(digits)) <==>
              && (MayBe(s, TNumber) || (MayBe(s, TInteger) && h.integer(digits))) && MayEqual(s, Num(digits))
              && (s.minimum.Some? ==> s.minimum.value <= h.value(digits))
              && (s.maximum.Some? ==> h.value(digits) <= s.maximum.value)
  {
    TypeIsSaid(h, s, Num(digits));
    EqualIsSaid(s, Num(digits));
  }

  /** A list: as long as is said, with no two items that print alike where that is said,
      and every item accepted. */
  lemma {:induction false} ListIsAccepted(h: Host, s: Schema, items: seq<Json>)
    requires Valid(h, s) && s.oneOf.NoBranches?
    ensures Accepts(h, s, Arr(items)) <==>
              && MayBe(s, TArray) && s.constant.None? && s.enumeration.None?
              && (s.minItems.Some? ==> s.minItems.value <= |items|)
              && (s.maxItems.Some? ==> |items| <= s.maxItems.value)
              && (s.uniqueItems == Some(true) ==> AllDifferent(PrintedAll(items)))
              && s.items.Some? && forall i | 0 <= i < |items| :: Accepts(h, s.items.value, items[i])
  {
    TypeIsSaid(h, s, Arr(items));
    EqualIsSaid(s, Arr(items));
  }

  /** The schema an object's field is read by: the one it is named with, or the one for
      the rest; nothing where other fields are forbidden. */
  function FieldSchema(s: Schema, key: Text): Option<Schema> {
    if s.properties.Named? && key in s.properties.schemas then Some(s.properties.schemas[key])
    else if s.additional.Each? then Some(s.additional.schema)
    else None
  }

  /** An object: with every required field, and every field it has accepted by a schema
      that there is for it. */
  lemma {:induction false} ObjectIsAccepted(h: Host, s: Schema, fields: map<Text, Json>)
    requires Valid(h, s) && s.oneOf.NoBranches?
    ensures Accepts(h, s, Obj(fields)) <==>
              && MayBe(s, TObject) && s.constant.None? && s.enumeration.None? && IsObjectSchema(s)
              && (forall key | key in Required(s) :: key in fields)
              && (forall key | key in fields :: FieldSchema(s, key).Some? && Accepts(h, FieldSchema(s, key).value, fields[key]))
  {
    TypeIsSaid(h, s, Obj(fields));
    EqualIsSaid(s, Obj(fields));
    forall key | key in fields
      ensures AcceptsField(h, s, key, fields[key]) <==> FieldSchema(s, key).Some? && Accepts(h, FieldSchema(s, key).value, fields[key])
      ensures s.additional.Forbidden? ==> (FieldSchema(s, key).Some? <==> key in Properties(s))
    {
    }
  }

  // ---- reading is checking

  lemma {:induction false} NoneAccepts(h: Host, s: Schema, i: nat, v: Json)
    requires s.oneOf.OneOf? && i <= |s.oneOf.schemas|
    ensures Accepting(h, s, i, v) == 0 <==> forall j | i <= j < |s.oneOf.schemas| :: !Accepts(h, s.oneOf.schemas[j], v)
    decreases |s.oneOf.schemas| - i
  {
    if i < |s.oneOf.schemas| {
      NoneAccepts(h, s, i + 1, v);
    }
  }

  /** Branch `i` accepts the value, and no other from the `from`th on. */
  ghost predicate OnlyBranch(h: Host, s: Schema, from: nat, i: nat, v: Json)
    requires s.oneOf.OneOf?
  {
    && from <= i < |s.oneOf.schemas| && Accepts(h, s.oneOf.schemas[i], v)
    && forall j | from <= j < |s.oneOf.schemas| && j != i :: !Accepts(h, s.oneOf.schemas[j], v)
  }

  /** One branch accepting is one branch and no other. */
  lemma {:induction false} OneAccepts(h: Host, s: Schema, from: nat, v: Json)
    requires s.oneOf.OneOf? && from <= |s.oneOf.schemas|
    ensures Accepting(h, s, from, v) == 1 <==> exists i: nat :: OnlyBranch(h, s, from, i, v)
    decreases |s.oneOf.schemas| - from
  {
    if from < |s.oneOf.schemas| {
      var next := from + 1;
      OneAccepts(h, s, next, v);
      NoneAccepts(h, s, next, v);
      if Accepts(h, s.oneOf.schemas[from], v) {
        if Accepting(h, s, next, v) == 0 {
          assert OnlyBranch(h, s, from, from, v);
        }
      } else {
        forall i: nat ensures OnlyBranch(h, s, from, i, v) <==> OnlyBranch(h, s, next, i, v) {
          NotThisOne(h, s, from, i, v);
        }
      }
    }
  }

  lemma {:induction false} NotThisOne(h: Host, s: Schema, from: nat, i: nat, v: Json)
    requires s.oneOf.OneOf? && from < |s.oneOf.schemas| && !Accepts(h, s.oneOf.schemas[from], v)
    ensures OnlyBranch(h, s, from, i, v) <==> OnlyBranch(h, s, from + 1, i, v)
  {
  }

  lemma {:induction false} BranchesRead(h: Host, s: Schema, i: nat, v: Json)
    requires WellFormed(v) && s.oneOf.OneOf? && i <= |s.oneOf.schemas|
    ensures |ReadBy(h, s, i, v)| == Accepting(h, s, i, v) && forall k | 0 <= k < |ReadBy(h, s, i, v)| :: ReadBy(h, s, i, v)[k] == v
    decreases s, 0, |s.oneOf.schemas| - i
  {
    if i < |s.oneOf.schemas| {
      ReadsExactly(h, s.oneOf.schemas[i], v);
      BranchesRead(h, s, i + 1, v);
    }
  }

  lemma {:induction false} ItemsReadExactly(h: Host, s: Schema, items: seq<Json>, i: nat)
    requires s.items.Some? && i <= |items| && forall k | 0 <= k < |items| :: WellFormed(items[k])
    ensures ItemsRead(h, s, items, i)
         == if forall k | i <= k < |items| :: Accepts(h, s.items.value, items[k]) then Some(items[i..]) else None
    decreases s, 0, |items| - i
  {
    if i < |items| {
      ReadsExactly(h, s.items.value, items[i]);
      ItemsReadExactly(h, s, items, i + 1);
      assert items[i..] == [items[i]] + items[i + 1..];
    }
  }

  lemma {:induction false} FieldReadExactly(h: Host, s: Schema, key: Text, v: Json)
    requires WellFormed(v)
    ensures FieldRead(h, s, key, v) == if AcceptsField(h, s, key, v) then Some(v) else None
    decreases s, 0, 0
  {
    if s.properties.Named? && key in s.properties.schemas {
      ReadsExactly(h, s.properties.schemas[key], v);
    } else if s.additional.Each? {
      ReadsExactly(h, s.additional.schema, v);
    }
  }

  /** Every value is read as itself when the schema accepts it, and refused when it
      does not. */
  lemma {:induction false} ReadsExactly(h: Host, s: Schema, v: Json)
    requires WellFormed(v)
    ensures Parsed(h, s, v) == if Accepts(h, s, v) then Some(v) else None
    decreases s, 1, 0
  {
    if Valid(h, s) && (s.constant.Some? ==> Same(s.constant.value, v)) {
      if s.oneOf.OneOf? {
        BranchesRead(h, s, 0, v);
      } else if Fits(h, s, v) {
        match v
        case Arr(items) => ArrayReadsExactly(h, s, items);
        case Obj(fields) => ObjectReadsExactly(h, s, fields);
        case _ =>
      }
    }
  }

  lemma {:induction false} ArrayReadsExactly(h: Host, s: Schema, items: seq<Json>)
    requires WellFormed(Arr(items)) && Valid(h, s) && (s.constant.Some? ==> Same(s.constant.value, Arr(items)))
    requires !s.oneOf.OneOf? && Fits(h, s, Arr(items))
    ensures Parsed(h, s, Arr(items)) == if Accepts(h, s, Arr(items)) then Some(Arr(items)) else None
    decreases s, 1, 0, 0
  {
    UniqueByIdentity(items);
    ItemsReadExactly(h, s, items, 0);
    assert items[0..] == items;
  }

  lemma {:induction false} ObjectReadsExactly(h: Host, s: Schema, fields: map<Text, Json>)
    requires WellFormed(Obj(fields)) && Valid(h, s) && (s.constant.Some? ==> Same(s.constant.value, Obj(fields)))
    requires !s.oneOf.OneOf? && Fits(h, s, Obj(fields))
    ensures Parsed(h, s, Obj(fields)) == if Accepts(h, s, Obj(fields)) then Some(Obj(fields)) else None
    decreases s, 1, 0, 0
  {
    forall key | key in fields ensures FieldRead(h, s, key, fields[key]) == if AcceptsField(h, s, key, fields[key]) then Some(fields[key]) else None {
      FieldReadExactly(h, s, key, fields[key]);
    }
    if forall key | key in fields :: AcceptsField(h, s, key, fields[key]) {
      assert (map key | key in fields :: FieldRead(h, s, key, fields[key]).value) == fields;
    }
  }

  /** What is read is what was sent, and reading it again gives it again. */
  lemma {:induction false} ReadTwice(h: Host, s: Schema, v: Json)
    requires WellFormed(v) && Parsed(h, s, v).Some?
    ensures Parsed(h, s, v).value == v && Parsed(h, s, Parsed(h, s, v).value) == Parsed(h, s, v)
  {
    ReadsExactly(h, s, v);
  }

  // ---- unique items and infinities

  /** No schema in this one names an infinity as a value. */
  ghost predicate NamesFinite(s: Schema) {
    && (s.constant.Some? ==> !s.constant.value.Infinite?)
    && (s.enumeration.Some? ==> forall i | 0 <= i < |s.enumeration.value| :: !s.enumeration.value[i].Infinite?)
    && (s.oneOf.OneOf? ==> forall i | 0 <= i < |s.oneOf.schemas| :: NamesFinite(s.oneOf.schemas[i]))
    && (s.items.Some? ==> NamesFinite(s.items.value))
    && (s.properties.Named? ==> forall key | key in s.properties.schemas :: NamesFinite(s.properties.schemas[key]))
    && (s.additional.Each? ==> NamesFinite(s.additional.schema))
  }

  lemma {:induction false} NotInfinite(h: Host, s: Schema, v: Json)
    requires NamesFinite(s) && Accepts(h, s, v) && !s.oneOf.OneOf?
    ensures !v.Infinite?
  {
  }

  /** What such a schema accepts has no infinity in it. */
  lemma {:induction false} AcceptedIsFinite(h: Host, s: Schema, v: Json)
    requires NamesFinite(s) && Accepts(h, s, v) && WellFormed(v)
    ensures Finite(v)
    decreases s
  {
    if s.oneOf.OneOf? {
      NoneAccepts(h, s, 0, v);
      var j :| 0 <= j < |s.oneOf.schemas| && Accepts(h, s.oneOf.schemas[j], v);
      AcceptedIsFinite(h, s.oneOf.schemas[j], v);
    } else {
      NotInfinite(h, s, v);
      if v.Arr? {
        forall i | 0 <= i < |v.items| ensures Finite(v.items[i]) {
          AcceptedIsFinite(h, s.items.value, v.items[i]);
        }
      } else if v.Obj? {
        forall key | key in v.fields ensures Finite(v.fields[key]) {
          FieldIsFinite(h, s, key, v.fields[key]);
        }
      }
    }
  }

  lemma {:induction false} FieldIsFinite(h: Host, s: Schema, key: Text, v: Json)
    requires NamesFinite(s) && AcceptsField(h, s, key, v) && WellFormed(v)
    ensures Finite(v)
    decreases s, 0
  {
    if s.properties.Named? && key in s.properties.schemas {
      AcceptedIsFinite(h, s.properties.schemas[key], v);
    } else {
      AcceptedIsFinite(h, s.additional.schema, v);
    }
  }

  /** A list and its items fit, and its items are different when they must be. */
  ghost predicate Describes(h: Host, s: Schema, items: seq<Json>) {
    && Valid(h, s) && s.constant.None? && Fits(h, s, Arr(items))
    && (s.uniqueItems == Some(true) ==> AllDifferent(items))
    && forall i | 0 <= i < |items| :: Accepts(h, s.items.value, items[i])
  }

  /** Where no schema names an infinity, unique means different: a list is accepted
      exactly when it and its items fit and no two that must differ are equal. */
  lemma {:induction false} UniqueIsDifferent(h: Host, s: Schema, items: seq<Json>)
    requires NamesFinite(s) && WellFormed(Arr(items)) && !s.oneOf.OneOf?
    ensures Accepts(h, s, Arr(items)) <==> Describes(h, s, items)
  {
    UniqueByIdentity(items);
    if Fits(h, s, Arr(items)) && forall i | 0 <= i < |items| :: Accepts(h, s.items.value, items[i]) {
      forall i | 0 <= i < |items| ensures Finite(items[i]) {
        AcceptedIsFinite(h, s.items.value, items[i]);
      }
    }
  }

  const ANYTHING: Schema := Schema(None, NoBranches, None, None, None, None, None, None, None, None, None, None, None, NoFields, None, Unsaid)

  /** Null, or an infinity. */
  const EITHER: seq<Json> := [Null, Infinite(false)]

  lemma {:induction false} EitherIsAccepted(h: Host, s: Schema, v: Json, i: nat)
    requires s == ANYTHING.(enumeration := Some(EITHER)) && i < 2 && v == EITHER[i]
    ensures Accepts(h, s, v)
  {
    assert Same(s.enumeration.value[i], v);
  }

  lemma {:induction false} ListIsDescribed(h: Host, s: Schema, either: Schema)
    requires either == ANYTHING.(enumeration := Some(EITHER))
    requires s == ANYTHING.(types := Some([TArray]), items := Some(either), uniqueItems := Some(true))
    ensures Describes(h, s, EITHER)
  {
    EitherIsAccepted(h, either, EITHER[0], 0);
    EitherIsAccepted(h, either, EITHER[1], 1);
    assert TypesOf(s)[0] == TArray && Matches(h, Arr(EITHER), TArray);
  }

  lemma {:induction false} ListIsRefused(h: Host, s: Schema)
    requires s.uniqueItems == Some(true) && !s.oneOf.OneOf?
    ensures Parsed(h, s, Arr(EITHER)) == None
  {
    UniqueByIdentity(EITHER);
    assert PrintedAll(EITHER)[0] == PrintedAll(EITHER)[1];
  }

  /** Where one does, a list of null and a number too large for one is refused though
      each is accepted and they differ: both print as null. */
  lemma {:induction false} InfinityIsTakenForNull(h: Host) returns (s: Schema)
    ensures Describes(h, s, EITHER) && AllDifferent(EITHER) && Parsed(h, s, Arr(EITHER)) == None
  {
    var either := ANYTHING.(enumeration := Some(EITHER));
    s := ANYTHING.(types := Some([TArray]), items := Some(either), uniqueItems := Some(true));
    ListIsDescribed(h, s, either);
    ListIsRefused(h, s);
  }
}
