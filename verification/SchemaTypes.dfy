/**
 From JSON Schema to TypeScript types (cmd/sta/codemode_prompt.go).  A schema is its decoded
 keywords; a value is accepted as JSON Schema 2020-12 says (Core section 10, Validation
 section 6); a type is the meaning of the text that the translation writes.
 */
module SchemaTypes {
  import opened Common

  datatype Json =
    | Null
    | Bool(truth: bool)
    | Num(number: real)
    | Str(text: string)
    | Arr(items: seq<Json>)
    | Obj(fields: map<string, Json>)

  // ---------- Schemas ----------

  datatype TypeName = StringName | NumberName | IntegerName | BooleanName | NullName | ArrayName | ObjectName

  /** The `type` keyword: absent or unknown, one name, or a list of names. */
  datatype TypeWord = NoType | One(name: TypeName) | OneOf(names: seq<TypeName>)

  /**
   A boolean schema, or an object of keywords; `properties` is in the order of its names.
   The translation does not read `prefix` and `patterns` (the keywords `prefixItems` and
   `patternProperties`), which take places away from `items` and `additional`.
   */
  datatype Schema =
    | Always(accepts: bool)
    | Keywords(
        enum: Option<seq<Json>>,
        anyOf: UnionWord,
        typeWord: TypeWord,
        items: Option<Schema>,
        prefix: seq<Schema>,
        properties: seq<Property>,
        required: seq<string>,
        additional: Option<Schema>,
        patterns: seq<Pattern>)

  datatype UnionWord = NoUnion | AnyOf(members: seq<Schema>)

  datatype Property = Property(name: string, schema: Schema)

  datatype Pattern = Pattern(text: string, schema: Schema)

  /** Whether the regular expression in a text matches a name. */
  type Matching = (string, string) -> bool

  /** A schema that says a type only. */
  function TypeOnly(typeWord: TypeWord): Schema {
    Keywords(None, NoUnion, typeWord, None, [], [], [], None, [])
  }

  predicate IsOfType(name: TypeName, v: Json) {
    match name
    case StringName => v.Str?
    case NumberName => v.Num?
    case IntegerName => v.Num? && v.number == v.number.Floor as real
    case BooleanName => v.Bool?
    case NullName => v.Null?
    case ArrayName => v.Arr?
    case ObjectName => v.Obj?
  }

  predicate TypeAccepts(t: TypeWord, v: Json) {
    match t
    case NoType => true
    case One(name) => IsOfType(name, v)
    case OneOf(names) => exists name | name in names :: IsOfType(name, v)
  }

  predicate HasProperty(properties: seq<Property>, name: string) {
    exists p | p in properties :: p.name == name
  }

  predicate HasPattern(patterns: seq<Pattern>, name: string, matches: Matching) {
    exists p | p in patterns :: matches(p.text, name)
  }

  /** Whether a schema accepts a value: every keyword it has must. */
  predicate Accepts(s: Schema, v: Json, matches: Matching)
    decreases s, 1
  {
    match s
    case Always(accepts) => accepts
    case Keywords(enum, anyOf, typeWord, _, _, _, _, _, _) =>
      && (enum.Some? ==> v in enum.value)
      && (anyOf.AnyOf? ==> exists i | 0 <= i < |anyOf.members| :: Accepts(anyOf.members[i], v, matches))
      && TypeAccepts(typeWord, v)
      && (v.Arr? ==> AcceptsItems(s, v.items, matches))
      && (v.Obj? ==> AcceptsFields(s, v.fields, matches))
  }

  /** `items` is for the items behind those that `prefix` has a schema for. */
  predicate AcceptsItems(s: Schema, items: seq<Json>, matches: Matching)
    requires s.Keywords?
    decreases s, 0
  {
    && (forall i | 0 <= i < |s.prefix| && i < |items| :: Accepts(s.prefix[i], items[i], matches))
    && (s.items.Some? ==> forall i | |s.prefix| <= i < |items| :: Accepts(s.items.value, items[i], matches))
  }

  /** `additional` is for the fields that no property names and no pattern matches. */
  predicate AcceptsFields(s: Schema, fields: map<string, Json>, matches: Matching)
    requires s.Keywords?
    decreases s, 0
  {
    && (forall i | 0 <= i < |s.properties| && s.properties[i].name in fields ::
          Accepts(s.properties[i].schema, fields[s.properties[i].name], matches))
    && (forall name | name in s.required :: name in fields)
    && (forall i, name | 0 <= i < |s.patterns| && name in fields && matches(s.patterns[i].text, name) ::
          Accepts(s.patterns[i].schema, fields[name], matches))
    && (s.additional.Some? ==>
          forall name | name in fields && !HasProperty(s.properties, name) && !HasPattern(s.patterns, name, matches) ::
            Accepts(s.additional.value, fields[name], matches))
  }

  // ---------- Types ----------

  datatype Ty =
    | JsonValue
    | StringTy
    | NumberTy
    | BooleanTy
    | NullTy
    | Literal(value: Json)
    | Union(alts: seq<Ty>)
    | ArrayOf(element: Ty)
    | IndexTy(field: Ty)
    | RecordTy
    | ObjectTy(members: seq<Member>)

  datatype Member = Member(name: string, optional: bool, ty: Ty)

  /** Whether a JSON value inhabits a type; a literal type admits its own value only. */
  predicate Has(t: Ty, v: Json) {
    match t
    case JsonValue => true
    case StringTy => v.Str?
    case NumberTy => v.Num?
    case BooleanTy => v.Bool?
    case NullTy => v.Null?
    case Literal(value) => v == value
    case Union(alts) => exists i | 0 <= i < |alts| :: Has(alts[i], v)
    case ArrayOf(element) => v.Arr? && forall item | item in v.items :: Has(element, item)
    case IndexTy(field) => v.Obj? && forall name | name in v.fields :: Has(field, v.fields[name])
    case RecordTy => v.Obj?
    case ObjectTy(members) => v.Obj? && forall i | 0 <= i < |members| :: Inhabits(members[i], v.fields)
  }

  predicate Inhabits(m: Member, fields: map<string, Json>) {
    if m.name in fields then Has(m.ty, fields[m.name]) else m.optional
  }

  // ---------- The translation ----------

  function Literals(values: seq<Json>): (alts: seq<Ty>)
    ensures |alts| == |values|
  {
    seq(|values|, i requires 0 <= i < |values| => Literal(values[i]))
  }

  /** The types of the union members that are objects; boolean members are skipped. */
  function UnionTypes(members: seq<Schema>): seq<Ty> {
    if members == [] then []
    else (if members[0].Keywords? then [TypeOf(members[0])] else []) + UnionTypes(members[1..])
  }

  function TypeOf(s: Schema): Ty {
    match s
    case Always(_) => JsonValue
    case Keywords(enum, anyOf, typeWord, items, _, _, _, _, _) =>
      if enum.Some? && enum.value != [] then Union(Literals(enum.value))
      else if anyOf.AnyOf? && UnionTypes(anyOf.members) != [] then Union(UnionTypes(anyOf.members))
      else
        match typeWord
        case One(StringName) => StringTy
        case One(NumberName) => NumberTy
        case One(IntegerName) => NumberTy
        case One(BooleanName) => BooleanTy
        case One(NullName) => NullTy
        case One(ArrayName) => ArrayOf(if items.Some? then TypeOf(items.value) else JsonValue)
        case One(ObjectName) => ObjectType(s)
        case _ => JsonValue
  }

  function ObjectType(s: Schema): Ty
    requires s.Keywords?
    decreases s, 0
  {
    if s.properties == [] then
      if s.additional.Some? && s.additional.value.Keywords? then IndexTy(TypeOf(s.additional.value)) else RecordTy
    else ObjectTy(seq(|s.properties|, i requires 0 <= i < |s.properties| =>
      Member(s.properties[i].name, s.properties[i].name !in s.required, TypeOf(s.properties[i].schema))))
  }

  // ---------- Soundness ----------

  /** A union that loses something: `true` stands beside a member that is an object. */
  predicate LosesTrue(members: seq<Schema>) {
    Always(true) in members && exists m | m in members :: m.Keywords?
  }

  /**
   Of what the translation reads, no union loses anything, no `items` has a prefix beside it
   and no `additional` patterns.
   */
  predicate Translatable(s: Schema) {
    s.Keywords? && !(s.enum.Some? && s.enum.value != []) ==>
      if s.anyOf.AnyOf? && UnionTypes(s.anyOf.members) != [] then
        !LosesTrue(s.anyOf.members) && forall i | 0 <= i < |s.anyOf.members| :: Translatable(s.anyOf.members[i])
      else
        match s.typeWord
        case One(ArrayName) => s.items.Some? && s.items.value.Keywords? ==> s.prefix == [] && Translatable(s.items.value)
        case One(ObjectName) =>
          if s.properties != [] then forall i | 0 <= i < |s.properties| :: Translatable(s.properties[i].schema)
          else s.additional.Some? && s.additional.value.Keywords? ==> s.patterns == [] && Translatable(s.additional.value)
        case _ => true
  }

  lemma {:induction false} UnionTypesHave(members: seq<Schema>, i: nat)
    requires i < |members| && members[i].Keywords?
    ensures TypeOf(members[i]) in UnionTypes(members)
  {
    if i > 0 { UnionTypesHave(members[1..], i - 1); }
  }

  lemma {:induction false} UnionTypesCome(members: seq<Schema>, t: Ty)
    requires t in UnionTypes(members)
    ensures exists m :: m in members && m.Keywords? && TypeOf(m) == t
  {
    if !(members[0].Keywords? && TypeOf(members[0]) == t) {
      UnionTypesCome(members[1..], t);
    }
  }

  /** Every value the schema accepts inhabits the generated type. */
  lemma {:induction false} TranslationIsSound(s: Schema, v: Json, matches: Matching)
    requires Translatable(s) && Accepts(s, v, matches)
    ensures Has(TypeOf(s), v)
    decreases s, 1
  {
    if s.Keywords? {
      if s.enum.Some? && s.enum.value != [] {
        var i :| 0 <= i < |s.enum.value| && s.enum.value[i] == v;
        assert Has(Literals(s.enum.value)[i], v);
      } else if s.anyOf.AnyOf? && UnionTypes(s.anyOf.members) != [] {
        UnionIsSound(s.anyOf.members, v, matches);
      } else if s.typeWord == One(ArrayName) {
        ItemsAreSound(s, v, matches);
      } else if s.typeWord == One(ObjectName) {
        ObjectIsSound(s, v, matches);
      }
    }
  }

  lemma UnionIsSound(members: seq<Schema>, v: Json, matches: Matching)
    requires UnionTypes(members) != [] && !LosesTrue(members)
    requires forall i | 0 <= i < |members| :: Translatable(members[i])
    requires exists i | 0 <= i < |members| :: Accepts(members[i], v, matches)
    ensures Has(Union(UnionTypes(members)), v)
    decreases members, 0
  {
    UnionTypesCome(members, UnionTypes(members)[0]);
    var i :| 0 <= i < |members| && Accepts(members[i], v, matches);
    assert members[i] in members && members[i].Keywords?;
    TranslationIsSound(members[i], v, matches);
    UnionTypesHave(members, i);
  }

  lemma ItemsAreSound(s: Schema, v: Json, matches: Matching)
    requires s.Keywords? && v.Arr? && AcceptsItems(s, v.items, matches)
    requires s.items.Some? && s.items.value.Keywords? ==> s.prefix == [] && Translatable(s.items.value)
    ensures Has(ArrayOf(if s.items.Some? then TypeOf(s.items.value) else JsonValue), v)
    decreases s, 0
  {
    if s.items.Some? && s.items.value.Keywords? {
      forall i | 0 <= i < |v.items| ensures Has(TypeOf(s.items.value), v.items[i]) {
        TranslationIsSound(s.items.value, v.items[i], matches);
      }
    }
  }

  lemma ObjectIsSound(s: Schema, v: Json, matches: Matching)
    requires s.Keywords? && v.Obj? && AcceptsFields(s, v.fields, matches)
    requires forall i | 0 <= i < |s.properties| :: Translatable(s.properties[i].schema)
    requires s.properties == [] && s.additional.Some? && s.additional.value.Keywords? ==>
      s.patterns == [] && Translatable(s.additional.value)
    ensures Has(ObjectType(s), v)
    decreases s, 0
  {
    if s.properties != [] {
      forall i | 0 <= i < |s.properties| ensures Inhabits(ObjectType(s).members[i], v.fields) {
        var name := s.properties[i].name;
        if name in v.fields { TranslationIsSound(s.properties[i].schema, v.fields[name], matches); }
      }
    } else if s.additional.Some? && s.additional.value.Keywords? {
      forall name | name in v.fields ensures Has(TypeOf(s.additional.value), v.fields[name]) {
        TranslationIsSound(s.additional.value, v.fields[name], matches);
      }
    }
  }

  // ---------- Exactness ----------

  /** Neither an enum nor a union, so that the `type` keyword is read. */
  predicate ReadsType(s: Schema) {
    s.Keywords? && s.enum.None? && s.anyOf.NoUnion?
  }

  predicate NoItemsOrFields(s: Schema)
    requires s.Keywords?
  {
    && s.items.None? && s.prefix == []
    && s.properties == [] && s.required == [] && s.additional.None? && s.patterns == []
  }

  /** A schema that accepts everything, left out or written `true`. */
  predicate Anything(s: Option<Schema>) {
    s.None? || s.value == Always(true)
  }

  /**
   The schemas that the translation describes in full: an enum alone, a union alone, or what
   the `type` keyword reads for one name other than `integer`, with nothing beside it that
   matters to that type and is not read.
   */
  predicate Exact(s: Schema) {
    match s
    case Always(accepts) => accepts
    case Keywords(enum, anyOf, typeWord, items, prefix, properties, required, additional, patterns) =>
      if enum.Some? then enum.value != [] && anyOf.NoUnion? && typeWord.NoType? && NoItemsOrFields(s)
      else if anyOf.AnyOf? then
        && typeWord.NoType? && NoItemsOrFields(s) && (exists m | m in anyOf.members :: m.Keywords?)
        && forall i | 0 <= i < |anyOf.members| :: anyOf.members[i] == Always(false) || (anyOf.members[i].Keywords? && Exact(anyOf.members[i]))
      else
        match typeWord
        case NoType => NoItemsOrFields(s)
        case One(ArrayName) => prefix == [] && (Anything(items) || (items.value.Keywords? && Exact(items.value)))
        case One(ObjectName) =>
          && patterns == []
          && (forall name | name in required :: HasProperty(properties, name))
          && (forall i | 0 <= i < |properties| :: Exact(properties[i].schema))
          && (Anything(additional) || (properties == [] && additional.value.Keywords? && Exact(additional.value)))
        case One(name) => name != IntegerName
        case OneOf(_) => false
  }

  lemma {:induction false} ExactIsTranslatable(s: Schema)
    requires Exact(s)
    ensures Translatable(s)
  {
    if s.Keywords? && s.enum.None? {
      if s.anyOf.AnyOf? {
        forall i | 0 <= i < |s.anyOf.members| ensures Translatable(s.anyOf.members[i]) {
          if s.anyOf.members[i].Keywords? { ExactIsTranslatable(s.anyOf.members[i]); }
        }
      } else {
        if s.typeWord == One(ArrayName) && s.items.Some? && s.items.value.Keywords? { ExactIsTranslatable(s.items.value); }
        if s.typeWord == One(ObjectName) {
          forall i | 0 <= i < |s.properties| ensures Translatable(s.properties[i].schema) { ExactIsTranslatable(s.properties[i].schema); }
          if s.additional.Some? && s.additional.value.Keywords? { ExactIsTranslatable(s.additional.value); }
        }
      }
    }
  }

  /** For such a schema, the generated type has exactly the values that the schema accepts. */
  lemma {:induction false} TranslationIsExact(s: Schema, v: Json, matches: Matching)
    requires Exact(s)
    ensures Has(TypeOf(s), v) <==> Accepts(s, v, matches)
  {
    ExactIsTranslatable(s);
    if Accepts(s, v, matches) { TranslationIsSound(s, v, matches); }
    if Has(TypeOf(s), v) { TypeIsAccepted(s, v, matches); }
  }

  lemma {:induction false} TypeIsAccepted(s: Schema, v: Json, matches: Matching)
    requires Exact(s) && Has(TypeOf(s), v)
    ensures Accepts(s, v, matches)
    decreases s, 1
  {
    if s.Keywords? {
      if s.enum.Some? {
        EnumTypeHas(s, v);
      } else if s.anyOf.AnyOf? {
        UnionIsAccepted(s, v, matches);
      } else if s.typeWord == One(ArrayName) {
        ArrayIsAccepted(s, v, matches);
      } else if s.typeWord == One(ObjectName) {
        ObjectIsAccepted(s, v, matches);
      }
    }
  }

  /** A schema with an enum is described by its values, whatever stands beside it. */
  lemma EnumTypeHas(s: Schema, v: Json)
    requires s.Keywords? && s.enum.Some? && s.enum.value != []
    ensures Has(TypeOf(s), v) <==> v in s.enum.value
  {
    var alts := Literals(s.enum.value);
    if v in s.enum.value {
      var i :| 0 <= i < |alts| && s.enum.value[i] == v;
      assert Has(alts[i], v);
    }
  }

  /** A value of a union's type comes from the type of one of its members. */
  lemma MemberOfUnion(members: seq<Schema>, v: Json) returns (j: nat)
    requires Has(Union(UnionTypes(members)), v)
    ensures j < |members| && members[j].Keywords? && Has(TypeOf(members[j]), v)
  {
    var types := UnionTypes(members);
    var i :| 0 <= i < |types| && Has(types[i], v);
    UnionTypesCome(members, types[i]);
    var member :| member in members && member.Keywords? && TypeOf(member) == types[i];
    j :| 0 <= j < |members| && members[j] == member;
  }

  lemma UnionIsRead(members: seq<Schema>)
    requires exists m | m in members :: m.Keywords?
    ensures UnionTypes(members) != []
  {
    var m :| m in members && m.Keywords?;
    var k :| 0 <= k < |members| && members[k] == m;
    UnionTypesHave(members, k);
  }

  lemma UnionIsAccepted(s: Schema, v: Json, matches: Matching)
    requires Exact(s) && s.Keywords? && s.enum.None? && s.anyOf.AnyOf? && Has(TypeOf(s), v)
    ensures Accepts(s, v, matches)
    decreases s, 0
  {
    UnionIsRead(s.anyOf.members);
    var j := MemberOfUnion(s.anyOf.members, v);
    TypeIsAccepted(s.anyOf.members[j], v, matches);
    AnyOfAccepts(s, j, v, matches);
  }

  lemma AnyOfAccepts(s: Schema, j: nat, v: Json, matches: Matching)
    requires s.Keywords? && s.enum.None? && s.anyOf.AnyOf? && s.typeWord.NoType? && NoItemsOrFields(s)
    requires j < |s.anyOf.members| && Accepts(s.anyOf.members[j], v, matches)
    ensures Accepts(s, v, matches)
  {}

  lemma ArrayIsAccepted(s: Schema, v: Json, matches: Matching)
    requires Exact(s) && ReadsType(s) && s.typeWord == One(ArrayName) && Has(TypeOf(s), v)
    ensures Accepts(s, v, matches)
    decreases s, 0
  {
    if s.items.Some? {
      forall i | 0 <= i < |v.items| ensures Accepts(s.items.value, v.items[i], matches) {
        if s.items.value.Keywords? { TypeIsAccepted(s.items.value, v.items[i], matches); }
      }
    }
    assert AcceptsItems(s, v.items, matches);
  }

  lemma ObjectIsAccepted(s: Schema, v: Json, matches: Matching)
    requires Exact(s) && ReadsType(s) && s.typeWord == One(ObjectName) && Has(TypeOf(s), v)
    ensures Accepts(s, v, matches)
    decreases s, 0, 1
  {
    assert TypeOf(s) == ObjectType(s);
    assert v.Obj?;
    if s.properties == [] { IndexIsAccepted(s, v, matches); } else { PropertiesAreAccepted(s, v, matches); }
    assert AcceptsFields(s, v.fields, matches);
  }

  lemma IndexIsAccepted(s: Schema, v: Json, matches: Matching)
    requires Exact(s) && ReadsType(s) && s.typeWord == One(ObjectName) && s.properties == [] && v.Obj? && Has(ObjectType(s), v)
    ensures AcceptsFields(s, v.fields, matches)
    decreases s, 0, 0
  {
    if s.additional.Some? {
      forall name | name in v.fields ensures Accepts(s.additional.value, v.fields[name], matches) {
        if s.additional.value.Keywords? {
          assert ObjectType(s) == IndexTy(TypeOf(s.additional.value));
          TypeIsAccepted(s.additional.value, v.fields[name], matches);
        }
      }
    }
  }

  lemma PropertiesAreAccepted(s: Schema, v: Json, matches: Matching)
    requires Exact(s) && ReadsType(s) && s.typeWord == One(ObjectName) && s.properties != [] && v.Obj? && Has(ObjectType(s), v)
    ensures AcceptsFields(s, v.fields, matches)
    decreases s, 0, 0
  {
    var members := ObjectType(s).members;
    forall i | 0 <= i < |s.properties| && s.properties[i].name in v.fields
      ensures Accepts(s.properties[i].schema, v.fields[s.properties[i].name], matches)
    {
      assert Inhabits(members[i], v.fields);
      TypeIsAccepted(s.properties[i].schema, v.fields[s.properties[i].name], matches);
    }
    forall name | name in s.required ensures name in v.fields {
      var p :| p in s.properties && p.name == name;
      var i :| 0 <= i < |s.properties| && s.properties[i] == p;
      assert Inhabits(members[i], v.fields);
    }
  }

  /** Of what is not described in full: integers are described as numbers, and lists of type names not at all. */
  lemma CoarseTypes(s: Schema, v: Json, matches: Matching)
    requires ReadsType(s)
    ensures s.typeWord == One(IntegerName) ==> (Has(TypeOf(s), v) <==> v.Num?)
    ensures s.typeWord == One(IntegerName) ==> Has(TypeOf(s), Num(0.5)) && !Accepts(s, Num(0.5), matches)
    ensures s.typeWord.NoType? || s.typeWord.OneOf? ==> Has(TypeOf(s), v)
  {}

  // ---------- What soundness means ----------

  /** Every value that the schema accepts inhabits the type. */
  ghost predicate Within(s: Schema, t: Ty, matches: Matching) {
    forall v: Json :: Accepts(s, v, matches) ==> Has(t, v)
  }

  ghost predicate Sound(s: Schema, matches: Matching) {
    Within(s, TypeOf(s), matches)
  }
}
