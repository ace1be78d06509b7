/**
 Where the translation of cmd/sta/codemode_prompt.go misses accepted values, each with the
 exact condition: unions that lose a `true`, `items` beside a prefix, and additional
 properties beside patterns.
 */
module SchemaGaps {
  import opened Common
  import opened SchemaTypes
  import opened TypeCoverage

  // ---------- Schemas that say a type only ----------

  predicate NameHasKind(name: TypeName, k: Kind) {
    match name
    case StringName => k.StringKind?
    case NumberName => k.NumberKind?
    case IntegerName => k.NumberKind?
    case BooleanName => k.FalseKind? || k.TrueKind?
    case NullName => k.NullKind?
    case ArrayName => k.ArrayKind?
    case ObjectName => k.ObjectKind?
  }

  predicate WordHasKind(t: TypeWord, k: Kind) {
    match t
    case NoType => true
    case One(name) => NameHasKind(name, k)
    case OneOf(names) => exists name | name in names :: NameHasKind(name, k)
  }

  /** The type covers every kind that the `type` keyword lets through. */
  ghost predicate CoversUnder(typeWord: TypeWord, t: Ty) {
    forall k: Kind | WordHasKind(typeWord, k) :: Covers(t, k)
  }

  lemma TypeAcceptsKind(t: TypeWord, v: Json)
    ensures TypeAccepts(t, v) ==> WordHasKind(t, KindOf(v))
    ensures WordHasKind(t, KindOf(v)) && (v.Num? ==> v.number == v.number.Floor as real) ==> TypeAccepts(t, v)
  {
    if t.OneOf? {
      if TypeAccepts(t, v) {
        var name :| name in t.names && IsOfType(name, v);
        assert NameHasKind(name, KindOf(v));
      }
      if WordHasKind(t, KindOf(v)) && (v.Num? ==> v.number == v.number.Floor as real) {
        var name :| name in t.names && NameHasKind(name, KindOf(v));
        assert IsOfType(name, v);
      }
    }
  }

  /** What a schema that says a type only lets through inhabits a type exactly if the type covers each of its kinds. */
  lemma TypeOnlyWithinExactlyWhen(typeWord: TypeWord, t: Ty, matches: Matching)
    ensures Within(TypeOnly(typeWord), t, matches) <==> CoversUnder(typeWord, t)
  {
    AcceptsByTypeWithin(TypeOnly(typeWord), typeWord, t, matches);
  }

  /** The same for any schema that accepts just as much. */
  lemma AcceptsByTypeWithin(s: Schema, typeWord: TypeWord, t: Ty, matches: Matching)
    requires forall v: Json :: Accepts(s, v, matches) <==> TypeAccepts(typeWord, v)
    ensures Within(s, t, matches) <==> CoversUnder(typeWord, t)
  {
    if CoversUnder(typeWord, t) {
      forall v: Json | Accepts(s, v, matches) ensures Has(t, v) {
        TypeAcceptsKind(typeWord, v);
        CoveredIsAdmitted(t, v);
      }
    } else {
      var k: Kind :| WordHasKind(typeWord, k) && !Covers(t, k);
      var v := Lacked(t, k);
      TypeAcceptsKind(typeWord, v);
    }
  }

  // ---------- Unions ----------

  /** A union, beside a `type` keyword or none. */
  function UnionUnder(typeWord: TypeWord, members: seq<Schema>): Schema {
    Keywords(None, AnyOf(members), typeWord, None, [], [], [], None, [])
  }

  /** A union that loses a `true` accepts what the `type` keyword does, and is translated to its other members. */
  lemma LossyUnion(typeWord: TypeWord, members: seq<Schema>, v: Json, matches: Matching)
    requires LosesTrue(members)
    ensures Accepts(UnionUnder(typeWord, members), v, matches) <==> TypeAccepts(typeWord, v)
    ensures TypeOf(UnionUnder(typeWord, members)) == Union(UnionTypes(members))
  {
    var m :| m in members && m.Keywords?;
    var i :| 0 <= i < |members| && members[i] == m;
    UnionTypesHave(members, i);
    var j :| 0 <= j < |members| && members[j] == Always(true);
    assert Accepts(members[j], v, matches);
  }

  /**
   The exact condition, on the schema's own structure: a union, beside a `type` keyword or
   none, keeps its meaning if and only if it loses no `true`, or the types of its other
   members cover every kind of value that the `type` keyword lets through.
   */
  lemma UnionIsSoundExactlyWhen(typeWord: TypeWord, members: seq<Schema>, matches: Matching)
    requires forall i | 0 <= i < |members| :: Translatable(members[i])
    ensures Sound(UnionUnder(typeWord, members), matches) <==> !LosesTrue(members) || CoversUnder(typeWord, Union(UnionTypes(members)))
  {
    if LosesTrue(members) {
      LossyUnionIsSoundExactlyWhen(typeWord, members, matches);
    } else {
      var s := UnionUnder(typeWord, members);
      forall v: Json | Accepts(s, v, matches) ensures Has(TypeOf(s), v) { TranslationIsSound(s, v, matches); }
    }
  }

  /** The same for a union that loses a `true`, whatever its other members lose. */
  lemma LossyUnionIsSoundExactlyWhen(typeWord: TypeWord, members: seq<Schema>, matches: Matching)
    requires LosesTrue(members)
    ensures Sound(UnionUnder(typeWord, members), matches) <==> CoversUnder(typeWord, Union(UnionTypes(members)))
  {
    var s, t := UnionUnder(typeWord, members), Union(UnionTypes(members));
    forall v: Json ensures TypeOf(s) == t && (Accepts(s, v, matches) <==> TypeAccepts(typeWord, v)) {
      LossyUnion(typeWord, members, v, matches);
    }
    assert TypeOf(s) == t by { LossyUnion(typeWord, members, Null, matches); }
    AcceptsByTypeWithin(s, typeWord, t, matches);
  }

  /** Such a union exists: true-or-string accepts null, and its type is string. */
  lemma TrueOrString(matches: Matching)
    ensures var s := UnionUnder(NoType, [Always(true), TypeOnly(One(StringName))]);
      Accepts(s, Null, matches) && !Has(TypeOf(s), Null)
  {
    var text := TypeOnly(One(StringName));
    var members := [Always(true), text];
    assert Accepts(members[0], Null, matches);
    assert members[1..] == [text];
    assert UnionTypes([text]) == [StringTy] by { assert [text][1..] == []; }
    assert UnionTypes(members) == [StringTy];
  }

  // ---------- Items beside a prefix ----------

  /** The translation of the schema is an array of the type of its `items`. */
  predicate ReadsItems(s: Schema) {
    s.Keywords? && s.enum.None? && s.anyOf.NoUnion? && s.typeWord == One(ArrayName) && s.items.Some?
  }

  /** The schema of an array's item number `i`. */
  function SchemaOfItem(s: Schema, i: nat): Schema
    requires ReadsItems(s)
  {
    if i < |s.prefix| then s.prefix[i] else s.items.value
  }

  ghost predicate Satisfiable(s: Schema, matches: Matching) {
    exists v: Json :: Accepts(s, v, matches)
  }

  /** Some array has an item number `i`. */
  ghost predicate Reaches(s: Schema, i: nat, matches: Matching)
    requires ReadsItems(s)
  {
    forall k | 0 <= k < i :: Satisfiable(SchemaOfItem(s, k), matches)
  }

  lemma ItemsAccept(s: Schema, items: seq<Json>, matches: Matching)
    requires ReadsItems(s)
    ensures Accepts(s, Arr(items), matches) <==> forall i | 0 <= i < |items| :: Accepts(SchemaOfItem(s, i), items[i], matches)
    ensures TypeOf(s) == ArrayOf(TypeOf(s.items.value))
  {
    assert Accepts(s, Arr(items), matches) <==> AcceptsItems(s, items, matches);
    if AcceptsItems(s, items, matches) {
      forall i | 0 <= i < |items| ensures Accepts(SchemaOfItem(s, i), items[i], matches) {}
    }
    if forall i | 0 <= i < |items| :: Accepts(SchemaOfItem(s, i), items[i], matches) {
      forall i | 0 <= i < |s.prefix| && i < |items| ensures Accepts(s.prefix[i], items[i], matches) {
        assert Accepts(SchemaOfItem(s, i), items[i], matches);
      }
      forall i | |s.prefix| <= i < |items| ensures Accepts(s.items.value, items[i], matches) {
        assert Accepts(SchemaOfItem(s, i), items[i], matches);
      }
    }
  }

  /** Items in front of number `i`, if an array can have them. */
  lemma {:induction false} ItemsBefore(s: Schema, i: nat, matches: Matching) returns (items: seq<Json>)
    requires ReadsItems(s) && Reaches(s, i, matches)
    ensures |items| == i && forall k | 0 <= k < i :: Accepts(SchemaOfItem(s, k), items[k], matches)
  {
    if i == 0 {
      items := [];
    } else {
      var before := ItemsBefore(s, i - 1, matches);
      assert Satisfiable(SchemaOfItem(s, i - 1), matches);
      var x: Json :| Accepts(SchemaOfItem(s, i - 1), x, matches);
      items := before + [x];
    }
  }

  lemma ItemsWithin(s: Schema, items: seq<Json>, matches: Matching)
    requires ReadsItems(s) && Accepts(s, Arr(items), matches)
    requires forall i: nat | i <= |s.prefix| && Reaches(s, i, matches) :: Within(SchemaOfItem(s, i), TypeOf(s.items.value), matches)
    ensures Has(TypeOf(s), Arr(items))
  {
    ItemsAccept(s, items, matches);
    forall k | 0 <= k < |items| ensures Has(TypeOf(s.items.value), items[k]) {
      var i := if k < |s.prefix| then k else |s.prefix|;
      forall j | 0 <= j < i ensures Satisfiable(SchemaOfItem(s, j), matches) {
        assert Accepts(SchemaOfItem(s, j), items[j], matches);
      }
      assert Reaches(s, i, matches);
    }
  }

  /**
   The exact condition: an array with `items` keeps its meaning if and only if, at each place
   of the prefix and behind it that an array can reach, what the schema of that place lets
   through inhabits the type of `items`.
   */
  lemma ItemsAreSoundExactlyWhen(s: Schema, matches: Matching)
    requires ReadsItems(s)
    ensures Sound(s, matches) <==>
      forall i: nat | i <= |s.prefix| && Reaches(s, i, matches) :: Within(SchemaOfItem(s, i), TypeOf(s.items.value), matches)
  {
    if forall i: nat | i <= |s.prefix| && Reaches(s, i, matches) :: Within(SchemaOfItem(s, i), TypeOf(s.items.value), matches) {
      forall v: Json | Accepts(s, v, matches) ensures Has(TypeOf(s), v) { ItemsWithin(s, v.items, matches); }
    }
    if Sound(s, matches) {
      forall i: nat | i <= |s.prefix| && Reaches(s, i, matches) ensures Within(SchemaOfItem(s, i), TypeOf(s.items.value), matches) {
        var front := ItemsBefore(s, i, matches);
        forall x: Json | Accepts(SchemaOfItem(s, i), x, matches) ensures Has(TypeOf(s.items.value), x) {
          LastItemInhabits(s, front, x, matches);
        }
      }
    }
  }

  lemma LastItemInhabits(s: Schema, front: seq<Json>, x: Json, matches: Matching)
    requires ReadsItems(s) && Sound(s, matches) && Accepts(SchemaOfItem(s, |front|), x, matches)
    requires forall k | 0 <= k < |front| :: Accepts(SchemaOfItem(s, k), front[k], matches)
    ensures Has(TypeOf(s.items.value), x)
  {
    ItemsAccept(s, front + [x], matches);
    assert Has(TypeOf(s), Arr(front + [x]));
    assert (front + [x])[|front|] == x;
  }

  lemma TypeOnlyIsSatisfiable(typeWord: TypeWord, matches: Matching)
    requires typeWord != OneOf([])
    ensures Satisfiable(TypeOnly(typeWord), matches)
  {
    var name := match typeWord case NoType => NullName case One(name) => name case OneOf(names) => names[0];
    var v := match name
      case StringName => Str("")
      case NumberName => Num(0.0)
      case IntegerName => Num(0.0)
      case BooleanName => Bool(true)
      case NullName => Null
      case ArrayName => Arr([])
      case ObjectName => Obj(map[]);
    assert IsOfType(name, v);
    assert Accepts(TypeOnly(typeWord), v, matches);
  }

  /** For a prefix of schemas that each say a type only, and some type at least, the structure decides. */
  lemma TypedPrefixIsSoundExactlyWhen(s: Schema, typeWords: seq<TypeWord>, matches: Matching)
    requires ReadsItems(s) && Translatable(s.items.value) && |s.prefix| == |typeWords|
    requires forall i | 0 <= i < |typeWords| :: s.prefix[i] == TypeOnly(typeWords[i]) && typeWords[i] != OneOf([])
    ensures Sound(s, matches) <==> forall i | 0 <= i < |typeWords| :: CoversUnder(typeWords[i], TypeOf(s.items.value))
  {
    var t := TypeOf(s.items.value);
    ItemsAreSoundExactlyWhen(s, matches);
    forall i | 0 <= i < |typeWords|
      ensures Satisfiable(SchemaOfItem(s, i), matches) && (Within(SchemaOfItem(s, i), t, matches) <==> CoversUnder(typeWords[i], t))
    {
      TypeOnlyIsSatisfiable(typeWords[i], matches);
      TypeOnlyWithinExactlyWhen(typeWords[i], t, matches);
    }
    forall i: nat | i <= |s.prefix| ensures Reaches(s, i, matches) {}
    forall v: Json | Accepts(s.items.value, v, matches) ensures Has(t, v) { TranslationIsSound(s.items.value, v, matches); }
    assert Within(SchemaOfItem(s, |s.prefix|), t, matches);
  }

  /** Such a schema exists: a string in front of numbers. */
  lemma PrefixIsMisread(matches: Matching)
    ensures var s := Keywords(None, NoUnion, One(ArrayName), Some(TypeOnly(One(NumberName))), [TypeOnly(One(StringName))], [], [], None, []);
      Accepts(s, Arr([Str("a")]), matches) && TypeOf(s) == ArrayOf(NumberTy) && !Has(TypeOf(s), Arr([Str("a")]))
  {
    var items := [Str("a")];
    assert Accepts(TypeOnly(One(StringName)), items[0], matches);
    assert !Has(NumberTy, items[0]);
  }

  // ---------- Additional properties beside patterns ----------

  /** The translation of the schema is an index signature of the type of `additional`. */
  predicate ReadsAdditional(s: Schema) {
    && s.Keywords? && s.enum.None? && s.anyOf.NoUnion? && s.typeWord == One(ObjectName) && s.properties == []
    && s.additional.Some? && s.additional.value.Keywords?
  }

  /** Whether a property of the name may have the value: for the patterns that match, or else for `additional`. */
  predicate LetsThrough(s: Schema, name: string, x: Json, matches: Matching)
    requires ReadsAdditional(s)
  {
    && (forall i | 0 <= i < |s.patterns| && matches(s.patterns[i].text, name) :: Accepts(s.patterns[i].schema, x, matches))
    && (!HasPattern(s.patterns, name, matches) ==> Accepts(s.additional.value, x, matches))
  }

  lemma FieldsAccept(s: Schema, fields: map<string, Json>, matches: Matching)
    requires ReadsAdditional(s)
    ensures Accepts(s, Obj(fields), matches) <==>
      (forall name | name in s.required :: name in fields) && forall name | name in fields :: LetsThrough(s, name, fields[name], matches)
    ensures TypeOf(s) == IndexTy(TypeOf(s.additional.value))
  {}

  /** Some object is accepted: each required property has a value that is let through. */
  ghost predicate HasRequired(s: Schema, matches: Matching)
    requires ReadsAdditional(s)
  {
    forall name | name in s.required :: exists x: Json :: LetsThrough(s, name, x, matches)
  }

  lemma {:induction false} RequiredFields(s: Schema, names: seq<string>, matches: Matching) returns (fields: map<string, Json>)
    requires ReadsAdditional(s) && HasRequired(s, matches) && forall name | name in names :: name in s.required
    ensures (forall name | name in names :: name in fields) && forall name | name in fields :: LetsThrough(s, name, fields[name], matches)
  {
    if names == [] {
      fields := map[];
    } else {
      var rest := RequiredFields(s, names[1..], matches);
      assert names[0] in s.required;
      var x: Json :| LetsThrough(s, names[0], x, matches);
      fields := rest[names[0] := x];
    }
  }

  /**
   The exact condition: an object of additional properties keeps its meaning if and only if
   what may stand under each name, by the patterns that match it or else by `additional`,
   inhabits the type of `additional`; or no object is accepted at all.
   */
  lemma AdditionalIsSoundExactlyWhen(s: Schema, matches: Matching)
    requires ReadsAdditional(s)
    ensures Sound(s, matches) <==>
      (HasRequired(s, matches) ==> forall name, x | LetsThrough(s, name, x, matches) :: Has(TypeOf(s.additional.value), x))
  {
    if HasRequired(s, matches) ==> forall name, x | LetsThrough(s, name, x, matches) :: Has(TypeOf(s.additional.value), x) {
      forall v: Json | Accepts(s, v, matches) ensures Has(TypeOf(s), v) {
        FieldsAccept(s, v.fields, matches);
        forall name | name in s.required ensures exists x: Json :: LetsThrough(s, name, x, matches) {
          assert LetsThrough(s, name, v.fields[name], matches);
        }
      }
    }
    if Sound(s, matches) && HasRequired(s, matches) {
      var fields := RequiredFields(s, s.required, matches);
      forall name, x | LetsThrough(s, name, x, matches) ensures Has(TypeOf(s.additional.value), x) {
        FieldInhabits(s, fields, name, x, matches);
      }
    }
  }

  lemma FieldInhabits(s: Schema, fields: map<string, Json>, name: string, x: Json, matches: Matching)
    requires ReadsAdditional(s) && Sound(s, matches) && LetsThrough(s, name, x, matches)
    requires (forall name | name in s.required :: name in fields) && forall name | name in fields :: LetsThrough(s, name, fields[name], matches)
    ensures Has(TypeOf(s.additional.value), x)
  {
    var more := fields[name := x];
    FieldsAccept(s, more, matches);
    assert Has(TypeOf(s), Obj(more));
    assert more[name] == x;
  }

  /** For one pattern that says a type only, and that matches some name, the structure decides. */
  lemma TypedPatternIsSoundExactlyWhen(s: Schema, typeWord: TypeWord, name: string, matches: Matching)
    requires ReadsAdditional(s) && s.required == [] && Translatable(s.additional.value)
    requires |s.patterns| == 1 && s.patterns[0].schema == TypeOnly(typeWord) && matches(s.patterns[0].text, name)
    ensures Sound(s, matches) <==> CoversUnder(typeWord, TypeOf(s.additional.value))
  {
    var t := TypeOf(s.additional.value);
    AdditionalIsSoundExactlyWhen(s, matches);
    TypeOnlyWithinExactlyWhen(typeWord, t, matches);
    assert s.patterns[0] in s.patterns;
    forall x: Json ensures LetsThrough(s, name, x, matches) <==> Accepts(TypeOnly(typeWord), x, matches) {}
    forall other, x | LetsThrough(s, other, x, matches) ensures Accepts(TypeOnly(typeWord), x, matches) || Has(t, x) {
      if !HasPattern(s.patterns, other, matches) { TranslationIsSound(s.additional.value, x, matches); }
    }
  }

  /** Such a schema exists: strings under some names beside numbers. */
  lemma PatternIsMisread(matches: Matching)
    requires matches("^x", "x1")
    ensures var s := Keywords(None, NoUnion, One(ObjectName), None, [], [], [], Some(TypeOnly(One(NumberName))), [Pattern("^x", TypeOnly(One(StringName)))]);
      var v := Obj(map["x1" := Str("s")]);
      Accepts(s, v, matches) && TypeOf(s) == IndexTy(NumberTy) && !Has(TypeOf(s), v)
  {
    var number, text := TypeOnly(One(NumberName)), TypeOnly(One(StringName));
    var s := Keywords(None, NoUnion, One(ObjectName), None, [], [], [], Some(number), [Pattern("^x", text)]);
    OneFieldAccepted(s, number, text, matches);
    assert map["x1" := Str("s")]["x1"] == Str("s");
  }

  lemma OneFieldAccepted(s: Schema, additional: Schema, text: Schema, matches: Matching)
    requires s == Keywords(None, NoUnion, One(ObjectName), None, [], [], [], Some(additional), [Pattern("^x", text)])
    requires text == TypeOnly(One(StringName)) && additional.Keywords? && matches("^x", "x1")
    ensures Accepts(s, Obj(map["x1" := Str("s")]), matches)
  {
    assert Accepts(text, Str("s"), matches);
    assert s.patterns[0] in s.patterns && LetsThrough(s, "x1", Str("s"), matches);
    FieldsAccept(s, map["x1" := Str("s")], matches);
  }
}
