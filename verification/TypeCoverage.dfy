/**
 Which types admit every JSON value, told from their structure: the question that decides
 what a translation of cmd/sta/codemode_prompt.go may leave out.
 */
module TypeCoverage {
  import opened SchemaTypes

  function Size(t: Ty): nat {
    match t
    case Union(alts) => 1 + SizeOf(alts)
    case ArrayOf(element) => 1 + Size(element)
    case IndexTy(field) => 1 + Size(field)
    case ObjectTy(members) => 1 + SizeOfMembers(members)
    case _ => 1
  }

  function SizeOf(alts: seq<Ty>): nat {
    if alts == [] then 0 else Size(alts[0]) + SizeOf(alts[1..])
  }

  function SizeOfMembers(members: seq<Member>): nat {
    if members == [] then 0 else 2 + Size(members[0].ty) + SizeOfMembers(members[1..])
  }

  /** The alternatives of a type, with unions inside unions taken apart. */
  function Parts(t: Ty): (parts: seq<Ty>)
    ensures forall p | p in parts :: !p.Union? && Size(p) <= Size(t)
    ensures SizeOf(parts) <= Size(t)
  {
    if t.Union? then PartsOf(t.alts) else [t]
  }

  function PartsOf(alts: seq<Ty>): (parts: seq<Ty>)
    ensures forall p | p in parts :: !p.Union? && Size(p) <= SizeOf(alts)
    ensures SizeOf(parts) <= SizeOf(alts)
  {
    if alts == [] then []
    else
      SizeAppends(Parts(alts[0]), PartsOf(alts[1..]));
      Parts(alts[0]) + PartsOf(alts[1..])
  }

  lemma {:induction false} SizeAppends(a: seq<Ty>, b: seq<Ty>)
    ensures SizeOf(a + b) == SizeOf(a) + SizeOf(b)
  {
    if a == [] {
      assert a + b == b;
    } else {
      assert (a + b)[1..] == a[1..] + b;
      SizeAppends(a[1..], b);
    }
  }

  lemma {:induction false} HasParts(t: Ty, v: Json)
    ensures Has(t, v) <==> exists p | p in Parts(t) :: Has(p, v)
    decreases t, 1
  {
    if t.Union? {
      HasPartsOf(t.alts, v);
    } else {
      assert t in Parts(t);
    }
  }

  lemma {:induction false} HasPartsOf(alts: seq<Ty>, v: Json)
    ensures (exists i | 0 <= i < |alts| :: Has(alts[i], v)) <==> exists p | p in PartsOf(alts) :: Has(p, v)
    decreases alts, 0
  {
    if alts != [] {
      HasParts(alts[0], v);
      HasPartsOf(alts[1..], v);
      if exists i | 0 <= i < |alts| :: Has(alts[i], v) {
        var i :| 0 <= i < |alts| && Has(alts[i], v);
        if i > 0 { assert Has(alts[1..][i - 1], v); }
      }
    }
  }

  datatype Kind = NullKind | FalseKind | TrueKind | NumberKind | StringKind | ArrayKind | ObjectKind

  function KindOf(v: Json): Kind {
    match v
    case Null => NullKind
    case Bool(truth) => if truth then TrueKind else FalseKind
    case Num(_) => NumberKind
    case Str(_) => StringKind
    case Arr(_) => ArrayKind
    case Obj(_) => ObjectKind
  }

  /** The object types among the alternatives. */
  function Objects(parts: seq<Ty>): (objects: seq<Ty>)
    ensures forall o | o in objects :: o in parts && o.ObjectTy?
    ensures forall o | o in parts && o.ObjectTy? :: o in objects
    ensures SizeOf(objects) <= SizeOf(parts)
  {
    if parts == [] then []
    else if parts[0].ObjectTy? then
      assert ([parts[0]] + Objects(parts[1..]))[1..] == Objects(parts[1..]);
      [parts[0]] + Objects(parts[1..])
    else Objects(parts[1..])
  }

  /** One member of each object type, which an object is to violate. */
  predicate Picks(choice: seq<Member>, objects: seq<Ty>) {
    |choice| == |objects| && forall i | 0 <= i < |choice| :: objects[i].ObjectTy? && choice[i] in objects[i].members
  }

  function TypesNamed(choice: seq<Member>, name: string): (types: seq<Ty>)
    ensures forall m | m in choice && m.name == name :: m.ty in types
    ensures forall t | t in types :: exists m :: m in choice && m.name == name && m.ty == t
  {
    if choice == [] then []
    else if choice[0].name == name then [choice[0].ty] + TypesNamed(choice[1..], name)
    else TypesNamed(choice[1..], name)
  }

  predicate Named(choice: seq<Member>, name: string) {
    exists m | m in choice :: m.name == name
  }

  /** Without the property every picked member of the name is violated. */
  predicate AllRequired(choice: seq<Member>, name: string) {
    forall m | m in choice && m.name == name :: !m.optional
  }

  lemma {:induction false} MemberIsSmaller(members: seq<Member>, m: Member)
    requires m in members
    ensures 2 + Size(m.ty) <= SizeOfMembers(members)
  {
    if m != members[0] { MemberIsSmaller(members[1..], m); }
  }

  lemma {:induction false} PickedSize(choice: seq<Member>, objects: seq<Ty>)
    requires Picks(choice, objects)
    ensures SizeOfMembers(choice) <= SizeOf(objects)
  {
    if choice != [] {
      MemberIsSmaller(objects[0].members, choice[0]);
      PickedSize(choice[1..], objects[1..]);
    }
  }

  lemma {:induction false} NamedSize(choice: seq<Member>, name: string)
    ensures SizeOf(TypesNamed(choice, name)) <= SizeOfMembers(choice)
    ensures Named(choice, name) ==> 2 + SizeOf(TypesNamed(choice, name)) <= SizeOfMembers(choice)
  {
    if choice != [] {
      NamedSize(choice[1..], name);
      if choice[0].name == name {
        assert TypesNamed(choice, name)[1..] == TypesNamed(choice[1..], name);
      } else {
        assert Named(choice, name) ==> Named(choice[1..], name);
      }
    }
  }

  lemma PickedIsSmaller(t: Ty, choice: seq<Member>, name: string)
    requires Picks(choice, Objects(Parts(t))) && Named(choice, name)
    ensures Size(Union(TypesNamed(choice, name))) < Size(t)
  {
    PickedSize(choice, Objects(Parts(t)));
    NamedSize(choice, name);
  }

  /** An object can violate all picked members of one name: without the property, or with a value that none of their types has. */
  ghost predicate Avoidable(t: Ty, choice: seq<Member>, name: string)
    requires Picks(choice, Objects(Parts(t))) && Named(choice, name)
    decreases Size(t), 0
  {
    PickedIsSmaller(t, choice, name);
    AllRequired(choice, name) || !Full(Union(TypesNamed(choice, name)))
  }

  /** Some object violates one member of each object type among the alternatives. */
  ghost predicate Escapes(t: Ty)
    decreases Size(t), 1
  {
    exists choice: seq<Member> :: Picks(choice, Objects(Parts(t))) && forall m | m in choice :: Avoidable(t, choice, m.name)
  }

  /**
   The type has every value of the kind, told from its structure: one alternative has them
   all, or, for objects, no object can violate all the object types together.
   */
  ghost predicate Covers(t: Ty, k: Kind)
    decreases Size(t), 2
  {
    match k
    case ArrayKind => exists p | p in Parts(t) :: p.JsonValue? || (p.ArrayOf? && Full(p.element))
    case ObjectKind => (exists p | p in Parts(t) :: HasAllObjects(p)) || !Escapes(t)
    case _ => exists p | p in Parts(t) :: HasScalars(p, k)
  }

  ghost predicate HasAllObjects(p: Ty)
    decreases Size(p), 0
  {
    p.JsonValue? || p.RecordTy? || (p.IndexTy? && Full(p.field))
  }

  predicate HasScalars(p: Ty, k: Kind) {
    match p
    case JsonValue => true
    case StringTy => k.StringKind?
    case NumberTy => k.NumberKind?
    case BooleanTy => k.FalseKind? || k.TrueKind?
    case NullTy => k.NullKind?
    case Literal(v) => (v.Null? || v.Bool?) && k == KindOf(v)
    case _ => false
  }

  ghost predicate Full(t: Ty)
    decreases Size(t), 3
  {
    forall k: Kind :: Covers(t, k)
  }

  // What is covered is admitted.

  lemma {:induction false} CoveredIsAdmitted(t: Ty, v: Json)
    requires Covers(t, KindOf(v))
    ensures Has(t, v)
    decreases Size(t), 1
  {
    match v
    case Arr(_) => ArrayIsAdmitted(t, v);
    case Obj(_) => ObjectIsAdmitted(t, v);
    case _ => ScalarIsAdmitted(t, v);
  }

  lemma ScalarIsAdmitted(t: Ty, v: Json)
    requires !v.Arr? && !v.Obj? && Covers(t, KindOf(v))
    ensures Has(t, v)
  {
    HasParts(t, v);
    var p :| p in Parts(t) && HasScalars(p, KindOf(v));
    assert Has(p, v);
  }

  lemma {:induction false} ArrayIsAdmitted(t: Ty, v: Json)
    requires v.Arr? && Covers(t, ArrayKind)
    ensures Has(t, v)
    decreases Size(t), 0
  {
    HasParts(t, v);
    var p :| p in Parts(t) && (p.JsonValue? || (p.ArrayOf? && Full(p.element)));
    if p.ArrayOf? {
      forall item | item in v.items ensures Has(p.element, item) { FullAdmits(p.element, item); }
    }
    assert Has(p, v);
  }

  lemma {:induction false} FullAdmits(t: Ty, v: Json)
    requires Full(t)
    ensures Has(t, v)
    decreases Size(t), 2
  {
    CoveredIsAdmitted(t, v);
  }

  lemma {:induction false} ObjectIsAdmitted(t: Ty, v: Json)
    requires v.Obj? && Covers(t, ObjectKind)
    ensures Has(t, v)
    decreases Size(t), 0, 2
  {
    if p :| p in Parts(t) && HasAllObjects(p) {
      PlainIsAdmitted(t, p, v);
      PartIsEnough(t, p, v);
    } else if !Has(t, v) {
      OutsideMeansEscape(t, v);
    }
  }

  lemma PartIsEnough(t: Ty, p: Ty, v: Json)
    requires p in Parts(t) && Has(p, v)
    ensures Has(t, v)
  {
    HasParts(t, v);
  }

  lemma {:induction false} PlainIsAdmitted(t: Ty, p: Ty, v: Json)
    requires v.Obj? && HasAllObjects(p) && Size(p) <= Size(t)
    ensures Has(p, v)
    decreases Size(t), 0, 1
  {
    if p.IndexTy? {
      forall name | name in v.fields ensures Has(p.field, v.fields[name]) { FullAdmits(p.field, v.fields[name]); }
    }
  }

  lemma {:induction false} OutsideMeansEscape(t: Ty, v: Json)
    requires v.Obj? && !Has(t, v)
    ensures Escapes(t)
    decreases Size(t), 0, 1
  {
    HasParts(t, v);
    var choice := Violated(Objects(Parts(t)), v);
    forall m | m in choice ensures Avoidable(t, choice, m.name) { ViolatedIsAvoidable(t, choice, m, v); }
  }

  /** An object outside every object type violates a member of each. */
  lemma {:induction false} Violated(objects: seq<Ty>, v: Json) returns (choice: seq<Member>)
    requires v.Obj? && forall o | o in objects :: o.ObjectTy? && !Has(o, v)
    ensures Picks(choice, objects) && forall m | m in choice :: !Inhabits(m, v.fields)
  {
    if objects == [] {
      choice := [];
    } else {
      var rest := Violated(objects[1..], v);
      var i :| 0 <= i < |objects[0].members| && !Inhabits(objects[0].members[i], v.fields);
      choice := [objects[0].members[i]] + rest;
    }
  }

  lemma {:induction false} ViolatedIsAvoidable(t: Ty, choice: seq<Member>, m: Member, v: Json)
    requires v.Obj? && Picks(choice, Objects(Parts(t))) && m in choice
    requires forall other | other in choice :: !Inhabits(other, v.fields)
    ensures Avoidable(t, choice, m.name)
    decreases Size(t), 0, 0
  {
    PickedIsSmaller(t, choice, m.name);
    if !AllRequired(choice, m.name) {
      var x := ValueThatViolates(choice, m.name, v.fields);
      if Full(Union(TypesNamed(choice, m.name))) { FullAdmits(Union(TypesNamed(choice, m.name)), x); }
    }
  }

  lemma ValueThatViolates(choice: seq<Member>, name: string, fields: map<string, Json>) returns (x: Json)
    requires !AllRequired(choice, name) && forall m | m in choice :: !Inhabits(m, fields)
    ensures !Has(Union(TypesNamed(choice, name)), x)
  {
    assert name in fields;
    x := fields[name];
    var types := TypesNamed(choice, name);
    forall i | 0 <= i < |types| ensures !Has(types[i], x) {
      assert types[i] in types;
      var m :| m in choice && m.name == name && m.ty == types[i];
      assert !Inhabits(m, fields);
    }
  }

  // Of a kind that is not covered, a value is lacking, larger than every literal of the type.

  function Max(a: nat, b: nat): nat { if a < b then b else a }

  /** The names in an object are no longer than this. */
  ghost function Longest(names: set<string>): (n: nat)
    ensures forall name | name in names :: |name| <= n
  {
    if names == {} then 0
    else
      var name :| name in names;
      Max(|name|, Longest(names - {name}))
  }

  ghost function Extent(v: Json): nat {
    match v
    case Num(number) => if number > 0.0 then number.Floor + 1 else 0
    case Str(text) => |text|
    case Arr(items) => |items|
    case Obj(fields) => Longest(fields.Keys)
    case _ => 0
  }

  /** At least the extent of each literal, and the length of each property name. */
  ghost function Bound(parts: seq<Ty>): nat {
    if parts == [] then 0 else Max(BoundOfPart(parts[0]), Bound(parts[1..]))
  }

  ghost function BoundOfPart(p: Ty): nat {
    match p
    case Literal(v) => Extent(v)
    case ObjectTy(members) => BoundOfNames(members)
    case _ => 0
  }

  function BoundOfNames(members: seq<Member>): nat {
    if members == [] then 0 else Max(|members[0].name|, BoundOfNames(members[1..]))
  }

  lemma {:induction false} PartIsBounded(parts: seq<Ty>, p: Ty)
    requires p in parts
    ensures BoundOfPart(p) <= Bound(parts)
  {
    if p != parts[0] { PartIsBounded(parts[1..], p); }
  }

  lemma {:induction false} NameIsBounded(members: seq<Member>, m: Member)
    requires m in members
    ensures |m.name| <= BoundOfNames(members)
  {
    if m != members[0] { NameIsBounded(members[1..], m); }
  }

  function Long(n: nat): string { seq(n, i => 'x') }

  function Padding(n: nat): seq<Json> { seq(n, i => Null) }

  predicate HasValue(fields: map<string, Json>, x: Json) {
    exists name | name in fields :: fields[name] == x
  }

  /** The values as properties with distinct names of at least this length. */
  function Fields(values: seq<Json>, from: nat): (fields: map<string, Json>)
    ensures forall name | name in fields :: |name| >= from
  {
    if values == [] then map[] else Fields(values[1..], from + 1)[Long(from) := values[0]]
  }

  lemma {:induction false} FieldsHold(values: seq<Json>, from: nat, x: Json)
    requires x in values
    ensures HasValue(Fields(values, from), x)
  {
    if x == values[0] {
      assert Fields(values, from)[Long(from)] == x;
    } else {
      FieldsHold(values[1..], from + 1, x);
      var name :| name in Fields(values[1..], from + 1) && Fields(values[1..], from + 1)[name] == x;
      assert Fields(values, from)[name] == x;
    }
  }

  /** A value larger than every literal of the type is none of them. */
  lemma LiteralIsSmaller(parts: seq<Ty>, p: Ty, v: Json)
    requires p in parts && p.Literal? && Extent(v) > Bound(parts)
    ensures !Has(p, v)
  {
    PartIsBounded(parts, p);
  }

  lemma {:induction false} Lacked(t: Ty, k: Kind) returns (v: Json)
    requires !Covers(t, k)
    ensures KindOf(v) == k && !Has(t, v) && (v.Num? ==> v.number == v.number.Floor as real)
    decreases Size(t), 2
  {
    match k
    case ArrayKind => v := ArrayIsLacked(t);
    case ObjectKind => v := ObjectIsLacked(t);
    case _ => v := ScalarIsLacked(t, k);
  }

  lemma {:induction false} LackedBy(t: Ty) returns (v: Json)
    requires !Full(t)
    ensures !Has(t, v)
    decreases Size(t), 3
  {
    var k: Kind :| !Covers(t, k);
    v := Lacked(t, k);
  }

  lemma ScalarIsLacked(t: Ty, k: Kind) returns (v: Json)
    requires !k.ArrayKind? && !k.ObjectKind? && !Covers(t, k)
    ensures KindOf(v) == k && !Has(t, v) && (v.Num? ==> v.number == v.number.Floor as real)
  {
    var n := Bound(Parts(t)) + 1;
    v := match k
      case NullKind => Null
      case FalseKind => Bool(false)
      case TrueKind => Bool(true)
      case NumberKind => Num(n as real)
      case StringKind => Str(Long(n));
    HasParts(t, v);
    forall p | p in Parts(t) ensures !Has(p, v) {
      assert !HasScalars(p, k);
      if p.Literal? && (v.Num? || v.Str?) { LiteralIsSmaller(Parts(t), p, v); }
    }
  }

  lemma {:induction false} ArrayIsLacked(t: Ty) returns (v: Json)
    requires !Covers(t, ArrayKind)
    ensures v.Arr? && !Has(t, v)
    decreases Size(t), 1
  {
    var items := ItemsLacked(t, Parts(t));
    v := Arr(items + Padding(Bound(Parts(t)) + 1));
    HasParts(t, v);
    forall p | p in Parts(t) ensures !Has(p, v) {
      if p.Literal? { LiteralIsSmaller(Parts(t), p, v); }
      if p.ArrayOf? {
        var x :| x in items && !Has(p.element, x);
        assert x in v.items;
      }
    }
  }

  /** One value that each array type among the alternatives does not allow. */
  lemma {:induction false} ItemsLacked(t: Ty, parts: seq<Ty>) returns (items: seq<Json>)
    requires forall p | p in parts && p.ArrayOf? :: Size(p) <= Size(t) && !Full(p.element)
    ensures forall p | p in parts && p.ArrayOf? :: exists x :: x in items && !Has(p.element, x)
    decreases Size(t), 0, |parts|
  {
    items := [];
    if parts != [] {
      var rest := ItemsLacked(t, parts[1..]);
      items := rest;
      if parts[0].ArrayOf? {
        var x := LackedBy(parts[0].element);
        items := [x] + rest;
        assert x in items;
      }
      forall p | p in parts && p.ArrayOf? ensures exists x :: x in items && !Has(p.element, x) {
        if p in parts[1..] {
          var x :| x in rest && !Has(p.element, x);
          assert x in items;
        }
      }
    }
  }

  lemma {:induction false} ValuesLacked(t: Ty, parts: seq<Ty>) returns (values: seq<Json>)
    requires forall p | p in parts && p.IndexTy? :: Size(p) <= Size(t) && !Full(p.field)
    ensures forall p | p in parts && p.IndexTy? :: exists x :: x in values && !Has(p.field, x)
    decreases Size(t), 0, |parts|
  {
    values := [];
    if parts != [] {
      var rest := ValuesLacked(t, parts[1..]);
      values := rest;
      if parts[0].IndexTy? {
        var x := LackedBy(parts[0].field);
        values := [x] + rest;
        assert x in values;
      }
      forall p | p in parts && p.IndexTy? ensures exists x :: x in values && !Has(p.field, x) {
        if p in parts[1..] {
          var x :| x in rest && !Has(p.field, x);
          assert x in values;
        }
      }
    }
  }

  /** A property of this name and value violates all picked members of the name. */
  ghost predicate Violates(choice: seq<Member>, name: string, value: Json) {
    Named(choice, name) && !AllRequired(choice, name) && forall m | m in choice && m.name == name :: !Has(m.ty, value)
  }

  /** Properties that violate the picked members `rest`, unless they are violated without. */
  ghost predicate Provides(choice: seq<Member>, rest: seq<Member>, fields: map<string, Json>) {
    && (forall name | name in fields :: Violates(choice, name, fields[name]))
    && (forall m | m in rest && !AllRequired(choice, m.name) :: m.name in fields)
  }

  lemma ProvidesOneMore(choice: seq<Member>, rest: seq<Member>, fields: map<string, Json>, x: Json)
    requires rest != [] && Provides(choice, rest[1..], fields) && Violates(choice, rest[0].name, x)
    ensures Provides(choice, rest, fields[rest[0].name := x])
  {}

  lemma {:induction false} PropertiesLacked(t: Ty, choice: seq<Member>, rest: seq<Member>) returns (fields: map<string, Json>)
    requires Picks(choice, Objects(Parts(t))) && forall m | m in choice :: Avoidable(t, choice, m.name)
    requires forall m | m in rest :: m in choice
    ensures Provides(choice, rest, fields)
    decreases Size(t), 0, |rest|
  {
    if rest == [] {
      fields := map[];
    } else {
      fields := PropertiesLacked(t, choice, rest[1..]);
      if !AllRequired(choice, rest[0].name) {
        var x := PropertyLacked(t, choice, rest[0]);
        ProvidesOneMore(choice, rest, fields, x);
        fields := fields[rest[0].name := x];
      }
    }
  }

  lemma {:induction false} PropertyLacked(t: Ty, choice: seq<Member>, m: Member) returns (x: Json)
    requires Picks(choice, Objects(Parts(t))) && m in choice && Avoidable(t, choice, m.name) && !AllRequired(choice, m.name)
    ensures Violates(choice, m.name, x)
    decreases Size(t), 0, 0
  {
    PickedIsSmaller(t, choice, m.name);
    x := LackedBy(Union(TypesNamed(choice, m.name)));
    UnionLacksEach(TypesNamed(choice, m.name), x);
  }

  lemma UnionLacksEach(alts: seq<Ty>, v: Json)
    requires !Has(Union(alts), v)
    ensures forall t | t in alts :: !Has(t, v)
  {}

  /** A picked member is violated by such properties, whatever longer names stand beside them. */
  lemma PickedIsViolated(choice: seq<Member>, m: Member, fields: map<string, Json>, more: map<string, Json>)
    requires m in choice && forall name | name in fields :: Violates(choice, name, fields[name])
    requires !AllRequired(choice, m.name) ==> m.name in fields
    requires forall name | name in more :: |name| > |m.name|
    ensures !Inhabits(m, fields + more)
  {}

  lemma PickedFrom(choice: seq<Member>, objects: seq<Ty>, m: Member) returns (o: Ty)
    requires Picks(choice, objects) && m in choice
    ensures o in objects && o.ObjectTy? && m in o.members
  {
    var i :| 0 <= i < |choice| && choice[i] == m;
    o := objects[i];
  }

  lemma PickedNameIsBounded(choice: seq<Member>, parts: seq<Ty>, m: Member)
    requires Picks(choice, Objects(parts)) && m in choice
    ensures |m.name| <= Bound(parts)
  {
    var o := PickedFrom(choice, Objects(parts), m);
    PartIsBounded(parts, o);
    NameIsBounded(o.members, m);
  }

  lemma {:induction false} ObjectIsLacked(t: Ty) returns (v: Json)
    requires !Covers(t, ObjectKind)
    ensures v.Obj? && !Has(t, v)
    decreases Size(t), 1
  {
    var parts := Parts(t);
    var choice: seq<Member> :| Picks(choice, Objects(parts)) && forall m | m in choice :: Avoidable(t, choice, m.name);
    forall p | p in parts && p.IndexTy? ensures !Full(p.field) { assert !HasAllObjects(p); }
    var values := ValuesLacked(t, parts);
    var fields := PropertiesLacked(t, choice, choice);
    var n := Bound(parts) + 1;
    var more := Fields(values + [Null], n);
    v := Obj(fields + more);
    forall m | m in choice ensures !Inhabits(m, fields + more) {
      PickedNameIsBounded(choice, parts, m);
      PickedIsViolated(choice, m, fields, more);
    }
    forall x | x in values + [Null] ensures HasValue(more, x) && HasValue(v.fields, x) {
      FieldsHold(values + [Null], n, x);
      StillHasValue(fields, more, x);
    }
    assert HasLongName(v.fields, n) by { assert Null in values + [Null] && HasValue(more, Null); }
    forall p | p in parts ensures !Has(p, v) {
      assert !HasAllObjects(p);
      PartIsLacked(parts, p, choice, values, v);
    }
    HasParts(t, v);
  }

  lemma StillHasValue(fields: map<string, Json>, more: map<string, Json>, x: Json)
    requires HasValue(more, x)
    ensures HasValue(fields + more, x)
  {
    var name :| name in more && more[name] == x;
    assert (fields + more)[name] == x;
  }

  predicate HasLongName(fields: map<string, Json>, n: nat) {
    exists name | name in fields :: |name| >= n
  }

  /** An object with a long name, that violates each picked member and holds every value that an index type lacks. */
  lemma PartIsLacked(parts: seq<Ty>, p: Ty, choice: seq<Member>, values: seq<Json>, v: Json)
    requires p in parts && !p.Union? && !HasAllObjects(p) && v.Obj? && HasLongName(v.fields, Bound(parts) + 1)
    requires forall x | x in values :: HasValue(v.fields, x)
    requires p.IndexTy? ==> exists x :: x in values && !Has(p.field, x)
    requires Picks(choice, Objects(parts)) && forall m | m in choice :: !Inhabits(m, v.fields)
    ensures !Has(p, v)
  {
    match p
    case Literal(_) => LiteralIsSmaller(parts, p, v);
    case IndexTy(field) =>
      var x :| x in values && !Has(field, x);
      assert HasValue(v.fields, x);
    case ObjectTy(members) =>
      var m := PickedFor(choice, Objects(parts), p);
      MemberIsLacked(members, m, v.fields);
    case _ =>
  }

  lemma PickedFor(choice: seq<Member>, objects: seq<Ty>, p: Ty) returns (m: Member)
    requires Picks(choice, objects) && p in objects
    ensures p.ObjectTy? && m in p.members && m in choice
  {
    var i :| 0 <= i < |objects| && objects[i] == p;
    m := choice[i];
  }

  lemma MemberIsLacked(members: seq<Member>, m: Member, fields: map<string, Json>)
    requires m in members && !Inhabits(m, fields)
    ensures !Has(ObjectTy(members), Obj(fields))
  {
    var k :| 0 <= k < |members| && members[k] == m;
  }

  ghost predicate AdmitsEverything(t: Ty) {
    forall v: Json :: Has(t, v)
  }

  /** A type admits every value exactly if its structure covers every kind. */
  lemma AdmitsEverythingExactlyWhen(t: Ty)
    ensures AdmitsEverything(t) <==> Full(t)
  {
    if Full(t) {
      forall v: Json ensures Has(t, v) { FullAdmits(t, v); }
    } else {
      var v := LackedBy(t);
    }
  }
}
