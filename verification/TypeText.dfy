/**
 The text of a generated type (cmd/sta/codemode_prompt.go): what the translation writes, read
 back by the TypeScript grammar, is a type with the same meaning.  Text is a sequence of
 tokens; white space carries no meaning.
 */
module TypeText {
  import opened Common
  import opened SchemaTypes
  import TypeKeys

  datatype Token =
    | Word(name: string)   // string, number, boolean, null, JsonValue
    | Value(json: Json)    // the JSON text of an enum value
    | Key(text: string)    // the text of a property name
    | Bar | Open | Close | Brackets | LeftBrace | RightBrace | Optional | Colon | Semicolon
    | IndexKey             // [key: string]
    | RecordText           // Record<string, JsonValue>

  // ---------- Writing ----------

  function Print(t: Ty, key: string -> string): seq<Token> {
    match t
    case JsonValue => [Word("JsonValue")]
    case StringTy => [Word("string")]
    case NumberTy => [Word("number")]
    case BooleanTy => [Word("boolean")]
    case NullTy => [Word("null")]
    case Literal(value) => [Value(value)]
    case Union(alts) => PrintAlts(alts, key)
    case ArrayOf(element) => [Open] + Print(element, key) + [Close, Brackets]
    case IndexTy(field) => [LeftBrace, IndexKey, Colon] + Print(field, key) + [RightBrace]
    case RecordTy => [RecordText]
    case ObjectTy(members) => [LeftBrace] + PrintMembers(members, key) + [RightBrace]
  }

  function PrintAlts(alts: seq<Ty>, key: string -> string): seq<Token> {
    if alts == [] then []
    else if |alts| == 1 then Print(alts[0], key)
    else Print(alts[0], key) + [Bar] + PrintAlts(alts[1..], key)
  }

  function PrintMember(m: Member, key: string -> string): seq<Token> {
    [Key(key(m.name))] + (if m.optional then [Optional] else []) + [Colon] + Print(m.ty, key) + [Semicolon]
  }

  function PrintMembers(members: seq<Member>, key: string -> string): seq<Token> {
    if members == [] then [] else PrintMember(members[0], key) + PrintMembers(members[1..], key)
  }

  lemma {:induction false} PrintOneMore(alts: seq<Ty>, t: Ty, key: string -> string)
    ensures PrintAlts(alts + [t], key) == if alts == [] then Print(t, key) else PrintAlts(alts, key) + [Bar] + Print(t, key)
  {
    if alts == [] {
      assert alts + [t] == [t];
    } else {
      assert (alts + [t])[0] == alts[0] && (alts + [t])[1..] == alts[1..] + [t];
      PrintOneMore(alts[1..], t, key);
      if |alts| > 1 { Regroup(Print(alts[0], key), [Bar], PrintAlts(alts[1..], key), [Bar], Print(t, key)); }
    }
  }

  lemma Regroup<T>(a: seq<T>, b: seq<T>, c: seq<T>, d: seq<T>, e: seq<T>)
    ensures a + b + (c + d + e) == a + b + c + d + e
  {}

  lemma {:induction false} UnionTypesOneMore(members: seq<Schema>, m: Schema)
    ensures UnionTypes(members + [m]) == UnionTypes(members) + if m.Keywords? then [TypeOf(m)] else []
  {
    if members == [] {
      assert UnionTypes([m]) == if m.Keywords? then [TypeOf(m)] else [] by { assert [m][1..] == []; }
      assert members + [m] == [m];
    } else {
      UnionTypesOneMore(members[1..], m);
      assert (members + [m])[1..] == members[1..] + [m];
    }
  }

  lemma {:induction false} MembersOneMore(members: seq<Member>, m: Member, key: string -> string)
    ensures PrintMembers(members + [m], key) == PrintMembers(members, key) + PrintMember(m, key)
  {
    if members == [] {
      assert PrintMembers([m], key) == PrintMember(m, key) by { assert [m][1..] == []; }
      assert members + [m] == [m];
    } else {
      MembersOneMore(members[1..], m, key);
      assert (members + [m])[1..] == members[1..] + [m] && (members + [m])[0] == members[0];
      Associates(PrintMember(members[0], key), PrintMembers(members[1..], key), PrintMember(m, key));
    }
  }

  /** Joins the texts of the enum values. */
  method EnumText(values: seq<Json>, key: string -> string) returns (text: seq<Token>)
    ensures text == PrintAlts(Literals(values), key)
  {
    text := [];
    for i := 0 to |values|
      invariant text == PrintAlts(Literals(values[..i]), key)
    {
      PrintOneMore(Literals(values[..i]), Literal(values[i]), key);
      assert Literals(values[..i + 1]) == Literals(values[..i]) + [Literal(values[i])];
      text := (if i == 0 then [] else text + [Bar]) + [Value(values[i])];
    }
    assert values[..|values|] == values;
  }

  /** Joins the texts of the union members that are objects. */
  method UnionText(members: seq<Schema>, key: string -> string) returns (text: seq<Token>, any: bool)
    ensures any == (UnionTypes(members) != []) && text == PrintAlts(UnionTypes(members), key)
    decreases members, 0
  {
    text, any := [], false;
    for i := 0 to |members|
      invariant any == (UnionTypes(members[..i]) != []) && text == PrintAlts(UnionTypes(members[..i]), key)
    {
      assert members[..i + 1] == members[..i] + [members[i]];
      UnionTypesOneMore(members[..i], members[i]);
      if members[i].Keywords? {
        PrintOneMore(UnionTypes(members[..i]), TypeOf(members[i]), key);
        var part := SchemaText(members[i], key);
        text := if any then text + [Bar] + part else part;
        any := true;
      } else {
        assert UnionTypes(members[..i]) + [] == UnionTypes(members[..i]);
      }
    }
    assert members[..|members|] == members;
  }

  /** Writes one property of an object type. */
  method MemberText(p: Property, optional: bool, key: string -> string) returns (text: seq<Token>)
    ensures text == PrintMember(Member(p.name, optional, TypeOf(p.schema)), key)
    decreases p.schema, 2
  {
    var ty := SchemaText(p.schema, key);
    text := [Key(key(p.name))] + (if optional then [Optional] else []) + [Colon] + ty + [Semicolon];
  }

  /** Writes the members of an object type in the order of their names. */
  method ObjectText(s: Schema, key: string -> string) returns (text: seq<Token>)
    requires s.Keywords?
    ensures text == Print(ObjectType(s), key)
    decreases s, 0
  {
    if s.properties == [] {
      if s.additional.Some? && s.additional.value.Keywords? {
        var field := SchemaText(s.additional.value, key);
        return [LeftBrace, IndexKey, Colon] + field + [RightBrace];
      }
      return [RecordText];
    }
    var required := set name | name in s.required;
    ghost var members := ObjectType(s).members;
    var body := [];
    for i := 0 to |s.properties|
      invariant body == PrintMembers(members[..i], key)
    {
      var part := MemberText(s.properties[i], s.properties[i].name !in required, key);
      MembersOneMore(members[..i], members[i], key);
      assert members[..i + 1] == members[..i] + [members[i]];
      body := body + part;
    }
    assert members[..|members|] == members;
    text := [LeftBrace] + body + [RightBrace];
  }

  /** The whole translation, as it writes its text. */
  method SchemaText(s: Schema, key: string -> string) returns (text: seq<Token>)
    ensures text == Print(TypeOf(s), key)
    decreases s, 1
  {
    if s.Always? { return [Word("JsonValue")]; }
    if s.enum.Some? && s.enum.value != [] {
      text := EnumText(s.enum.value, key);
      return;
    }
    if s.anyOf.AnyOf? {
      var union, any := UnionText(s.anyOf.members, key);
      if any { return union; }
    }
    match s.typeWord
    case One(StringName) => text := [Word("string")];
    case One(NumberName) => text := [Word("number")];
    case One(IntegerName) => text := [Word("number")];
    case One(BooleanName) => text := [Word("boolean")];
    case One(NullName) => text := [Word("null")];
    case One(ArrayName) =>
      var items := [Word("JsonValue")];
      if s.items.Some? { items := SchemaText(s.items.value, key); }
      text := [Open] + items + [Close, Brackets];
    case One(ObjectName) => text := ObjectText(s, key);
    case _ => text := [Word("JsonValue")];
  }

  // ---------- Reading ----------

  datatype Read<T> = Bad | Got(value: T, rest: seq<Token>)

  function WordType(name: string): Option<Ty> {
    if name == "JsonValue" then Some(JsonValue)
    else if name == "string" then Some(StringTy)
    else if name == "number" then Some(NumberTy)
    else if name == "boolean" then Some(BooleanTy)
    else if name == "null" then Some(NullTy)
    else None
  }

  function AsType(alts: seq<Ty>): Ty {
    if |alts| == 1 then alts[0] else Union(alts)
  }

  predicate Starts(ts: seq<Token>, t: Token) {
    ts != [] && ts[0] == t
  }

  /** One or more primary types separated by bars. */
  function ReadAlts(ts: seq<Token>, read: string -> Option<string>): (r: Read<seq<Ty>>)
    ensures r.Got? ==> |r.rest| < |ts|
    decreases |ts|, 1
  {
    match ReadPrimary(ts, read)
    case Bad => Bad
    case Got(t, rest) =>
      if !Starts(rest, Bar) then Got([t], rest)
      else
        match ReadAlts(rest[1..], read)
        case Bad => Bad
        case Got(more, end) => Got([t] + more, end)
  }

  function ReadPrimary(ts: seq<Token>, read: string -> Option<string>): (r: Read<Ty>)
    ensures r.Got? ==> |r.rest| < |ts|
    decreases |ts|, 0
  {
    if ts == [] then Bad
    else
      match ts[0]
      case Word(name) => if WordType(name).Some? then Got(WordType(name).value, ts[1..]) else Bad
      case Value(json) => Got(Literal(json), ts[1..])
      case RecordText => Got(RecordTy, ts[1..])
      case Open =>
        (match ReadAlts(ts[1..], read)
         case Bad => Bad
         case Got(alts, rest) =>
           if |rest| >= 2 && rest[0] == Close && rest[1] == Brackets then Got(ArrayOf(AsType(alts)), rest[2..]) else Bad)
      case LeftBrace =>
        if |ts| >= 3 && ts[1] == IndexKey && ts[2] == Colon then
          match ReadAlts(ts[3..], read)
          case Bad => Bad
          case Got(alts, rest) => if Starts(rest, RightBrace) then Got(IndexTy(AsType(alts)), rest[1..]) else Bad
        else
          (match ReadMembers(ts[1..], read)
           case Bad => Bad
           case Got(members, rest) => Got(ObjectTy(members), rest))
      case _ => Bad
  }

  /** Members up to the closing brace. */
  function ReadMembers(ts: seq<Token>, read: string -> Option<string>): (r: Read<seq<Member>>)
    ensures r.Got? ==> |r.rest| < |ts|
    decreases |ts|, 2
  {
    if Starts(ts, RightBrace) then Got([], ts[1..])
    else if ts == [] || !ts[0].Key? then Bad
    else
      var optional := Starts(ts[1..], Optional);
      var tail := if optional then ts[2..] else ts[1..];
      var name := read(ts[0].text);
      if !Starts(tail, Colon) || name.None? then Bad
      else
        match ReadAlts(tail[1..], read)
        case Bad => Bad
        case Got(alts, rest) =>
          if !Starts(rest, Semicolon) then Bad
          else
            match ReadMembers(rest[1..], read)
            case Bad => Bad
            case Got(more, end) => Got([Member(name.value, optional, AsType(alts))] + more, end)
  }

  // ---------- What is read ----------

  /** How property names are written, how a key is read, and the name that is read for each name. */
  datatype Notation = Notation(key: string -> string, read: string -> Option<string>, names: string -> string)

  ghost predicate Agrees(n: Notation) {
    forall name :: n.read(n.key(name)) == Some(n.names(name))
  }

  /** The alternatives a reader sees: unions within unions are flat in the text. */
  function Alts(t: Ty, names: string -> string): seq<Ty> {
    match t
    case Union(alts) => AltsOf(alts, names)
    case ArrayOf(element) => [ArrayOf(AsType(Alts(element, names)))]
    case IndexTy(field) => [IndexTy(AsType(Alts(field, names)))]
    case ObjectTy(members) => [ObjectTy(ReadBack(members, names))]
    case _ => [t]
  }

  function AltsOf(alts: seq<Ty>, names: string -> string): seq<Ty> {
    if alts == [] then [] else Alts(alts[0], names) + AltsOf(alts[1..], names)
  }

  function ReadBack(members: seq<Member>, names: string -> string): seq<Member> {
    if members == [] then []
    else [Member(names(members[0].name), members[0].optional, AsType(Alts(members[0].ty, names)))] + ReadBack(members[1..], names)
  }

  /** No empty unions; the translation makes none. */
  predicate NoEmptyUnion(t: Ty) {
    match t
    case Union(alts) => alts != [] && forall i | 0 <= i < |alts| :: NoEmptyUnion(alts[i])
    case ArrayOf(element) => NoEmptyUnion(element)
    case IndexTy(field) => NoEmptyUnion(field)
    case ObjectTy(members) => forall i | 0 <= i < |members| :: NoEmptyUnion(members[i].ty)
    case _ => true
  }

  /** What follows the alternatives read so far. */
  function Continue(rest: seq<Token>, read: string -> Option<string>): Read<seq<Ty>> {
    if Starts(rest, Bar) then ReadAlts(rest[1..], read) else Got([], rest)
  }

  lemma {:induction false} PrintReadsBack(t: Ty, rest: seq<Token>, n: Notation)
    requires Agrees(n) && NoEmptyUnion(t) && Continue(rest, n.read).Got?
    ensures ReadAlts(Print(t, n.key) + rest, n.read) == Got(Alts(t, n.names) + Continue(rest, n.read).value, Continue(rest, n.read).rest)
    decreases t, 1
  {
    if t.Union? {
      AltsReadBack(t.alts, rest, n);
    } else {
      PrimaryReadsBack(t, rest, n);
      OnePrimary(Print(t, n.key) + rest, Alts(t, n.names)[0], rest, n.read);
      assert Alts(t, n.names) == [Alts(t, n.names)[0]];
    }
  }

  lemma OnePrimary(ts: seq<Token>, t: Ty, rest: seq<Token>, read: string -> Option<string>)
    requires ReadPrimary(ts, read) == Got(t, rest) && Continue(rest, read).Got?
    ensures ReadAlts(ts, read) == Got([t] + Continue(rest, read).value, Continue(rest, read).rest)
  {
    assert [t] + [] == [t];
  }

  lemma {:induction false} PrimaryReadsBack(t: Ty, rest: seq<Token>, n: Notation)
    requires Agrees(n) && NoEmptyUnion(t) && !t.Union?
    ensures |Alts(t, n.names)| == 1 && ReadPrimary(Print(t, n.key) + rest, n.read) == Got(Alts(t, n.names)[0], rest)
    decreases t, 0
  {
    match t
    case ArrayOf(element) => ArrayReadsBack(element, rest, n);
    case IndexTy(field) => IndexReadsBack(field, rest, n);
    case ObjectTy(members) => ObjectReadsBack(members, rest, n);
    case _ => LeafReadsBack(t, rest, n);
  }

  lemma LeafReadsBack(t: Ty, rest: seq<Token>, n: Notation)
    requires !t.Union? && !t.ArrayOf? && !t.IndexTy? && !t.ObjectTy?
    ensures Alts(t, n.names) == [t] && ReadPrimary(Print(t, n.key) + rest, n.read) == Got(t, rest)
  {
    assert (Print(t, n.key) + rest)[1..] == rest;
  }

  lemma {:induction false} ObjectReadsBack(members: seq<Member>, rest: seq<Token>, n: Notation)
    requires Agrees(n) && forall i | 0 <= i < |members| :: NoEmptyUnion(members[i].ty)
    ensures ReadPrimary(Print(ObjectTy(members), n.key) + rest, n.read) == Got(ObjectTy(ReadBack(members, n.names)), rest)
    decreases members, 2
  {
    MembersReadBack(members, rest, n);
    ObjectOpens(members, rest, n.key);
    ReadObject(Print(ObjectTy(members), n.key) + rest, ReadBack(members, n.names), rest, n.read);
  }

  lemma ReadObject(text: seq<Token>, members: seq<Member>, rest: seq<Token>, read: string -> Option<string>)
    requires |text| >= 2 && text[0] == LeftBrace && text[1] != IndexKey && ReadMembers(text[1..], read) == Got(members, rest)
    ensures ReadPrimary(text, read) == Got(ObjectTy(members), rest)
  {}

  lemma ReadMember(text: seq<Token>, name: string, optional: bool, tail: seq<Token>, alts: seq<Ty>, after: seq<Token>,
                   more: seq<Member>, rest: seq<Token>, read: string -> Option<string>)
    requires text != [] && text[0].Key? && read(text[0].text) == Some(name) && (Starts(text[1..], Optional) <==> optional)
    requires tail == (if optional then text[2..] else text[1..]) && Starts(tail, Colon) && ReadAlts(tail[1..], read) == Got(alts, after)
    requires Starts(after, Semicolon) && ReadMembers(after[1..], read) == Got(more, rest)
    ensures ReadMembers(text, read) == Got([Member(name, optional, AsType(alts))] + more, rest)
  {}

  lemma ArrayText(element: Ty, rest: seq<Token>, key: string -> string)
    ensures var text, after := Print(ArrayOf(element), key) + rest, [Close, Brackets] + rest;
      text != [] && text[0] == Open && text[1..] == Print(element, key) + after && after[2..] == rest
  {
    var after := [Close, Brackets] + rest;
    Glue([Open], Print(element, key), [Close, Brackets], rest);
    Cut([Open], Print(element, key) + after);
    Cut([Close, Brackets], rest);
  }

  lemma {:induction false} ArrayReadsBack(element: Ty, rest: seq<Token>, n: Notation)
    requires Agrees(n) && NoEmptyUnion(element)
    ensures ReadPrimary(Print(ArrayOf(element), n.key) + rest, n.read) == Got(ArrayOf(AsType(Alts(element, n.names))), rest)
    decreases element, 2
  {
    PrintReadsBack(element, [Close, Brackets] + rest, n);
    Associates(Alts(element, n.names), [], []);
    ArrayText(element, rest, n.key);
    ReadArray(Print(ArrayOf(element), n.key) + rest, Alts(element, n.names), [Close, Brackets] + rest, n.read);
  }

  lemma ReadArray(text: seq<Token>, alts: seq<Ty>, after: seq<Token>, read: string -> Option<string>)
    requires text != [] && text[0] == Open && ReadAlts(text[1..], read) == Got(alts, after)
    requires |after| >= 2 && after[0] == Close && after[1] == Brackets
    ensures ReadPrimary(text, read) == Got(ArrayOf(AsType(alts)), after[2..])
  {}

  lemma IndexText(field: Ty, rest: seq<Token>, key: string -> string)
    ensures var text, after := Print(IndexTy(field), key) + rest, [RightBrace] + rest;
      |text| >= 3 && text[0] == LeftBrace && text[1] == IndexKey && text[2] == Colon && text[3..] == Print(field, key) + after && after[1..] == rest
  {
    var head, after := [LeftBrace, IndexKey, Colon], [RightBrace] + rest;
    Glue(head, Print(field, key), [RightBrace], rest);
    Cut(head, Print(field, key) + after);
    Cut([RightBrace], rest);
  }

  lemma Cut<T>(a: seq<T>, b: seq<T>)
    ensures (a + b)[..|a|] == a && (a + b)[|a|..] == b
  {}

  lemma {:induction false} IndexReadsBack(field: Ty, rest: seq<Token>, n: Notation)
    requires Agrees(n) && NoEmptyUnion(field)
    ensures ReadPrimary(Print(IndexTy(field), n.key) + rest, n.read) == Got(IndexTy(AsType(Alts(field, n.names))), rest)
    decreases field, 2
  {
    PrintReadsBack(field, [RightBrace] + rest, n);
    Associates(Alts(field, n.names), [], []);
    IndexText(field, rest, n.key);
    ReadIndex(Print(IndexTy(field), n.key) + rest, Alts(field, n.names), [RightBrace] + rest, n.read);
  }

  lemma ReadIndex(text: seq<Token>, alts: seq<Ty>, after: seq<Token>, read: string -> Option<string>)
    requires |text| >= 3 && text[0] == LeftBrace && text[1] == IndexKey && text[2] == Colon && ReadAlts(text[3..], read) == Got(alts, after)
    requires Starts(after, RightBrace)
    ensures ReadPrimary(text, read) == Got(IndexTy(AsType(alts)), after[1..])
  {}

  lemma ObjectOpens(members: seq<Member>, rest: seq<Token>, key: string -> string)
    ensures var text := Print(ObjectTy(members), key) + rest;
      |text| >= 2 && text[0] == LeftBrace && text[1..] == PrintMembers(members, key) + [RightBrace] + rest && text[1] != IndexKey
  {
    var text := Print(ObjectTy(members), key) + rest;
    assert text == [LeftBrace] + (PrintMembers(members, key) + [RightBrace] + rest);
    if members != [] { assert PrintMember(members[0], key)[0] == Key(key(members[0].name)); }
  }

  lemma AltsText(alts: seq<Ty>, rest: seq<Token>, key: string -> string)
    requires |alts| > 1
    ensures PrintAlts(alts, key) + rest == Print(alts[0], key) + ([Bar] + (PrintAlts(alts[1..], key) + rest))
  {
    Glue(Print(alts[0], key), [Bar], PrintAlts(alts[1..], key), rest);
  }

  lemma Glue<T>(a: seq<T>, b: seq<T>, c: seq<T>, d: seq<T>)
    ensures a + b + c + d == a + (b + (c + d))
  {}

  lemma AltsOfOne(t: Ty, key: string -> string, names: string -> string)
    ensures AltsOf([t], names) == Alts(t, names) && PrintAlts([t], key) == Print(t, key)
  {
    assert [t][1..] == [];
  }

  lemma {:induction false} AltsReadBack(alts: seq<Ty>, rest: seq<Token>, n: Notation)
    requires Agrees(n) && alts != [] && (forall i | 0 <= i < |alts| :: NoEmptyUnion(alts[i])) && Continue(rest, n.read).Got?
    ensures ReadAlts(PrintAlts(alts, n.key) + rest, n.read) == Got(AltsOf(alts, n.names) + Continue(rest, n.read).value, Continue(rest, n.read).rest)
    decreases alts, 0
  {
    if |alts| == 1 {
      PrintReadsBack(alts[0], rest, n);
      AltsOfOne(alts[0], n.key, n.names);
      assert alts == [alts[0]];
    } else {
      AltsReadBack(alts[1..], rest, n);
      AltsText(alts, rest, n.key);
      BarReadsBack(alts[0], PrintAlts(alts[1..], n.key) + rest, AltsOf(alts[1..], n.names) + Continue(rest, n.read).value, Continue(rest, n.read).rest, n);
      Associates(Alts(alts[0], n.names), AltsOf(alts[1..], n.names), Continue(rest, n.read).value);
    }
  }

  lemma Associates<T>(a: seq<T>, b: seq<T>, c: seq<T>)
    ensures a + (b + c) == a + b + c && a + [] == a
  {}

  lemma {:induction false} BarReadsBack(t: Ty, tail: seq<Token>, more: seq<Ty>, end: seq<Token>, n: Notation)
    requires Agrees(n) && NoEmptyUnion(t) && ReadAlts(tail, n.read) == Got(more, end)
    ensures ReadAlts(Print(t, n.key) + ([Bar] + tail), n.read) == Got(Alts(t, n.names) + more, end)
    decreases t, 2
  {
    assert ([Bar] + tail)[1..] == tail;
    assert Continue([Bar] + tail, n.read) == Got(more, end);
    PrintReadsBack(t, [Bar] + tail, n);
  }

  /** The tokens of a member, taken apart as the reader does. */
  lemma MemberOpens(m: Member, later: seq<Token>, key: string -> string)
    ensures var text, tail := PrintMember(m, key) + later, [Colon] + (Print(m.ty, key) + ([Semicolon] + later));
      && text != [] && text[0] == Key(key(m.name))
      && (Starts(text[1..], Optional) <==> m.optional)
      && (if m.optional then text[2..] else text[1..]) == tail
      && tail[1..] == Print(m.ty, key) + ([Semicolon] + later) && ([Semicolon] + later)[1..] == later
  {
    var name, mark, ty := [Key(key(m.name))], if m.optional then [Optional] else [], Print(m.ty, key);
    var after := [Semicolon] + later;
    var tail := [Colon] + (ty + after);
    Glue(name + mark + [Colon], ty, [Semicolon], later);
    Glue(name, mark, [Colon], ty + after);
    Cut(name, mark + tail);
    Cut(mark, tail);
    Cut([Colon], ty + after);
    Cut([Semicolon], later);
    if m.optional { assert (name + mark) + tail == name + (mark + tail); Cut(name + mark, tail); }
  }

  lemma MembersText(members: seq<Member>, rest: seq<Token>, key: string -> string)
    ensures var text := PrintMembers(members, key) + [RightBrace] + rest;
      if members == [] then text[0] == RightBrace && text[1..] == rest
      else text == PrintMember(members[0], key) + (PrintMembers(members[1..], key) + [RightBrace] + rest)
  {}

  lemma {:induction false} MembersReadBack(members: seq<Member>, rest: seq<Token>, n: Notation)
    requires Agrees(n) && forall i | 0 <= i < |members| :: NoEmptyUnion(members[i].ty)
    ensures ReadMembers(PrintMembers(members, n.key) + [RightBrace] + rest, n.read) == Got(ReadBack(members, n.names), rest)
    decreases members, 0
  {
    MembersText(members, rest, n.key);
    if members != [] {
      MembersReadBack(members[1..], rest, n);
      MemberReadsBack(members[0], PrintMembers(members[1..], n.key) + [RightBrace] + rest, ReadBack(members[1..], n.names), rest, n);
    }
  }

  lemma {:induction false} MemberReadsBack(m: Member, later: seq<Token>, more: seq<Member>, rest: seq<Token>, n: Notation)
    requires Agrees(n) && NoEmptyUnion(m.ty) && ReadMembers(later, n.read) == Got(more, rest)
    ensures ReadMembers(PrintMember(m, n.key) + later, n.read) == Got([Member(n.names(m.name), m.optional, AsType(Alts(m.ty, n.names)))] + more, rest)
    decreases m, 2
  {
    MemberOpens(m, later, n.key);
    var after := [Semicolon] + later;
    PrintReadsBack(m.ty, after, n);
    Associates(Alts(m.ty, n.names), [], []);
    ReadMember(PrintMember(m, n.key) + later, n.names(m.name), m.optional, [Colon] + (Print(m.ty, n.key) + after), Alts(m.ty, n.names), after, more, rest, n.read);
  }

  // ---------- The meaning survives ----------

  /** The property names in the text of a type. */
  function NamesOf(t: Ty): set<string> {
    match t
    case Union(alts) => NamesOfAlts(alts)
    case ArrayOf(element) => NamesOf(element)
    case IndexTy(field) => NamesOf(field)
    case ObjectTy(members) => NamesOfMembers(members)
    case _ => {}
  }

  function NamesOfAlts(alts: seq<Ty>): set<string> {
    if alts == [] then {} else NamesOf(alts[0]) + NamesOfAlts(alts[1..])
  }

  function NamesOfMembers(members: seq<Member>): set<string> {
    if members == [] then {} else {members[0].name} + NamesOf(members[0].ty) + NamesOfMembers(members[1..])
  }

  predicate Keeps(names: string -> string, some: set<string>) {
    forall name | name in some :: names(name) == name
  }

  lemma {:induction false} AltsMeanTheSame(t: Ty, v: Json, names: string -> string)
    requires NoEmptyUnion(t) && Keeps(names, NamesOf(t))
    ensures Has(AsType(Alts(t, names)), v) <==> Has(t, v)
    ensures Has(Union(Alts(t, names)), v) <==> Has(t, v)
    decreases t, 0
  {
    AsTypeMeansTheSame(Alts(t, names), v);
    match t
    case Union(alts) => AltsOfMeanTheSame(alts, v, names);
    case ArrayOf(element) =>
      if v.Arr? {
        forall item | item in v.items ensures Has(AsType(Alts(element, names)), item) <==> Has(element, item) {
          AltsMeanTheSame(element, item, names);
        }
      }
      SingleMeansTheSame(Alts(t, names)[0], v);
    case IndexTy(field) =>
      if v.Obj? {
        forall name | name in v.fields ensures Has(AsType(Alts(field, names)), v.fields[name]) <==> Has(field, v.fields[name]) {
          AltsMeanTheSame(field, v.fields[name], names);
        }
      }
      SingleMeansTheSame(Alts(t, names)[0], v);
    case ObjectTy(members) =>
      if v.Obj? { MembersMeanTheSame(members, v.fields, names); }
      SingleMeansTheSame(Alts(t, names)[0], v);
    case _ => SingleMeansTheSame(t, v);
  }

  lemma SingleMeansTheSame(t: Ty, v: Json)
    ensures Has(Union([t]), v) <==> Has(t, v)
  {
    assert Has([t][0], v) <==> Has(t, v);
  }

  lemma AsTypeMeansTheSame(alts: seq<Ty>, v: Json)
    ensures Has(AsType(alts), v) <==> Has(Union(alts), v)
  {
    if |alts| == 1 {
      SingleMeansTheSame(alts[0], v);
      assert alts == [alts[0]];
    }
  }

  lemma {:induction false} AltsOfMeanTheSame(alts: seq<Ty>, v: Json, names: string -> string)
    requires (forall i | 0 <= i < |alts| :: NoEmptyUnion(alts[i])) && Keeps(names, NamesOfAlts(alts))
    ensures Has(Union(AltsOf(alts, names)), v) <==> Has(Union(alts), v)
    decreases alts, 0
  {
    if alts == [] {
      assert AltsOf(alts, names) == alts;
    } else {
      AltsMeanTheSame(alts[0], v, names);
      AltsOfMeanTheSame(alts[1..], v, names);
      UnionSplit(Alts(alts[0], names), AltsOf(alts[1..], names), v);
      UnionFirst(alts, v);
    }
  }

  lemma UnionFirst(alts: seq<Ty>, v: Json)
    requires alts != []
    ensures Has(Union(alts), v) <==> Has(alts[0], v) || Has(Union(alts[1..]), v)
  {
    UnionSplit([alts[0]], alts[1..], v);
    SingleMeansTheSame(alts[0], v);
    assert alts == [alts[0]] + alts[1..];
  }

  lemma UnionSplit(a: seq<Ty>, b: seq<Ty>, v: Json)
    ensures Has(Union(a + b), v) <==> Has(Union(a), v) || Has(Union(b), v)
  {
    if Has(Union(a), v) {
      var i :| 0 <= i < |a| && Has(a[i], v);
      assert (a + b)[i] == a[i];
    }
    if Has(Union(b), v) {
      var i :| 0 <= i < |b| && Has(b[i], v);
      assert (a + b)[|a| + i] == b[i];
    }
  }

  lemma {:induction false} MembersMeanTheSame(members: seq<Member>, fields: map<string, Json>, names: string -> string)
    requires (forall i | 0 <= i < |members| :: NoEmptyUnion(members[i].ty)) && Keeps(names, NamesOfMembers(members))
    ensures |ReadBack(members, names)| == |members|
    ensures forall i | 0 <= i < |members| :: Inhabits(ReadBack(members, names)[i], fields) <==> Inhabits(members[i], fields)
    decreases members, 0
  {
    if members != [] {
      MembersMeanTheSame(members[1..], fields, names);
      var name := members[0].name;
      if name in fields { AltsMeanTheSame(members[0].ty, fields[name], names); }
    }
  }

  // ---------- Exactly which types survive ----------

  lemma {:induction false} AltsAreKept(t: Ty, names: string -> string, same: string -> string)
    requires forall name :: same(name) == name
    ensures |Alts(t, names)| == |Alts(t, same)|
    ensures Alts(t, names) == Alts(t, same) <==> Keeps(names, NamesOf(t))
    decreases t, 0
  {
    match t
    case Union(alts) => AltsOfAreKept(alts, names, same);
    case ArrayOf(element) => AltsAreKept(element, names, same); AsTypeIsInjective(Alts(element, names), Alts(element, same));
    case IndexTy(field) => AltsAreKept(field, names, same); AsTypeIsInjective(Alts(field, names), Alts(field, same));
    case ObjectTy(members) => MembersAreKept(members, names, same);
    case _ =>
  }

  lemma AsTypeIsInjective(a: seq<Ty>, b: seq<Ty>)
    requires |a| == |b|
    ensures AsType(a) == AsType(b) <==> a == b
  {}

  lemma {:induction false} AltsOfAreKept(alts: seq<Ty>, names: string -> string, same: string -> string)
    requires forall name :: same(name) == name
    ensures |AltsOf(alts, names)| == |AltsOf(alts, same)|
    ensures AltsOf(alts, names) == AltsOf(alts, same) <==> Keeps(names, NamesOfAlts(alts))
    decreases alts, 0
  {
    if alts != [] {
      AltsAreKept(alts[0], names, same);
      AltsOfAreKept(alts[1..], names, same);
      SamePieces(Alts(alts[0], names), AltsOf(alts[1..], names), Alts(alts[0], same), AltsOf(alts[1..], same));
    }
  }

  lemma SamePieces<T>(a: seq<T>, b: seq<T>, c: seq<T>, d: seq<T>)
    requires |a| == |c|
    ensures a + b == c + d <==> a == c && b == d
  {
    if a + b == c + d {
      assert a == (a + b)[..|a|] && b == (a + b)[|a|..] && c == (c + d)[..|c|] && d == (c + d)[|c|..];
    }
  }

  lemma {:induction false} MembersAreKept(members: seq<Member>, names: string -> string, same: string -> string)
    requires forall name :: same(name) == name
    ensures ReadBack(members, names) == ReadBack(members, same) <==> Keeps(names, NamesOfMembers(members))
    decreases members, 0
  {
    if members != [] {
      var m, more := members[0], members[1..];
      AltsAreKept(m.ty, names, same);
      AsTypeIsInjective(Alts(m.ty, names), Alts(m.ty, same));
      MembersAreKept(more, names, same);
      SamePieces([Member(names(m.name), m.optional, AsType(Alts(m.ty, names)))], ReadBack(more, names),
                 [Member(same(m.name), m.optional, AsType(Alts(m.ty, same)))], ReadBack(more, same));
    }
  }

  // ---------- TypeScript ----------

  /** Names are written by strconv.Quote where needed, and read as TypeScript does. */
  function TypeScript(printable: char -> bool): Notation {
    Notation((name: string) => TypeKeys.KeyText(name, printable), TypeKeys.ReadKey, (name: string) => TypeKeys.ReadName(name, printable))
  }

  function TextOf(t: Ty, printable: char -> bool): seq<Token> {
    Print(t, TypeScript(printable).key)
  }

  function ReadText(text: seq<Token>): Read<seq<Ty>> {
    ReadAlts(text, TypeKeys.ReadKey)
  }

  /** Every property name in the text reads back as itself. */
  predicate NamesSurvive(t: Ty, printable: char -> bool) {
    forall name | name in NamesOf(t) :: TypeKeys.Survives(name, printable)
  }

  lemma TypeScriptAgrees(printable: char -> bool)
    requires TypeKeys.Sensible(printable)
    ensures Agrees(TypeScript(printable))
    ensures forall name :: TypeScript(printable).names(name) == name <==> TypeKeys.Survives(name, printable)
  {
    var n := TypeScript(printable);
    forall name ensures n.read(n.key(name)) == Some(n.names(name)) && (n.names(name) == name <==> TypeKeys.Survives(name, printable)) {
      TypeKeys.KeyReads(name, printable);
      TypeKeys.ReadNameIsTheName(name, printable);
    }
  }

  /** What the text of any type reads back as: its alternatives, under the names TypeScript reads. */
  lemma TextReadsBack(t: Ty, printable: char -> bool)
    requires NoEmptyUnion(t) && TypeKeys.Sensible(printable)
    ensures ReadText(TextOf(t, printable)) == Got(Alts(t, TypeScript(printable).names), [])
  {
    var n := TypeScript(printable);
    TypeScriptAgrees(printable);
    PrintReadsBack(t, [], n);
    assert Print(t, n.key) + [] == Print(t, n.key) && Alts(t, n.names) + [] == Alts(t, n.names);
  }

  /** The text of a type reads back as its own alternatives exactly if every property name survives. */
  lemma TextReadsBackExactlyWhen(t: Ty, printable: char -> bool)
    requires NoEmptyUnion(t) && TypeKeys.Sensible(printable)
    ensures ReadText(TextOf(t, printable)) == Got(Alts(t, (name: string) => name), []) <==> NamesSurvive(t, printable)
  {
    TextReadsBack(t, printable);
    TypeScriptAgrees(printable);
    AltsAreKept(t, TypeScript(printable).names, (name: string) => name);
  }

  /**
   Reading the printed type back gives a type that admits the same values, and leaves no text
   over, if every property name survives.
   */
  lemma ReadBackMeansTheSame(t: Ty, v: Json, printable: char -> bool)
    requires NoEmptyUnion(t) && TypeKeys.Sensible(printable) && NamesSurvive(t, printable)
    ensures var r := ReadText(TextOf(t, printable)); r.Got? && r.rest == [] && (Has(AsType(r.value), v) <==> Has(t, v))
  {
    TextReadsBack(t, printable);
    TypeScriptAgrees(printable);
    AltsMeanTheSame(t, v, TypeScript(printable).names);
  }

  lemma {:induction false} TypesHaveNoEmptyUnion(s: Schema)
    ensures NoEmptyUnion(TypeOf(s))
    decreases s, 0
  {
    if s.Keywords? {
      if s.anyOf.AnyOf? { UnionTypesHaveNoEmptyUnion(s.anyOf.members); }
      if s.items.Some? { TypesHaveNoEmptyUnion(s.items.value); }
      if s.additional.Some? { TypesHaveNoEmptyUnion(s.additional.value); }
      forall i | 0 <= i < |s.properties| ensures NoEmptyUnion(TypeOf(s.properties[i].schema)) {
        TypesHaveNoEmptyUnion(s.properties[i].schema);
      }
    }
  }

  lemma {:induction false} UnionTypesHaveNoEmptyUnion(members: seq<Schema>)
    ensures forall i | 0 <= i < |UnionTypes(members)| :: NoEmptyUnion(UnionTypes(members)[i])
    decreases members, 0
  {
    if members != [] {
      TypesHaveNoEmptyUnion(members[0]);
      UnionTypesHaveNoEmptyUnion(members[1..]);
    }
  }

  /** End to end: a value the schema accepts inhabits the type that is read from the generated text. */
  lemma GeneratedTextAdmits(s: Schema, v: Json, printable: char -> bool, matches: Matching)
    requires Translatable(s) && Accepts(s, v, matches) && TypeKeys.Sensible(printable) && NamesSurvive(TypeOf(s), printable)
    ensures var r := ReadText(TextOf(TypeOf(s), printable)); r.Got? && r.rest == [] && Has(AsType(r.value), v)
  {
    TranslationIsSound(s, v, matches);
    TypesHaveNoEmptyUnion(s);
    ReadBackMeansTheSame(TypeOf(s), v, printable);
  }

  /** Whatever the schema: the type that is read from its text has all accepted values exactly if the translation is sound. */
  lemma GeneratedTextIsSoundExactlyWhen(s: Schema, printable: char -> bool, matches: Matching)
    requires TypeKeys.Sensible(printable) && NamesSurvive(TypeOf(s), printable)
    ensures var r := ReadText(TextOf(TypeOf(s), printable));
      r.Got? && r.rest == [] && (Within(s, AsType(r.value), matches) <==> Sound(s, matches))
  {
    var r := ReadText(TextOf(TypeOf(s), printable));
    TypesHaveNoEmptyUnion(s);
    ReadBackMeansTheSame(TypeOf(s), Null, printable);
    forall v: Json ensures Has(AsType(r.value), v) <==> Has(TypeOf(s), v) { ReadBackMeansTheSame(TypeOf(s), v, printable); }
  }

  /** And it has exactly the accepted values, for the schemas that the translation describes in full. */
  lemma GeneratedTextIsExact(s: Schema, v: Json, printable: char -> bool, matches: Matching)
    requires Exact(s) && TypeKeys.Sensible(printable) && NamesSurvive(TypeOf(s), printable)
    ensures var r := ReadText(TextOf(TypeOf(s), printable));
      r.Got? && r.rest == [] && (Has(AsType(r.value), v) <==> Accepts(s, v, matches))
  {
    TranslationIsExact(s, v, matches);
    TypesHaveNoEmptyUnion(s);
    ReadBackMeansTheSame(TypeOf(s), v, printable);
  }

  /** The condition matters: an object whose one required member is named by a bell is refused by the type that is read. */
  lemma BellSchemaIsMisread(printable: char -> bool, matches: Matching)
    requires TypeKeys.Sensible(printable)
    ensures var bell := [Property("\U{7}", TypeOnly(One(NumberName)))];
      var s := Keywords(None, NoUnion, One(ObjectName), None, [], bell, ["\U{7}"], None, []);
      var v := Obj(map["\U{7}" := Num(1.0)]);
      var r := ReadText(TextOf(TypeOf(s), printable));
      Translatable(s) && Accepts(s, v, matches) && Has(TypeOf(s), v) && r.Got? && !Has(AsType(r.value), v)
  {
    var bell := [Property("\U{7}", TypeOnly(One(NumberName)))];
    var s := Keywords(None, NoUnion, One(ObjectName), None, [], bell, ["\U{7}"], None, []);
    var v := Obj(map["\U{7}" := Num(1.0)]);
    BellIsAccepted(s, matches);
    BellIsReadAsA(s, printable);
    assert !Inhabits([Member("a", false, NumberTy)][0], v.fields);
  }

  lemma BellIsReadAsA(s: Schema, printable: char -> bool)
    requires TypeKeys.Sensible(printable)
    requires s == Keywords(None, NoUnion, One(ObjectName), None, [], [Property("\U{7}", TypeOnly(One(NumberName)))], ["\U{7}"], None, [])
    ensures ReadText(TextOf(TypeOf(s), printable)) == Got([ObjectTy([Member("a", false, NumberTy)])], [])
  {
    var members := ObjectType(s).members;
    assert members == [Member("\U{7}", false, NumberTy)];
    TypesHaveNoEmptyUnion(s);
    TextReadsBack(TypeOf(s), printable);
    TypeKeys.BellIsLost(printable);
    OneMemberIsRead(members[0], TypeScript(printable).names);
  }

  lemma BellIsAccepted(s: Schema, matches: Matching)
    requires s == Keywords(None, NoUnion, One(ObjectName), None, [], [Property("\U{7}", TypeOnly(One(NumberName)))], ["\U{7}"], None, [])
    ensures var v := Obj(map["\U{7}" := Num(1.0)]); Translatable(s) && Accepts(s, v, matches) && Has(TypeOf(s), v)
  {
    var v := Obj(map["\U{7}" := Num(1.0)]);
    assert v.fields["\U{7}"] == Num(1.0) && Accepts(TypeOnly(One(NumberName)), Num(1.0), matches);
    TranslationIsSound(s, v, matches);
  }

  lemma OneMemberIsRead(m: Member, names: string -> string)
    requires m.ty == NumberTy
    ensures Alts(ObjectTy([m]), names) == [ObjectTy([Member(names(m.name), m.optional, NumberTy)])]
  {
    assert Alts(NumberTy, names) == [NumberTy];
    assert [m][1..] == [] && ReadBack([], names) == [];
    assert ReadBack([m], names) == [Member(names(m.name), m.optional, NumberTy)];
  }
}
