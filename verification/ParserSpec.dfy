/** The grammar the recursive-descent parser accepts (compiler/parser.cpp), as functions from the state before a phrase
    to its tree and the state after it. */
module ParserSpec {
  import opened Bytes
  import opened Ast
  import opened Definitions
  import opened Tokens

  datatype Parsed<+T> = Yes(value: T, rest: State) | No {
    predicate IsFailure() { No? }
    function PropagateFailure<U>(): Parsed<U> requires No? { No }
    function Extract(): (T, State) requires Yes? { (value, rest) }
  }

  function Expect(st: State, t: Token): (r: Parsed<()>)
    requires !t.Eof?
    ensures r.Yes? ==> Left(r.rest) < Left(st)
  {
    if Current(st) == t then Yes((), Advance(st)) else No
  }

  function ExpectName(st: State): (r: Parsed<string>)
    ensures r.Yes? ==> Left(r.rest) < Left(st)
  {
    if Current(st).Identifier? then Yes(Current(st).name, Advance(st)) else No
  }

  function TypeSuffix(st: State, t: Type): (r: Parsed<Type>)
    ensures r.Yes? ==> Left(r.rest) <= Left(st)
    decreases Left(st)
  {
    if Current(st).LBracket? then
      var (_, s) :- Expect(Advance(st), RBracket);
      TypeSuffix(s, t.(isArray := true, dims := t.dims + 1))
    else if Current(st).Question? then Yes(t.(isOptional := true), Advance(st))
    else Yes(t, st)
  }

  function ParseType(st: State): (r: Parsed<Type>)
    ensures r.Yes? ==> Left(r.rest) < Left(st)
  {
    match Current(st)
    case KwPrimitive(p) => TypeSuffix(Advance(st), Type(Prim(p), false, false, 0))
    case Identifier(n) => TypeSuffix(Advance(st), Type(User(n), false, false, 0))
    case _ => No
  }

  function ParseField(st: State): (r: Parsed<Field>)
    ensures r.Yes? ==> Left(r.rest) < Left(st)
  {
    var (t, s1) :- ParseType(WithoutDoc(st));
    var (name, s2) :- ExpectName(s1);
    var (_, s3) :- Expect(s2, Semicolon);
    Yes(Field(name, t, st.doc), s3)
  }

  function ParseFields(st: State, acc: seq<Field>): (r: Parsed<seq<Field>>)
    ensures r.Yes? ==> Left(r.rest) <= Left(st)
    decreases Left(st)
  {
    if Current(st).RBrace? || Current(st).Eof? then Yes(acc, st)
    else
      var (f, s) :- ParseField(st);
      ParseFields(s, acc + [f])
  }

  function ParseBase(st: State): (r: Parsed<Option<string>>)
    ensures r.Yes? ==> Left(r.rest) <= Left(st)
  {
    if Current(st).Colon? then
      var (base, s) :- ExpectName(Advance(st));
      Yes(Some(base), s)
    else Yes(None, st)
  }

  /** The common shape of structs and errors. */
  function ParseRecord(st: State, keyword: Token): (r: Parsed<(string, Option<string>, seq<Field>)>)
    requires !keyword.Eof?
    ensures r.Yes? ==> Left(r.rest) < Left(st)
  {
    var (_, s1) :- Expect(WithoutDoc(st), keyword);
    var (name, s2) :- ExpectName(s1);
    var (base, s3) :- ParseBase(s2);
    var (_, s4) :- Expect(s3, LBrace);
    var (fields, s5) :- ParseFields(s4, []);
    var (_, s6) :- Expect(s5, RBrace);
    Yes((name, base, fields), s6)
  }

  function ParseStruct(st: State): (r: Parsed<StructDef>)
    ensures r.Yes? ==> Left(r.rest) < Left(st)
  {
    var (d, s) :- ParseRecord(st, KwStruct);
    Yes(StructDef(d.0, d.1, d.2, st.doc), s)
  }

  function ParseError(st: State): (r: Parsed<ErrorDef>)
    ensures r.Yes? ==> Left(r.rest) < Left(st)
  {
    var (d, s) :- ParseRecord(st, KwError);
    Yes(ErrorDef(d.0, d.1, d.2, st.doc), s)
  }

  function ParseEnumItem(st: State): (r: Parsed<EnumItem>)
    ensures r.Yes? ==> Left(r.rest) < Left(st)
  {
    var (name, s) :- ExpectName(WithoutDoc(st));
    if Current(s).Equals? then
      if Current(Advance(s)).Integer?
      then Yes(EnumItem(name, Some(Current(Advance(s)).value), st.doc), Advance(Advance(s)))
      else No
    else Yes(EnumItem(name, None, st.doc), s)
  }

  function ParseMoreItems(st: State, acc: seq<EnumItem>): (r: Parsed<seq<EnumItem>>)
    ensures r.Yes? ==> Left(r.rest) <= Left(st)
    decreases Left(st)
  {
    if !Current(st).Comma? then Yes(acc, st)
    else if Current(Advance(st)).RBrace? then Yes(acc, Advance(st))
    else
      var (item, s) :- ParseEnumItem(Advance(st));
      ParseMoreItems(s, acc + [item])
  }

  function ParseItems(st: State): (r: Parsed<seq<EnumItem>>)
    ensures r.Yes? ==> Left(r.rest) <= Left(st)
  {
    if Current(st).RBrace? then Yes([], st)
    else
      var (item, s) :- ParseEnumItem(st);
      ParseMoreItems(s, [item])
  }

  function ParseEnum(st: State, isFlags: bool): (r: Parsed<EnumDef>)
    ensures r.Yes? ==> Left(r.rest) < Left(st)
  {
    var (_, s1) :- Expect(WithoutDoc(st), if isFlags then KwFlags else KwEnum);
    var (name, s2) :- ExpectName(s1);
    var (_, s3) :- Expect(s2, LBrace);
    var (items, s4) :- ParseItems(s3);
    var (_, s5) :- Expect(s4, RBrace);
    Yes(EnumDef(name, items, isFlags, st.doc), s5)
  }

  function ParseParam(st: State): (r: Parsed<Param>)
    ensures r.Yes? ==> Left(r.rest) < Left(st)
  {
    var (t, s1) :- ParseType(st);
    var (name, s2) :- ExpectName(s1);
    Yes(Param(name, t), s2)
  }

  function ParseMoreParams(st: State, acc: seq<Param>): (r: Parsed<seq<Param>>)
    ensures r.Yes? ==> Left(r.rest) <= Left(st)
    decreases Left(st)
  {
    if Current(st).Comma? then
      var (p, s) :- ParseParam(Advance(st));
      ParseMoreParams(s, acc + [p])
    else Yes(acc, st)
  }

  /** A parenthesized parameter list. */
  function ParseParams(st: State): (r: Parsed<seq<Param>>)
    ensures r.Yes? ==> Left(r.rest) < Left(st)
  {
    var (_, s1) :- Expect(st, LParen);
    var (params, s2) :- if Current(s1).RParen? then Yes([], s1) else
      var (p, s) :- ParseParam(s1);
      ParseMoreParams(s, [p]);
    var (_, s3) :- Expect(s2, RParen);
    Yes(params, s3)
  }

  function ParseMoreThrows(st: State, acc: seq<string>): (r: Parsed<seq<string>>)
    ensures r.Yes? ==> Left(r.rest) <= Left(st)
    decreases Left(st)
  {
    if Current(st).Comma? then
      var (name, s) :- ExpectName(Advance(st));
      ParseMoreThrows(s, acc + [name])
    else Yes(acc, st)
  }

  function ParseThrows(st: State): (r: Parsed<seq<string>>)
    ensures r.Yes? ==> Left(r.rest) <= Left(st)
  {
    if Current(st).KwThrows? then
      var (name, s) :- ExpectName(Advance(st));
      ParseMoreThrows(s, [name])
    else Yes([], st)
  }

  /** A method after its name. */
  function ParseSignature(st: State, name: string, isOptional: bool, isStream: bool, doc: string): (r: Parsed<Method>)
    ensures r.Yes? ==> Left(r.rest) < Left(st)
  {
    var (params, s1) :- ParseParams(st);
    var (_, s2) :- Expect(s1, Arrow);
    var (returnType, s3) :- ParseType(s2);
    var (throws, s4) :- ParseThrows(s3);
    var (_, s5) :- Expect(s4, Semicolon);
    Yes(Method(name, params, returnType, isOptional, isStream, throws, doc), s5)
  }

  function ParseMethod(st: State): (r: Parsed<Method>)
    ensures r.Yes? ==> Left(r.rest) < Left(st)
  {
    var s0 := WithoutDoc(st);
    var isOptional, isStream := Current(s0).KwOptional?, Current(s0).KwStream?;
    var s1 := if isOptional || isStream then Advance(s0) else s0;
    var (name, s2) :- ExpectName(s1);
    ParseSignature(s2, name, isOptional, isStream, st.doc)
  }

  function ParseProperty(st: State): (r: Parsed<Property>)
    ensures r.Yes? ==> Left(r.rest) < Left(st)
  {
    var s0 := WithoutDoc(st);
    var isReadonly := Current(s0).KwReadonly?;
    var s1 := if isReadonly then Advance(s0) else s0;
    var (t, s2) :- ParseType(s1);
    var (name, s3) :- ExpectName(s2);
    var (_, s4) :- Expect(s3, Semicolon);
    Yes(Property(name, t, isReadonly, st.doc), s4)
  }

  function ParseConstructor(st: State): (r: Parsed<Constructor>)
    ensures r.Yes? ==> Left(r.rest) < Left(st)
  {
    var (_, s1) :- ExpectName(WithoutDoc(st));
    var (params, s2) :- ParseParams(s1);
    var (_, s3) :- Expect(s2, Semicolon);
    Yes(Constructor(params, st.doc), s3)
  }

  /** A property whose type name has been read: here the array and optional marks follow the property's name. */
  function ParseNamedProperty(st: State, typeName: string, doc: string): (r: Parsed<Property>)
    ensures r.Yes? ==> Left(r.rest) < Left(st)
  {
    var (name, s1) :- ExpectName(st);
    var (t, s2) :- TypeSuffix(s1, Type(User(typeName), false, false, 0));
    var (_, s3) :- Expect(s2, Semicolon);
    Yes(Property(name, t, false, doc), s3)
  }

  datatype Member = Prop(property: Property) | Ctor(constructor_: Constructor) | Meth(method_: Method)

  /** Documentation found inside a phrase wins over that found before it. */
  function Or(doc: string, before: string): string { if doc == "" then before else doc }

  function ParseMember(st: State, className: string): (r: Parsed<Member>)
    ensures r.Yes? ==> Left(r.rest) < Left(st)
  {
    var doc, s := st.doc, WithoutDoc(st);
    match Current(s)
    case KwReadonly =>
      var (p, e) :- ParseProperty(s);
      Yes(Prop(p.(doc := Or(p.doc, doc))), e)
    case Identifier(n) =>
      if n == className then
        var (c, e) :- ParseConstructor(s);
        Yes(Ctor(c.(doc := Or(c.doc, doc))), e)
      else if Current(Advance(s)).LParen? then
        var (m, e) :- ParseSignature(Advance(s), n, false, false, doc);
        Yes(Meth(m), e)
      else
        var (p, e) :- ParseNamedProperty(Advance(s), n, doc);
        Yes(Prop(p), e)
    case KwStream =>
      var (m, e) :- ParseMethod(s);
      Yes(Meth(m.(doc := Or(m.doc, doc))), e)
    case KwOptional =>
      var (m, e) :- ParseMethod(s);
      Yes(Meth(m.(doc := Or(m.doc, doc))), e)
    case KwPrimitive(_) =>
      var (t, s1) :- ParseType(s);
      var (name, s2) :- ExpectName(s1);
      var (_, s3) :- Expect(s2, Semicolon);
      Yes(Prop(Property(name, t, false, doc)), s3)
    case _ => No
  }

  function AddMember(d: ClassDef, m: Member): ClassDef {
    match m
    case Prop(p) => d.(properties := d.properties + [p])
    case Ctor(c) => d.(constructors := d.constructors + [c])
    case Meth(f) => d.(methods := d.methods + [f])
  }

  function ParseMembers(st: State, d: ClassDef): (r: Parsed<ClassDef>)
    ensures r.Yes? ==> Left(r.rest) <= Left(st)
    decreases Left(st)
  {
    if Current(st).RBrace? || Current(st).Eof? then Yes(d, st)
    else
      var (m, s) :- ParseMember(st, d.name);
      ParseMembers(s, AddMember(d, m))
  }

  function ParseClass(st: State): (r: Parsed<ClassDef>)
    ensures r.Yes? ==> Left(r.rest) < Left(st)
  {
    var (_, s1) :- Expect(WithoutDoc(st), KwClass);
    var (name, s2) :- ExpectName(s1);
    var (base, s3) :- ParseBase(s2);
    var (_, s4) :- Expect(s3, LBrace);
    var (d, s5) :- ParseMembers(s4, ClassDef(name, base, [], [], [], st.doc));
    var (_, s6) :- Expect(s5, RBrace);
    Yes(d, s6)
  }

  function ParseMethods(st: State, acc: seq<Method>): (r: Parsed<seq<Method>>)
    ensures r.Yes? ==> Left(r.rest) <= Left(st)
    decreases Left(st)
  {
    if Current(st).RBrace? || Current(st).Eof? then Yes(acc, st)
    else
      var (m, s) :- ParseMethod(WithoutDoc(st));
      ParseMethods(s, acc + [m.(doc := Or(m.doc, st.doc))])
  }

  function ParseService(st: State): (r: Parsed<ServiceDef>)
    ensures r.Yes? ==> Left(r.rest) < Left(st)
  {
    var (_, s1) :- Expect(WithoutDoc(st), KwService);
    var (name, s2) :- ExpectName(s1);
    var (_, s3) :- Expect(s2, LBrace);
    var (methods, s4) :- ParseMethods(s3, []);
    var (_, s5) :- Expect(s4, RBrace);
    Yes(ServiceDef(name, methods, st.doc), s5)
  }

  /** One definition, added to the namespace's list of its kind. */
  function ParseDefinition(st: State, ns: Namespace): (r: Parsed<Namespace>)
    ensures r.Yes? ==> Left(r.rest) < Left(st)
  {
    var doc, s := st.doc, WithoutDoc(st);
    match Current(s)
    case KwStruct =>
      var (d, e) :- ParseStruct(s);
      Yes(ns.(structs := ns.structs + [d.(doc := Or(d.doc, doc))]), e)
    case KwEnum =>
      var (d, e) :- ParseEnum(s, false);
      Yes(ns.(enums := ns.enums + [d.(doc := Or(d.doc, doc))]), e)
    case KwFlags =>
      var (d, e) :- ParseEnum(s, true);
      Yes(ns.(enums := ns.enums + [d.(doc := Or(d.doc, doc))]), e)
    case KwClass =>
      var (d, e) :- ParseClass(s);
      Yes(ns.(classes := ns.classes + [d.(doc := Or(d.doc, doc))]), e)
    case KwService =>
      var (d, e) :- ParseService(s);
      Yes(ns.(services := ns.services + [d.(doc := Or(d.doc, doc))]), e)
    case KwError =>
      var (d, e) :- ParseError(s);
      Yes(ns.(errors := ns.errors + [d.(doc := Or(d.doc, doc))]), e)
    case _ => No
  }

  function ParseDefinitions(st: State, ns: Namespace): (r: Parsed<Namespace>)
    decreases Left(st)
  {
    if Current(st).Eof? then Yes(ns, st)
    else
      var (more, s) :- ParseDefinition(st, ns);
      ParseDefinitions(s, more)
  }

  function ParseNamespace(st: State): (r: Parsed<Namespace>)
    ensures r.Yes? ==> Left(r.rest) < Left(st)
  {
    var (_, s1) :- Expect(st, KwNamespace);
    var (name, s2) :- ExpectName(s1);
    var (_, s3) :- Expect(s2, Semicolon);
    Yes(Namespace(name, [], [], [], [], []), s3)
  }

  /** A whole file, from a parser primed with its first token. */
  function Parse(ts: Tokens): Parsed<Namespace> {
    var (ns, s) :- ParseNamespace(Skip(ts, ""));
    ParseDefinitions(s, ns)
  }
}
