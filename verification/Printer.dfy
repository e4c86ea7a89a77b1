/** Printing interface definitions as tokens, and the proof that the parser undoes it. Printing functions take what
    follows the phrase as their last argument. */
module Printer {
  import opened Bytes
  import opened Ast
  import opened Definitions
  import opened Tokens
  import opened ParserSpec

  /** Definitions and class members in the order they are written. */
  datatype Definition =
    | AStruct(s: StructDef) | AnEnum(e: EnumDef) | AClass(c: ClassSource) | AService(v: ServiceDef) | AnError(r: ErrorDef)

  datatype ClassSource = ClassSource(name: string, base: Option<string>, members: seq<Member>, doc: string)

  datatype Source = Source(name: string, definitions: seq<Definition>)

  // ---------------------------------------------------------------- what a source means

  function ClassOf(c: ClassSource): ClassDef {
    AddMembers(ClassDef(c.name, c.base, [], [], [], c.doc), c.members)
  }

  function AddMembers(d: ClassDef, ms: seq<Member>): ClassDef
    decreases |ms|
  {
    if ms == [] then d else AddMembers(AddMember(d, ms[0]), ms[1..])
  }

  function AddDefinition(ns: Namespace, d: Definition): Namespace {
    match d
    case AStruct(s) => ns.(structs := ns.structs + [s])
    case AnEnum(e) => ns.(enums := ns.enums + [e])
    case AClass(c) => ns.(classes := ns.classes + [ClassOf(c)])
    case AService(v) => ns.(services := ns.services + [v])
    case AnError(r) => ns.(errors := ns.errors + [r])
  }

  function AddDefinitions(ns: Namespace, ds: seq<Definition>): Namespace
    decreases |ds|
  {
    if ds == [] then ns else AddDefinitions(AddDefinition(ns, ds[0]), ds[1..])
  }

  function PropertiesAmong(ms: seq<Member>): seq<Property> {
    if ms == [] then [] else (if ms[0].Prop? then [ms[0].property] else []) + PropertiesAmong(ms[1..])
  }

  function ConstructorsAmong(ms: seq<Member>): seq<Constructor> {
    if ms == [] then [] else (if ms[0].Ctor? then [ms[0].constructor_] else []) + ConstructorsAmong(ms[1..])
  }

  function MethodsAmong(ms: seq<Member>): seq<Method> {
    if ms == [] then [] else (if ms[0].Meth? then [ms[0].method_] else []) + MethodsAmong(ms[1..])
  }

  /** The members of one kind are those of that kind at the head and those behind it. */
  lemma AmongFirst(m: Member, rest: seq<Member>)
    ensures PropertiesAmong([m] + rest) == PropertiesAmong([m]) + PropertiesAmong(rest)
    ensures ConstructorsAmong([m] + rest) == ConstructorsAmong([m]) + ConstructorsAmong(rest)
    ensures MethodsAmong([m] + rest) == MethodsAmong([m]) + MethodsAmong(rest)
  {
    var all, one := [m] + rest, [m];
    assert all[0] == m && all[1..] == rest && one[1..] == [];
    assert PropertiesAmong(all) == PropertiesAmong(one) + PropertiesAmong(rest) by {
      hide ConstructorsAmong, MethodsAmong;
      assert PropertiesAmong(one[1..]) == [];
    }
    assert ConstructorsAmong(all) == ConstructorsAmong(one) + ConstructorsAmong(rest) by {
      hide PropertiesAmong, MethodsAmong;
      assert ConstructorsAmong(one[1..]) == [];
    }
    assert MethodsAmong(all) == MethodsAmong(one) + MethodsAmong(rest) by {
      hide PropertiesAmong, ConstructorsAmong;
      assert MethodsAmong(one[1..]) == [];
    }
  }

  lemma OneMember(d: ClassDef, m: Member)
    ensures AddMember(d, m) == d.(properties := d.properties + PropertiesAmong([m]),
                                  constructors := d.constructors + ConstructorsAmong([m]),
                                  methods := d.methods + MethodsAmong([m]))
  {
    assert [m][1..] == [];
    assert PropertiesAmong([]) == [] && ConstructorsAmong([]) == [] && MethodsAmong([]) == [];
    assert d.properties + [] == d.properties && d.constructors + [] == d.constructors && d.methods + [] == d.methods;
  }

  /** Each kind of member goes to its own list, in the order written. */
  lemma {:induction false} MembersSorted(d: ClassDef, ms: seq<Member>)
    ensures AddMembers(d, ms) == d.(properties := d.properties + PropertiesAmong(ms),
                                    constructors := d.constructors + ConstructorsAmong(ms),
                                    methods := d.methods + MethodsAmong(ms))
    decreases |ms|
  {
    if ms == [] {
      assert d.properties + [] == d.properties && d.constructors + [] == d.constructors && d.methods + [] == d.methods;
    } else {
      hide PropertiesAmong, ConstructorsAmong, MethodsAmong, AddMember;
      var first, rest := [ms[0]], ms[1..];
      OneMember(d, ms[0]);
      MembersSorted(AddMember(d, ms[0]), rest);
      AmongFirst(ms[0], rest);
      assert first + rest == ms;
      JoinAssoc(d.properties, PropertiesAmong(first), PropertiesAmong(rest));
      JoinAssoc(d.constructors, ConstructorsAmong(first), ConstructorsAmong(rest));
      JoinAssoc(d.methods, MethodsAmong(first), MethodsAmong(rest));
    }
  }

  lemma JoinAssoc<T>(a: seq<T>, b: seq<T>, c: seq<T>)
    ensures a + b + c == a + (b + c)
  {
  }

  /** The tree of a source: each kind of definition in its own list, in the order written. */
  function Meaning(src: Source): Namespace {
    AddDefinitions(Namespace(src.name, [], [], [], [], []), src.definitions)
  }

  // ---------------------------------------------------------------- printing

  function LineLength(d: string): (n: nat)
    ensures n <= |d| && (n < |d| ==> d[n] == '\n')
    ensures d != [] && d[0] != '\n' ==> n > 0
  {
    if d == "" || d[0] == '\n' then 0 else 1 + LineLength(d[1..])
  }

  /** One comment per line. */
  function LineTokens(d: string, k: Tokens): Tokens
    decreases |d|
  {
    var n := LineLength(d);
    Cons(DocComment(d[..n]), if n == |d| then k else LineTokens(d[n + 1..], k))
  }

  function DocTokens(d: string, k: Tokens): Tokens { if d == "" then k else LineTokens(d, k) }

  function Brackets(n: nat, k: Tokens): Tokens { if n == 0 then k else Cons(LBracket, Cons(RBracket, Brackets(n - 1, k))) }

  function SuffixTokens(t: Type, k: Tokens): Tokens { Brackets(t.dims, if t.isOptional then Cons(Question, k) else k) }

  function BaseToken(b: Base): Token {
    match b
    case Prim(p) => KwPrimitive(p)
    case User(n) => Identifier(n)
  }

  function TypeTokens(t: Type, k: Tokens): (r: Tokens)
    ensures r.Cons? && (r.head.Identifier? || r.head.KwPrimitive?)
  { Cons(BaseToken(t.base), SuffixTokens(t, k)) }

  function FieldTokens(f: Field, k: Tokens): Tokens {
    DocTokens(f.doc, TypeTokens(f.typ, Cons(Identifier(f.name), Cons(Semicolon, k))))
  }

  function FieldsTokens(fs: seq<Field>, k: Tokens): Tokens { if fs == [] then k else FieldTokens(fs[0], FieldsTokens(fs[1..], k)) }

  function BaseTokens(base: Option<string>, k: Tokens): Tokens {
    match base
    case None => k
    case Some(b) => Cons(Colon, Cons(Identifier(b), k))
  }

  function RecordTokens(keyword: Token, name: string, base: Option<string>, fields: seq<Field>, k: Tokens): (r: Tokens)
    ensures r.Cons? && (r.head == keyword)
  {
    Cons(keyword, Cons(Identifier(name), BaseTokens(base, Cons(LBrace, FieldsTokens(fields, Cons(RBrace, k))))))
  }

  function ItemTokens(i: EnumItem, k: Tokens): Tokens {
    DocTokens(i.doc, Cons(Identifier(i.name), match i.value case None => k case Some(v) => Cons(Equals, Cons(Integer(v), k))))
  }

  function MoreItemsTokens(its: seq<EnumItem>, k: Tokens): Tokens {
    if its == [] then k else Cons(Comma, ItemTokens(its[0], MoreItemsTokens(its[1..], k)))
  }

  function ItemsTokens(its: seq<EnumItem>, k: Tokens): Tokens {
    if its == [] then k else ItemTokens(its[0], MoreItemsTokens(its[1..], k))
  }

  function EnumTokens(e: EnumDef, k: Tokens): (r: Tokens)
    ensures r.Cons? && (r.head == if e.isFlags then KwFlags else KwEnum)
  {
    Cons(if e.isFlags then KwFlags else KwEnum, Cons(Identifier(e.name), Cons(LBrace, ItemsTokens(e.items, Cons(RBrace, k)))))
  }

  function ParamTokens(p: Param, k: Tokens): (r: Tokens)
    ensures r.Cons? && (r.head.Identifier? || r.head.KwPrimitive?)
  { TypeTokens(p.typ, Cons(Identifier(p.name), k)) }

  function MoreParamsTokens(ps: seq<Param>, k: Tokens): Tokens {
    if ps == [] then k else Cons(Comma, ParamTokens(ps[0], MoreParamsTokens(ps[1..], k)))
  }

  function ParamsTokens(ps: seq<Param>, k: Tokens): (r: Tokens)
    ensures r.Cons? && (r.head.LParen?)
  {
    Cons(LParen, if ps == [] then Cons(RParen, k) else ParamTokens(ps[0], MoreParamsTokens(ps[1..], Cons(RParen, k))))
  }

  function MoreThrowsTokens(ts: seq<string>, k: Tokens): Tokens {
    if ts == [] then k else Cons(Comma, Cons(Identifier(ts[0]), MoreThrowsTokens(ts[1..], k)))
  }

  function ThrowsTokens(ts: seq<string>, k: Tokens): Tokens {
    if ts == [] then k else Cons(KwThrows, Cons(Identifier(ts[0]), MoreThrowsTokens(ts[1..], k)))
  }

  function SignatureTokens(m: Method, k: Tokens): (r: Tokens)
    ensures r.Cons? && (r.head.LParen?)
  {
    ParamsTokens(m.params, Cons(Arrow, TypeTokens(m.returnType, ThrowsTokens(m.throws, Cons(Semicolon, k)))))
  }

  function MethodTokens(m: Method, k: Tokens): (r: Tokens)
    ensures r.Cons? && (r.head.Identifier? || r.head.KwOptional? || r.head.KwStream?)
  {
    var named := Cons(Identifier(m.name), SignatureTokens(m, k));
    if m.isOptional then Cons(KwOptional, named) else if m.isStream then Cons(KwStream, named) else named
  }

  /** A property of a user-defined type that is not readonly carries its marks behind its name. */
  function PropertyTokens(p: Property, k: Tokens): (r: Tokens)
    ensures r.Cons? && (r.head.Identifier? || r.head.KwPrimitive? || r.head.KwReadonly?)
  {
    if p.readonly_ then Cons(KwReadonly, TypeTokens(p.typ, Cons(Identifier(p.name), Cons(Semicolon, k))))
    else match p.typ.base
      case Prim(_) => TypeTokens(p.typ, Cons(Identifier(p.name), Cons(Semicolon, k)))
      case User(n) => Cons(Identifier(n), Cons(Identifier(p.name), SuffixTokens(p.typ, Cons(Semicolon, k))))
  }

  function MemberTokens(m: Member, className: string, k: Tokens): Tokens {
    match m
    case Prop(p) => DocTokens(p.doc, PropertyTokens(p, k))
    case Ctor(c) => DocTokens(c.doc, Cons(Identifier(className), ParamsTokens(c.params, Cons(Semicolon, k))))
    case Meth(f) => DocTokens(f.doc, MethodTokens(f, k))
  }

  function MembersTokens(ms: seq<Member>, className: string, k: Tokens): Tokens {
    if ms == [] then k else MemberTokens(ms[0], className, MembersTokens(ms[1..], className, k))
  }

  function ClassTokens(c: ClassSource, k: Tokens): (r: Tokens)
    ensures r.Cons? && (r.head.KwClass?)
  {
    Cons(KwClass, Cons(Identifier(c.name), BaseTokens(c.base, Cons(LBrace, MembersTokens(c.members, c.name, Cons(RBrace, k))))))
  }

  function MethodsTokens(ms: seq<Method>, k: Tokens): Tokens {
    if ms == [] then k else DocTokens(ms[0].doc, MethodTokens(ms[0], MethodsTokens(ms[1..], k)))
  }

  function ServiceTokens(v: ServiceDef, k: Tokens): (r: Tokens)
    ensures r.Cons? && (r.head.KwService?)
  {
    Cons(KwService, Cons(Identifier(v.name), Cons(LBrace, MethodsTokens(v.methods, Cons(RBrace, k)))))
  }

  function DocOf(d: Definition): string {
    match d
    case AStruct(s) => s.doc
    case AnEnum(e) => e.doc
    case AClass(c) => c.doc
    case AService(v) => v.doc
    case AnError(r) => r.doc
  }

  function BodyTokens(d: Definition, k: Tokens): (r: Tokens)
    ensures r.Cons? && !r.head.DocComment? && !r.head.Eof?
  {
    match d
    case AStruct(s) => RecordTokens(KwStruct, s.name, s.base, s.fields, k)
    case AnEnum(e) => EnumTokens(e, k)
    case AClass(c) => ClassTokens(c, k)
    case AService(v) => ServiceTokens(v, k)
    case AnError(r) => RecordTokens(KwError, r.name, r.base, r.fields, k)
  }

  function DefinitionsTokens(ds: seq<Definition>, k: Tokens): Tokens {
    if ds == [] then k else DocTokens(DocOf(ds[0]), BodyTokens(ds[0], DefinitionsTokens(ds[1..], k)))
  }

  function Print(src: Source): Tokens {
    Cons(KwNamespace, Cons(Identifier(src.name), Cons(Semicolon, DefinitionsTokens(src.definitions, Nil))))
  }

  // ---------------------------------------------------------------- what can be written down

  /** Documentation that does not start with an empty line. */
  predicate DocFits(d: string) { d == "" || d[0] != '\n' }

  predicate TypeFits(t: Type) { t.isArray <==> t.dims > 0 }

  predicate FieldFits(f: Field) { DocFits(f.doc) && TypeFits(f.typ) }

  predicate ParamsFit(ps: seq<Param>) { forall p :: p in ps ==> TypeFits(p.typ) }

  predicate MethodFits(m: Method) {
    DocFits(m.doc) && ParamsFit(m.params) && TypeFits(m.returnType) && !(m.isOptional && m.isStream)
  }

  predicate MemberFits(m: Member) {
    match m
    case Prop(p) => DocFits(p.doc) && TypeFits(p.typ)
    case Ctor(c) => DocFits(c.doc) && ParamsFit(c.params)
    case Meth(f) => MethodFits(f)
  }

  predicate FieldsFit(fs: seq<Field>) { forall f :: f in fs ==> FieldFits(f) }

  predicate DefinitionFits(d: Definition) {
    DocFits(DocOf(d)) &&
    match d
    case AStruct(s) => FieldsFit(s.fields)
    case AnEnum(e) => forall i :: i in e.items ==> DocFits(i.doc)
    case AClass(c) => forall m :: m in c.members ==> MemberFits(m)
    case AService(v) => forall m :: m in v.methods ==> MethodFits(m)
    case AnError(r) => FieldsFit(r.fields)
  }

  predicate Writable(src: Source) { forall d :: d in src.definitions ==> DefinitionFits(d) }

  /** A member the parser takes for a constructor although it is none. */
  predicate Clashes(m: Member, className: string) {
    match m
    case Prop(p) => !p.readonly_ && p.typ.base == User(className)
    case Ctor(_) => false
    case Meth(f) => !f.isOptional && !f.isStream && f.name == className
  }

  predicate HasClash(d: Definition) {
    d.AClass? && exists m :: m in d.c.members && Clashes(m, d.c.name)
  }

  // ---------------------------------------------------------------- parsing undoes printing, phrase by phrase

  /** A token that ends a type. */
  predicate Stops(k: Tokens) {
    k.Cons? && !k.head.LBracket? && !k.head.Question? && !k.head.DocComment?
  }

  lemma JoinedLines(before: string, d: string, n: nat)
    requires n < |d| && d[n] == '\n' && (before != "" || n > 0)
    ensures Joined(Joined(before, d[..n]), d[n + 1..]) == Joined(before, d)
  {
    assert d == d[..n] + "\n" + d[n + 1..];
  }

  lemma {:induction false} LinesGathered(d: string, k: Tokens, before: string)
    requires before != "" || DocFits(d)
    ensures Skip(LineTokens(d, k), before) == Skip(k, Joined(before, d))
    decreases |d|
  {
    var n := LineLength(d);
    var first := Joined(before, d[..n]);
    if n < |d| {
      LinesGathered(d[n + 1..], k, first);
      JoinedLines(before, d, n);
    } else {
      assert d[..n] == d;
    }
  }

  /** Printed documentation is gathered back exactly when it does not start with an empty line. */
  lemma DocGathered(d: string, k: Tokens)
    requires DocFits(d)
    ensures Skip(DocTokens(d, k), "") == Skip(k, d)
  {
    if d != "" {
      LinesGathered(d, k, "");
      assert Joined("", d) == d;
    }
  }

  function Stripped(d: string): string { if d != "" && d[0] == '\n' then Stripped(d[1..]) else d }

  lemma {:induction false} LinesStripped(d: string, k: Tokens)
    ensures Skip(LineTokens(d, k), "") == Skip(k, Stripped(d))
    decreases |d|
  {
    if DocFits(d) {
      LinesGathered(d, k, "");
      assert Joined("", d) == d;
    } else {
      assert LineLength(d) == 0;
      LinesStripped(d[1..], k);
    }
  }

  /** Any other documentation loses its leading empty lines. */
  lemma DocGatheredIff(d: string)
    ensures Skip(DocTokens(d, Nil), "").doc == Stripped(d)
    ensures Skip(DocTokens(d, Nil), "").doc == d <==> DocFits(d)
  {
    LinesStripped(d, Nil);
    StrippedFits(d);
  }

  lemma {:induction false} StrippedFits(d: string)
    ensures DocFits(Stripped(d)) && (DocFits(d) ==> Stripped(d) == d)
  {
    if !DocFits(d) {
      StrippedFits(d[1..]);
    }
  }

  lemma {:induction false} SuffixParsed(t: Type, n: nat, k: Tokens, doc: string, optional_: bool)
    requires Stops(k) && !t.isOptional
    ensures TypeSuffix(Skip(Brackets(n, if optional_ then Cons(Question, k) else k), doc), t) ==
            Yes(t.(isArray := t.isArray || n > 0, dims := t.dims + n, isOptional := optional_), State(k, doc))
    decreases n
  {
    if n > 0 {
      SuffixParsed(t.(isArray := true, dims := t.dims + 1), n - 1, k, doc, optional_);
    }
  }

  lemma TypeParsed(t: Type, k: Tokens, doc: string)
    requires TypeFits(t) && Stops(k)
    ensures ParseType(State(TypeTokens(t, k), doc)) == Yes(t, State(k, doc))
  {
    SuffixParsed(Type(t.base, false, false, 0), t.dims, k, doc, t.isOptional);
  }

  lemma FieldParsed(f: Field, k: Tokens)
    requires FieldFits(f)
    ensures ParseField(Skip(FieldTokens(f, k), "")) == Yes(f, Skip(k, ""))
    ensures !Current(Skip(FieldTokens(f, k), "")).RBrace? && !Current(Skip(FieldTokens(f, k), "")).Eof?
  {
    var rest := Cons(Identifier(f.name), Cons(Semicolon, k));
    DocGathered(f.doc, TypeTokens(f.typ, rest));
    TypeParsed(f.typ, rest, "");
  }

  lemma {:induction false} FieldsParsed(fs: seq<Field>, k: Tokens, acc: seq<Field>)
    requires FieldsFit(fs)
    ensures ParseFields(Skip(FieldsTokens(fs, Cons(RBrace, k)), ""), acc) == Yes(acc + fs, State(Cons(RBrace, k), ""))
    decreases |fs|
  {
    hide ParseField, FieldTokens, DocTokens;
    if fs == [] {
      assert acc + fs == acc;
    } else {
      FieldParsed(fs[0], FieldsTokens(fs[1..], Cons(RBrace, k)));
      FieldsParsed(fs[1..], k, acc + [fs[0]]);
      assert acc + [fs[0]] + fs[1..] == acc + fs;
    }
  }

  lemma Next(t: Token, k: Tokens)
    requires !t.DocComment?
    ensures var st := State(Cons(t, k), "");
            Current(st) == t && Advance(st) == Skip(k, "") && Skip(Cons(t, k), "") == st == WithoutDoc(st)
  {
  }

  lemma BaseParsed(base: Option<string>, k: Tokens)
    ensures ParseBase(Skip(BaseTokens(base, Cons(LBrace, k)), "")) == Yes(base, State(Cons(LBrace, k), ""))
  {
  }

  lemma RecordParsed(keyword: Token, name: string, base: Option<string>, fields: seq<Field>, k: Tokens)
    requires keyword.KwStruct? || keyword.KwError?
    requires FieldsFit(fields)
    ensures ParseRecord(State(RecordTokens(keyword, name, base, fields, k), ""), keyword) == Yes((name, base, fields), Skip(k, ""))
  {
    hide ParseFields, FieldsTokens, ParseBase, BaseTokens, FieldsFit, Skip, Advance, Current;
    var body := FieldsTokens(fields, Cons(RBrace, k));
    var named := BaseTokens(base, Cons(LBrace, body));
    Next(keyword, Cons(Identifier(name), named));
    Next(Identifier(name), named);
    BaseParsed(base, body);
    Next(LBrace, body);
    FieldsParsed(fields, k, []);
    assert [] + fields == fields;
    Next(RBrace, k);
  }

  lemma ItemParsed(i: EnumItem, k: Tokens)
    requires DocFits(i.doc) && k.Cons? && (k.head.Comma? || k.head.RBrace?)
    ensures ParseEnumItem(Skip(ItemTokens(i, k), "")) == Yes(i, State(k, ""))
    ensures !Current(Skip(ItemTokens(i, k), "")).RBrace?
  {
    DocGathered(i.doc, Cons(Identifier(i.name), match i.value case None => k case Some(v) => Cons(Equals, Cons(Integer(v), k))));
  }

  lemma {:induction false} MoreItemsParsed(its: seq<EnumItem>, k: Tokens, acc: seq<EnumItem>)
    requires forall i :: i in its ==> DocFits(i.doc)
    ensures ParseMoreItems(State(MoreItemsTokens(its, Cons(RBrace, k)), ""), acc) == Yes(acc + its, State(Cons(RBrace, k), ""))
    decreases |its|
  {
    hide ParseEnumItem, ItemTokens;
    if its == [] {
      assert acc + its == acc;
    } else {
      ItemParsed(its[0], MoreItemsTokens(its[1..], Cons(RBrace, k)));
      MoreItemsParsed(its[1..], k, acc + [its[0]]);
      assert acc + [its[0]] + its[1..] == acc + its;
    }
  }

  lemma ItemsParsed(its: seq<EnumItem>, k: Tokens)
    requires forall i :: i in its ==> DocFits(i.doc)
    ensures ParseItems(Skip(ItemsTokens(its, Cons(RBrace, k)), "")) == Yes(its, State(Cons(RBrace, k), ""))
  {
    hide ParseEnumItem, ItemTokens, ParseMoreItems;
    if its != [] {
      ItemParsed(its[0], MoreItemsTokens(its[1..], Cons(RBrace, k)));
      MoreItemsParsed(its[1..], k, [its[0]]);
      assert [its[0]] + its[1..] == its;
    }
  }

  lemma EnumParsed(e: EnumDef, k: Tokens)
    requires forall i :: i in e.items ==> DocFits(i.doc)
    ensures ParseEnum(State(EnumTokens(e, k), ""), e.isFlags) == Yes(e.(doc := ""), Skip(k, ""))
  {
    hide ParseItems, ItemsTokens;
    ItemsParsed(e.items, k);
  }

  lemma ParamParsed(p: Param, k: Tokens)
    requires TypeFits(p.typ) && k.Cons? && !k.head.DocComment?
    ensures ParseParam(State(ParamTokens(p, k), "")) == Yes(p, State(k, ""))
  {
    TypeParsed(p.typ, Cons(Identifier(p.name), k), "");
  }

  lemma {:induction false} MoreParamsParsed(ps: seq<Param>, k: Tokens, acc: seq<Param>)
    requires ParamsFit(ps)
    ensures ParseMoreParams(State(MoreParamsTokens(ps, Cons(RParen, k)), ""), acc) == Yes(acc + ps, State(Cons(RParen, k), ""))
    decreases |ps|
  {
    hide ParseParam, ParamTokens;
    if ps == [] {
      assert acc + ps == acc;
    } else {
      ParamParsed(ps[0], MoreParamsTokens(ps[1..], Cons(RParen, k)));
      MoreParamsParsed(ps[1..], k, acc + [ps[0]]);
      assert acc + [ps[0]] + ps[1..] == acc + ps;
    }
  }

  lemma ParamsParsed(ps: seq<Param>, k: Tokens)
    requires ParamsFit(ps)
    ensures ParseParams(State(ParamsTokens(ps, k), "")) == Yes(ps, Skip(k, ""))
  {
    hide ParseParam, ParamTokens, ParseMoreParams;
    if ps != [] {
      ParamParsed(ps[0], MoreParamsTokens(ps[1..], Cons(RParen, k)));
      MoreParamsParsed(ps[1..], k, [ps[0]]);
      assert [ps[0]] + ps[1..] == ps;
    }
  }

  lemma {:induction false} MoreThrowsParsed(ts: seq<string>, k: Tokens, acc: seq<string>)
    ensures ParseMoreThrows(State(MoreThrowsTokens(ts, Cons(Semicolon, k)), ""), acc) == Yes(acc + ts, State(Cons(Semicolon, k), ""))
    decreases |ts|
  {
    if ts == [] {
      assert acc + ts == acc;
    } else {
      MoreThrowsParsed(ts[1..], k, acc + [ts[0]]);
      assert acc + [ts[0]] + ts[1..] == acc + ts;
    }
  }

  lemma ThrowsParsed(ts: seq<string>, k: Tokens)
    ensures ParseThrows(State(ThrowsTokens(ts, Cons(Semicolon, k)), "")) == Yes(ts, State(Cons(Semicolon, k), ""))
    ensures Stops(ThrowsTokens(ts, Cons(Semicolon, k)))
  {
    if ts != [] {
      MoreThrowsParsed(ts[1..], k, [ts[0]]);
      assert [ts[0]] + ts[1..] == ts;
    }
  }

  lemma SignatureParsed(m: Method, k: Tokens, doc: string)
    requires MethodFits(m)
    ensures ParseSignature(State(SignatureTokens(m, k), ""), m.name, m.isOptional, m.isStream, doc) == Yes(m.(doc := doc), Skip(k, ""))
  {
    hide ParseParams, ParamsTokens, ParseType, TypeTokens, ParseThrows, ThrowsTokens;
    var thrown := ThrowsTokens(m.throws, Cons(Semicolon, k));
    ThrowsParsed(m.throws, k);
    TypeParsed(m.returnType, thrown, "");
    ParamsParsed(m.params, Cons(Arrow, TypeTokens(m.returnType, thrown)));
  }

  lemma MethodParsed(m: Method, k: Tokens)
    requires MethodFits(m)
    ensures ParseMethod(State(MethodTokens(m, k), "")) == Yes(m.(doc := ""), Skip(k, ""))
  {
    SignatureParsed(m, k, "");
  }

  lemma {:induction false} MethodsParsed(ms: seq<Method>, k: Tokens, acc: seq<Method>)
    requires forall m :: m in ms ==> MethodFits(m)
    ensures ParseMethods(Skip(MethodsTokens(ms, Cons(RBrace, k)), ""), acc) == Yes(acc + ms, State(Cons(RBrace, k), ""))
    decreases |ms|
  {
    hide ParseMethod, MethodTokens, DocTokens;
    if ms == [] {
      assert acc + ms == acc;
    } else {
      var rest := MethodsTokens(ms[1..], Cons(RBrace, k));
      assert ms[0] in ms;
      DocGathered(ms[0].doc, MethodTokens(ms[0], rest));
      MethodParsed(ms[0], rest);
      MethodsParsed(ms[1..], k, acc + [ms[0]]);
      assert acc + [ms[0]] + ms[1..] == acc + ms;
    }
  }

  lemma NamedPropertyParsed(p: Property, k: Tokens)
    requires TypeFits(p.typ) && !p.readonly_ && p.typ.base.User?
    ensures ParseNamedProperty(State(Cons(Identifier(p.name), SuffixTokens(p.typ, Cons(Semicolon, k))), ""), p.typ.base.name, p.doc) ==
            Yes(p, Skip(k, ""))
  {
    hide TypeSuffix, Brackets;
    var t, end := p.typ, Cons(Semicolon, k);
    SuffixParsed(Type(t.base, false, false, 0), t.dims, end, "", t.isOptional);
    var marks := Brackets(t.dims, if t.isOptional then Cons(Question, end) else end);
    assert SuffixTokens(t, end) == marks;
    assert ExpectName(State(Cons(Identifier(p.name), marks), "")) == Yes(p.name, Skip(marks, ""));
  }

  lemma PropertyParsed(p: Property, className: string, k: Tokens)
    requires DocFits(p.doc) && TypeFits(p.typ) && !Clashes(Prop(p), className)
    ensures ParseMember(State(PropertyTokens(p, k), p.doc), className) == Yes(Prop(p), Skip(k, ""))
  {
    hide TypeSuffix, SuffixTokens, ParseNamedProperty, ParseType;
    if !p.readonly_ && p.typ.base.User? {
      NamedPropertyParsed(p, k);
    } else {
      TypeParsed(p.typ, Cons(Identifier(p.name), Cons(Semicolon, k)), "");
    }
  }

  /** The order used everywhere else, marks before the name, is not accepted for such a property. */
  lemma MarksBeforeNameRejected(p: Property, className: string, k: Tokens)
    requires !p.readonly_ && p.typ.base.User? && (p.typ.dims > 0 || p.typ.isOptional)
    ensures ParseMember(State(TypeTokens(p.typ, Cons(Identifier(p.name), Cons(Semicolon, k))), p.doc), className) == No
  {
    var named := SuffixTokens(p.typ, Cons(Identifier(p.name), Cons(Semicolon, k)));
    assert !Current(Skip(named, "")).Identifier? && !Current(Skip(named, "")).LParen?;
  }

  lemma MemberParsed(m: Member, className: string, k: Tokens)
    requires MemberFits(m) && !Clashes(m, className)
    ensures ParseMember(Skip(MemberTokens(m, className, k), ""), className) == Yes(m, Skip(k, ""))
    ensures !Current(Skip(MemberTokens(m, className, k), "")).RBrace? && !Current(Skip(MemberTokens(m, className, k), "")).Eof?
  {
    hide ParseSignature, SignatureTokens, ParseParams, ParamsTokens, DocTokens, PropertyTokens;
    match m {
      case Prop(p) =>
        DocGathered(p.doc, PropertyTokens(p, k));
        PropertyParsed(p, className, k);
      case Ctor(c) =>
        DocGathered(c.doc, Cons(Identifier(className), ParamsTokens(c.params, Cons(Semicolon, k))));
        ParamsParsed(c.params, Cons(Semicolon, k));
      case Meth(f) =>
        DocGathered(f.doc, MethodTokens(f, k));
        MethodParsed(f, k);
        SignatureParsed(f, k, f.doc);
    }
  }

  /** A clashing member is never parsed: what follows the class's name is not a constructor. */
  lemma ClashRejected(m: Member, className: string, k: Tokens)
    requires MemberFits(m) && Clashes(m, className)
    ensures ParseMember(Skip(MemberTokens(m, className, k), ""), className) == No
    ensures !Current(Skip(MemberTokens(m, className, k), "")).RBrace? && !Current(Skip(MemberTokens(m, className, k), "")).Eof?
  {
    hide DocTokens;
    if m.Prop? {
      DocGathered(m.property.doc, PropertyTokens(m.property, k));
    } else {
      ClashingMethodRejected(m.method_, className, k);
    }
  }

  lemma ClashingMethodRejected(f: Method, className: string, k: Tokens)
    requires MemberFits(Meth(f)) && Clashes(Meth(f), className)
    ensures var st := Skip(MemberTokens(Meth(f), className, k), "");
            ParseMember(st, className) == No && !Current(st).RBrace? && !Current(st).Eof?
  {
    hide DocTokens, ParseParams, ParamsTokens, ParseSignature, ThrowsTokens, TypeTokens, ParseType;
    DocGathered(f.doc, MethodTokens(f, k));
    ParamsParsed(f.params, Cons(Arrow, TypeTokens(f.returnType, ThrowsTokens(f.throws, Cons(Semicolon, k)))));
  }

  lemma {:induction false} MembersParsed(ms: seq<Member>, d: ClassDef, k: Tokens)
    requires forall m :: m in ms ==> MemberFits(m)
    ensures ParseMembers(Skip(MembersTokens(ms, d.name, Cons(RBrace, k)), ""), d) ==
            if exists m :: m in ms && Clashes(m, d.name) then No else Yes(AddMembers(d, ms), State(Cons(RBrace, k), ""))
    decreases |ms|
  {
    if ms != [] {
      var rest := MembersTokens(ms[1..], d.name, Cons(RBrace, k));
      if Clashes(ms[0], d.name) {
        ClashRejected(ms[0], d.name, rest);
        assert ms[0] in ms;
      } else {
        MemberParsed(ms[0], d.name, rest);
        MembersParsed(ms[1..], AddMember(d, ms[0]), k);
        assert forall m :: m in ms <==> m == ms[0] || m in ms[1..];
      }
    }
  }

  lemma ClassParsed(c: ClassSource, k: Tokens)
    requires forall m :: m in c.members ==> MemberFits(m)
    ensures ParseClass(State(ClassTokens(c, k), "")) ==
            if HasClash(AClass(c)) then No else Yes(ClassOf(c.(doc := "")), Skip(k, ""))
  {
    hide ParseMembers, MembersTokens, AddMembers, Clashes, ParseBase;
    var d := ClassDef(c.name, c.base, [], [], [], "");
    MembersParsed(c.members, d, k);
    BaseParsed(c.base, MembersTokens(c.members, c.name, Cons(RBrace, k)));
  }

  lemma {:induction false} DocIsKept(d: ClassDef, ms: seq<Member>, doc: string)
    ensures AddMembers(d.(doc := doc), ms) == AddMembers(d, ms).(doc := doc)
    decreases |ms|
  {
    if ms != [] {
      assert AddMember(d.(doc := doc), ms[0]) == AddMember(d, ms[0]).(doc := doc);
      DocIsKept(AddMember(d, ms[0]), ms[1..], doc);
    }
  }

  lemma ClassDocIsKept(c: ClassSource)
    ensures ClassOf(c.(doc := "")).(doc := c.doc) == ClassOf(c) && ClassOf(c.(doc := "")).doc == ""
  {
    DocIsKept(ClassDef(c.name, c.base, [], [], [], ""), c.members, c.doc);
    DocIsKept(ClassDef(c.name, c.base, [], [], [], ""), c.members, "");
  }

  lemma StructParsed(s: StructDef, k: Tokens)
    requires FieldsFit(s.fields)
    ensures ParseStruct(State(BodyTokens(AStruct(s), k), "")) == Yes(s.(doc := ""), Skip(k, ""))
  {
    hide ParseRecord, RecordTokens, FieldsFit;
    RecordParsed(KwStruct, s.name, s.base, s.fields, k);
  }

  lemma ErrorParsed(r: ErrorDef, k: Tokens)
    requires FieldsFit(r.fields)
    ensures ParseError(State(BodyTokens(AnError(r), k), "")) == Yes(r.(doc := ""), Skip(k, ""))
  {
    hide ParseRecord, RecordTokens, FieldsFit;
    RecordParsed(KwError, r.name, r.base, r.fields, k);
  }

  lemma ServiceParsed(v: ServiceDef, k: Tokens)
    requires forall m :: m in v.methods ==> MethodFits(m)
    ensures ParseService(State(ServiceTokens(v, k), "")) == Yes(v.(doc := ""), Skip(k, ""))
  {
    hide ParseMethods, MethodsTokens, MethodFits;
    var body := MethodsTokens(v.methods, Cons(RBrace, k));
    MethodsParsed(v.methods, k, []);
    assert [] + v.methods == v.methods;
    assert Advance(State(Cons(LBrace, body), "")) == Skip(body, "");
  }

  lemma DefinitionParsed(d: Definition, ns: Namespace, k: Tokens)
    requires DefinitionFits(d)
    ensures ParseDefinition(State(BodyTokens(d, k), DocOf(d)), ns) ==
            if HasClash(d) then No else Yes(AddDefinition(ns, d), Skip(k, ""))
  {
    hide ParseStruct, ParseError, ParseEnum, EnumTokens, ParseClass, ClassTokens, ParseService, ServiceTokens, RecordTokens,
         ClassOf, FieldsFit, MethodFits, MemberFits, Clashes;
    match d {
      case AStruct(s) => StructParsed(s, k);
      case AnEnum(e) => EnumParsed(e, k);
      case AClass(c) =>
        ClassParsed(c, k);
        ClassDocIsKept(c);
      case AService(v) => ServiceParsed(v, k);
      case AnError(r) => ErrorParsed(r, k);
    }
  }

  lemma {:induction false} DefinitionsParsed(ds: seq<Definition>, ns: Namespace)
    requires forall d :: d in ds ==> DefinitionFits(d)
    ensures ParseDefinitions(Skip(DefinitionsTokens(ds, Nil), ""), ns) ==
            if exists d :: d in ds && HasClash(d) then No else Yes(AddDefinitions(ns, ds), State(Nil, ""))
    decreases |ds|
  {
    hide ParseDefinition, BodyTokens, DocTokens, HasClash, AddDefinition;
    if ds != [] {
      var rest := DefinitionsTokens(ds[1..], Nil);
      assert ds[0] in ds;
      DocGathered(DocOf(ds[0]), BodyTokens(ds[0], rest));
      DefinitionParsed(ds[0], ns, rest);
      if HasClash(ds[0]) {
        assert ds[0] in ds;
      } else {
        DefinitionsParsed(ds[1..], AddDefinition(ns, ds[0]));
        assert forall d :: d in ds <==> d == ds[0] || d in ds[1..];
      }
    }
  }

  /** Parsing undoes printing: a written source gives back its tree, whatever the order of its definitions and
      members, unless some class has a member the parser takes for a constructor; then it is rejected. */
  lemma ParseUndoesPrint(src: Source)
    requires Writable(src)
    ensures Parse(Print(src)) ==
            if exists d :: d in src.definitions && HasClash(d) then No else Yes(Meaning(src), State(Nil, ""))
  {
    DefinitionsParsed(src.definitions, Namespace(src.name, [], [], [], [], []));
  }

  // ---------------------------------------------------------------- every tree has a source

  function MembersOf(d: ClassDef): seq<Member>
    decreases |d.properties| + |d.constructors| + |d.methods|
  {
    if d.methods != [] then
      MembersOf(d.(methods := d.methods[..|d.methods| - 1])) + [Meth(d.methods[|d.methods| - 1])]
    else if d.constructors != [] then
      MembersOf(d.(constructors := d.constructors[..|d.constructors| - 1])) + [Ctor(d.constructors[|d.constructors| - 1])]
    else if d.properties != [] then
      MembersOf(d.(properties := d.properties[..|d.properties| - 1])) + [Prop(d.properties[|d.properties| - 1])]
    else []
  }

  function SourceOf(d: ClassDef): ClassSource { ClassSource(d.name, d.base, MembersOf(d), d.doc) }

  lemma {:induction false} AddMembersSnoc(d: ClassDef, ms: seq<Member>, m: Member)
    ensures AddMembers(d, ms + [m]) == AddMember(AddMembers(d, ms), m)
    decreases |ms|
  {
    if ms == [] {
      assert [m][1..] == [] && ms + [m] == [m];
    } else {
      assert (ms + [m])[1..] == ms[1..] + [m];
      AddMembersSnoc(AddMember(d, ms[0]), ms[1..], m);
    }
  }

  lemma {:induction false} ClassHasSource(d: ClassDef)
    ensures ClassOf(SourceOf(d)) == d
    decreases |d.properties| + |d.constructors| + |d.methods|
  {
    var empty := ClassDef(d.name, d.base, [], [], [], d.doc);
    var ms := MembersOf(d);
    if ms != [] {
      var e := if d.methods != [] then d.(methods := d.methods[..|d.methods| - 1])
               else if d.constructors != [] then d.(constructors := d.constructors[..|d.constructors| - 1])
               else d.(properties := d.properties[..|d.properties| - 1]);
      ClassHasSource(e);
      AddMembersSnoc(empty, MembersOf(e), ms[|ms| - 1]);
    }
  }

  function Size(ns: Namespace): nat { |ns.enums| + |ns.structs| + |ns.classes| + |ns.services| + |ns.errors| }

  /** A tree without its last definition, and that definition. */
  function Detach(ns: Namespace): (r: (Namespace, Definition))
    requires Size(ns) > 0
    ensures Size(r.0) == Size(ns) - 1 && r.0.name == ns.name
  {
    if ns.errors != [] then
      (ns.(errors := ns.errors[..|ns.errors| - 1]), AnError(ns.errors[|ns.errors| - 1]))
    else if ns.services != [] then
      (ns.(services := ns.services[..|ns.services| - 1]), AService(ns.services[|ns.services| - 1]))
    else if ns.classes != [] then
      (ns.(classes := ns.classes[..|ns.classes| - 1]), AClass(SourceOf(ns.classes[|ns.classes| - 1])))
    else if ns.structs != [] then
      (ns.(structs := ns.structs[..|ns.structs| - 1]), AStruct(ns.structs[|ns.structs| - 1]))
    else (ns.(enums := ns.enums[..|ns.enums| - 1]), AnEnum(ns.enums[|ns.enums| - 1]))
  }

  function DefinitionsOf(ns: Namespace): seq<Definition>
    decreases Size(ns)
  {
    if Size(ns) == 0 then [] else DefinitionsOf(Detach(ns).0) + [Detach(ns).1]
  }

  lemma DetachedFits(ns: Namespace)
    requires Size(ns) > 0
    ensures AddDefinition(Detach(ns).0, Detach(ns).1) == ns
  {
    hide ClassOf, SourceOf;
    if ns.errors == [] && ns.services == [] && ns.classes != [] {
      ClassHasSource(ns.classes[|ns.classes| - 1]);
    }
  }

  lemma {:induction false} AddDefinitionsSnoc(ns: Namespace, ds: seq<Definition>, d: Definition)
    ensures AddDefinitions(ns, ds + [d]) == AddDefinition(AddDefinitions(ns, ds), d)
    decreases |ds|
  {
    if ds == [] {
      assert [d][1..] == [] && ds + [d] == [d];
    } else {
      assert (ds + [d])[1..] == ds[1..] + [d];
      AddDefinitionsSnoc(AddDefinition(ns, ds[0]), ds[1..], d);
    }
  }

  /** Every tree is the meaning of some source. */
  lemma {:induction false} TreeHasSource(ns: Namespace)
    ensures Meaning(Source(ns.name, DefinitionsOf(ns))) == ns
    decreases Size(ns)
  {
    hide Detach, AddDefinition;
    if Size(ns) > 0 {
      TreeHasSource(Detach(ns).0);
      AddDefinitionsSnoc(Namespace(ns.name, [], [], [], [], []), DefinitionsOf(Detach(ns).0), Detach(ns).1);
      DetachedFits(ns);
    }
  }
}
