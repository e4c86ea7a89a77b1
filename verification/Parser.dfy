/** The recursive-descent parser itself (compiler/parser.cpp): one token of lookahead and the pending documentation are
    updated in place, and every parsing method does what the grammar's function says. */
module Parser {
  import opened Bytes
  import opened Ast
  import opened Definitions
  import opened Tokens
  import T = Tokens
  import Spec = ParserSpec
  import Printer

  /** A parse error leaves the parser unusable. */
  datatype Outcome<+T> = Success(value: T) | Failure {
    predicate IsFailure() { Failure? }
    function PropagateFailure<U>(): Outcome<U> requires Failure? { Failure }
    function Extract(): T requires Success? { value }
  }

  /** A method's outcome and the parser's new state agree with the grammar. */
  predicate Follows<T(==)>(spec: Spec.Parsed<T>, r: Outcome<T>, st: State) {
    match spec
    case Yes(v, s) => r == Success(v) && st == s
    case No => r.Failure?
  }

  class Parser {
    var toks: Tokens
    var doc: string

    function St(): State
      reads this
    {
      State(toks, doc)
    }

    constructor (input: Tokens)
      ensures St() == Skip(input, "")
    {
      toks, doc := input, "";
      new;
      GatherDocs();
    }

    method GatherDocs()
      modifies this
      ensures St() == Skip(old(toks), old(doc))
    {
      while Current(St()).DocComment?
        invariant Skip(toks, doc) == Skip(old(toks), old(doc))
        decreases Length(toks)
      {
        if doc != "" {
          doc := doc + "\n";
        }
        doc := doc + toks.head.text;
        toks := toks.tail;
      }
    }

    method Advance()
      modifies this
      ensures St() == T.Advance(old(St()))
    {
      if toks.Cons? {
        toks := toks.tail;
        GatherDocs();
      }
    }

    method TakeDoc() returns (d: string)
      modifies this
      ensures d == old(doc) && St() == WithoutDoc(old(St()))
    {
      d := doc;
      doc := "";
    }

    method Expect(t: Token) returns (r: Outcome<()>)
      requires !t.Eof?
      modifies this
      ensures Follows(Spec.Expect(old(St()), t), r, St())
    {
      if Current(St()) != t {
        return Failure;
      }
      Advance();
      r := Success(());
    }

    method ExpectName() returns (r: Outcome<string>)
      modifies this
      ensures Follows(Spec.ExpectName(old(St())), r, St())
    {
      var t := Current(St());
      if !t.Identifier? {
        return Failure;
      }
      Advance();
      r := Success(t.name);
    }

    method TypeSuffix(base: Type) returns (r: Outcome<Type>)
      modifies this
      ensures Follows(Spec.TypeSuffix(old(St()), base), r, St())
    {
      var t := base;
      while Current(St()).LBracket?
        invariant Spec.TypeSuffix(St(), t) == Spec.TypeSuffix(old(St()), base)
        decreases Left(St())
      {
        Advance();
        var _ :- Expect(RBracket);
        t := t.(isArray := true, dims := t.dims + 1);
      }
      if Current(St()).Question? {
        Advance();
        t := t.(isOptional := true);
      }
      r := Success(t);
    }

    method ParseType() returns (r: Outcome<Type>)
      modifies this
      ensures Follows(Spec.ParseType(old(St())), r, St())
    {
      match Current(St()) {
        case KwPrimitive(p) =>
          Advance();
          r := TypeSuffix(Type(Prim(p), false, false, 0));
        case Identifier(n) =>
          Advance();
          r := TypeSuffix(Type(User(n), false, false, 0));
        case _ => r := Failure;
      }
    }

    method ParseField() returns (r: Outcome<Field>)
      modifies this
      ensures Follows(Spec.ParseField(old(St())), r, St())
    {
      var d := TakeDoc();
      var t :- ParseType();
      var name :- ExpectName();
      var _ :- Expect(Semicolon);
      r := Success(Field(name, t, d));
    }

    method ParseFields() returns (r: Outcome<seq<Field>>)
      modifies this
      ensures Follows(Spec.ParseFields(old(St()), []), r, St())
    {
      var fields := [];
      while !Current(St()).RBrace? && !Current(St()).Eof?
        invariant Spec.ParseFields(St(), fields) == Spec.ParseFields(old(St()), [])
        decreases Left(St())
      {
        var f :- ParseField();
        fields := fields + [f];
      }
      r := Success(fields);
    }

    method ParseBase() returns (r: Outcome<Option<string>>)
      modifies this
      ensures Follows(Spec.ParseBase(old(St())), r, St())
    {
      if Current(St()).Colon? {
        Advance();
        var base :- ExpectName();
        return Success(Some(base));
      }
      r := Success(None);
    }

    method ParseRecord(keyword: Token) returns (r: Outcome<(string, Option<string>, seq<Field>)>)
      requires !keyword.Eof?
      modifies this
      ensures Follows(Spec.ParseRecord(old(St()), keyword), r, St())
    {
      hide Spec.ParseFields, Spec.ParseBase;
      var _ := TakeDoc();
      var _ :- Expect(keyword);
      var name :- ExpectName();
      var base :- ParseBase();
      var _ :- Expect(LBrace);
      var fields :- ParseFields();
      var _ :- Expect(RBrace);
      r := Success((name, base, fields));
    }

    method ParseStruct() returns (r: Outcome<StructDef>)
      modifies this
      ensures Follows(Spec.ParseStruct(old(St())), r, St())
    {
      var d := doc;
      var s :- ParseRecord(KwStruct);
      r := Success(StructDef(s.0, s.1, s.2, d));
    }

    method ParseError() returns (r: Outcome<ErrorDef>)
      modifies this
      ensures Follows(Spec.ParseError(old(St())), r, St())
    {
      var d := doc;
      var s :- ParseRecord(KwError);
      r := Success(ErrorDef(s.0, s.1, s.2, d));
    }

    method ParseEnumItem() returns (r: Outcome<EnumItem>)
      modifies this
      ensures Follows(Spec.ParseEnumItem(old(St())), r, St())
    {
      var d := TakeDoc();
      var name :- ExpectName();
      if Current(St()).Equals? {
        Advance();
        var t := Current(St());
        if !t.Integer? {
          return Failure;
        }
        Advance();
        return Success(EnumItem(name, Some(t.value), d));
      }
      r := Success(EnumItem(name, None, d));
    }

    method ParseItems() returns (r: Outcome<seq<EnumItem>>)
      modifies this
      ensures Follows(Spec.ParseItems(old(St())), r, St())
    {
      if Current(St()).RBrace? {
        return Success([]);
      }
      var item :- ParseEnumItem();
      var items := [item];
      while Current(St()).Comma?
        invariant Spec.ParseMoreItems(St(), items) == Spec.ParseItems(old(St()))
        decreases Left(St())
      {
        Advance();
        if Current(St()).RBrace? {
          return Success(items);
        }
        item :- ParseEnumItem();
        items := items + [item];
      }
      r := Success(items);
    }

    method ParseEnum(isFlags: bool) returns (r: Outcome<EnumDef>)
      modifies this
      ensures Follows(Spec.ParseEnum(old(St()), isFlags), r, St())
    {
      var d := TakeDoc();
      var _ :- Expect(if isFlags then KwFlags else KwEnum);
      var name :- ExpectName();
      var _ :- Expect(LBrace);
      var items :- ParseItems();
      var _ :- Expect(RBrace);
      r := Success(EnumDef(name, items, isFlags, d));
    }

    method ParseParam() returns (r: Outcome<Param>)
      modifies this
      ensures Follows(Spec.ParseParam(old(St())), r, St())
    {
      var t :- ParseType();
      var name :- ExpectName();
      r := Success(Param(name, t));
    }

    method ParseMoreParams(first: Param) returns (r: Outcome<seq<Param>>)
      modifies this
      ensures Follows(Spec.ParseMoreParams(old(St()), [first]), r, St())
    {
      var params := [first];
      while Current(St()).Comma?
        invariant Spec.ParseMoreParams(St(), params) == Spec.ParseMoreParams(old(St()), [first])
        decreases Left(St())
      {
        Advance();
        var p :- ParseParam();
        params := params + [p];
      }
      r := Success(params);
    }

    method ParseParams() returns (r: Outcome<seq<Param>>)
      modifies this
      ensures Follows(Spec.ParseParams(old(St())), r, St())
    {
      var _ :- Expect(LParen);
      var params := [];
      if !Current(St()).RParen? {
        var p :- ParseParam();
        params :- ParseMoreParams(p);
      }
      var _ :- Expect(RParen);
      r := Success(params);
    }

    method ParseThrows() returns (r: Outcome<seq<string>>)
      modifies this
      ensures Follows(Spec.ParseThrows(old(St())), r, St())
    {
      if !Current(St()).KwThrows? {
        return Success([]);
      }
      Advance();
      var name :- ExpectName();
      var names := [name];
      while Current(St()).Comma?
        invariant Spec.ParseMoreThrows(St(), names) == Spec.ParseThrows(old(St()))
        decreases Left(St())
      {
        Advance();
        name :- ExpectName();
        names := names + [name];
      }
      r := Success(names);
    }

    method ParseSignature(name: string, isOptional: bool, isStream: bool, d: string) returns (r: Outcome<Method>)
      modifies this
      ensures Follows(Spec.ParseSignature(old(St()), name, isOptional, isStream, d), r, St())
    {
      var params :- ParseParams();
      var _ :- Expect(Arrow);
      var returnType :- ParseType();
      var throws :- ParseThrows();
      var _ :- Expect(Semicolon);
      r := Success(Method(name, params, returnType, isOptional, isStream, throws, d));
    }

    method ParseMethod() returns (r: Outcome<Method>)
      modifies this
      ensures Follows(Spec.ParseMethod(old(St())), r, St())
    {
      var d := TakeDoc();
      var isOptional, isStream := false, false;
      if Current(St()).KwOptional? {
        Advance();
        isOptional := true;
      } else if Current(St()).KwStream? {
        Advance();
        isStream := true;
      }
      var name :- ExpectName();
      r := ParseSignature(name, isOptional, isStream, d);
    }

    method ParseProperty() returns (r: Outcome<Property>)
      modifies this
      ensures Follows(Spec.ParseProperty(old(St())), r, St())
    {
      var d := TakeDoc();
      var isReadonly := Current(St()).KwReadonly?;
      if isReadonly {
        Advance();
      }
      var t :- ParseType();
      var name :- ExpectName();
      var _ :- Expect(Semicolon);
      r := Success(Property(name, t, isReadonly, d));
    }

    method ParseConstructor() returns (r: Outcome<Constructor>)
      modifies this
      ensures Follows(Spec.ParseConstructor(old(St())), r, St())
    {
      var d := TakeDoc();
      var _ :- ExpectName();
      var params :- ParseParams();
      var _ :- Expect(Semicolon);
      r := Success(Constructor(params, d));
    }

    method ParseNamedProperty(typeName: string, d: string) returns (r: Outcome<Property>)
      modifies this
      ensures Follows(Spec.ParseNamedProperty(old(St()), typeName, d), r, St())
    {
      var name :- ExpectName();
      var t :- TypeSuffix(Type(User(typeName), false, false, 0));
      var _ :- Expect(Semicolon);
      r := Success(Property(name, t, false, d));
    }

    method ParseMember(className: string) returns (r: Outcome<Spec.Member>)
      modifies this
      ensures Follows(Spec.ParseMember(old(St()), className), r, St())
    {
      hide Spec.ParseProperty, Spec.ParseConstructor, Spec.ParseSignature, Spec.ParseNamedProperty, Spec.ParseMethod;
      var d := TakeDoc();
      match Current(St()) {
        case KwReadonly =>
          var p :- ParseProperty();
          r := Success(Spec.Prop(p.(doc := Spec.Or(p.doc, d))));
        case Identifier(n) =>
          if n == className {
            var c :- ParseConstructor();
            return Success(Spec.Ctor(c.(doc := Spec.Or(c.doc, d))));
          }
          Advance();
          if Current(St()).LParen? {
            var m :- ParseSignature(n, false, false, d);
            r := Success(Spec.Meth(m));
          } else {
            var p :- ParseNamedProperty(n, d);
            r := Success(Spec.Prop(p));
          }
        case KwStream =>
          var m :- ParseMethod();
          r := Success(Spec.Meth(m.(doc := Spec.Or(m.doc, d))));
        case KwOptional =>
          var m :- ParseMethod();
          r := Success(Spec.Meth(m.(doc := Spec.Or(m.doc, d))));
        case KwPrimitive(_) =>
          var t :- ParseType();
          var name :- ExpectName();
          var _ :- Expect(Semicolon);
          r := Success(Spec.Prop(Property(name, t, false, d)));
        case _ => r := Failure;
      }
    }

    method ParseMembers(empty: ClassDef) returns (r: Outcome<ClassDef>)
      modifies this
      ensures Follows(Spec.ParseMembers(old(St()), empty), r, St())
    {
      var def := empty;
      while !Current(St()).RBrace? && !Current(St()).Eof?
        invariant def.name == empty.name
        invariant Spec.ParseMembers(St(), def) == Spec.ParseMembers(old(St()), empty)
        decreases Left(St())
      {
        var m :- ParseMember(def.name);
        def := Spec.AddMember(def, m);
      }
      r := Success(def);
    }

    method ParseClass() returns (r: Outcome<ClassDef>)
      modifies this
      ensures Follows(Spec.ParseClass(old(St())), r, St())
    {
      var d := TakeDoc();
      var _ :- Expect(KwClass);
      var name :- ExpectName();
      var base :- ParseBase();
      var _ :- Expect(LBrace);
      var def :- ParseMembers(ClassDef(name, base, [], [], [], d));
      var _ :- Expect(RBrace);
      r := Success(def);
    }

    method ParseMethods() returns (r: Outcome<seq<Method>>)
      modifies this
      ensures Follows(Spec.ParseMethods(old(St()), []), r, St())
    {
      var methods := [];
      while !Current(St()).RBrace? && !Current(St()).Eof?
        invariant Spec.ParseMethods(St(), methods) == Spec.ParseMethods(old(St()), [])
        decreases Left(St())
      {
        var d := TakeDoc();
        var m :- ParseMethod();
        methods := methods + [m.(doc := Spec.Or(m.doc, d))];
      }
      r := Success(methods);
    }

    method ParseService() returns (r: Outcome<ServiceDef>)
      modifies this
      ensures Follows(Spec.ParseService(old(St())), r, St())
    {
      var d := TakeDoc();
      var _ :- Expect(KwService);
      var name :- ExpectName();
      var _ :- Expect(LBrace);
      var methods :- ParseMethods();
      var _ :- Expect(RBrace);
      r := Success(ServiceDef(name, methods, d));
    }

    method ParseDefinition(ns: Namespace) returns (r: Outcome<Namespace>)
      modifies this
      ensures Follows(Spec.ParseDefinition(old(St()), ns), r, St())
    {
      var d := TakeDoc();
      match Current(St()) {
        case KwStruct =>
          var def :- ParseStruct();
          r := Success(ns.(structs := ns.structs + [def.(doc := Spec.Or(def.doc, d))]));
        case KwEnum =>
          var def :- ParseEnum(false);
          r := Success(ns.(enums := ns.enums + [def.(doc := Spec.Or(def.doc, d))]));
        case KwFlags =>
          var def :- ParseEnum(true);
          r := Success(ns.(enums := ns.enums + [def.(doc := Spec.Or(def.doc, d))]));
        case KwClass =>
          var def :- ParseClass();
          r := Success(ns.(classes := ns.classes + [def.(doc := Spec.Or(def.doc, d))]));
        case KwService =>
          var def :- ParseService();
          r := Success(ns.(services := ns.services + [def.(doc := Spec.Or(def.doc, d))]));
        case KwError =>
          var def :- ParseError();
          r := Success(ns.(errors := ns.errors + [def.(doc := Spec.Or(def.doc, d))]));
        case _ => r := Failure;
      }
    }

    method ParseNamespace() returns (r: Outcome<Namespace>)
      modifies this
      ensures Follows(Spec.ParseNamespace(old(St())), r, St())
    {
      var _ :- Expect(KwNamespace);
      var name :- ExpectName();
      var _ :- Expect(Semicolon);
      r := Success(Namespace(name, [], [], [], [], []));
    }

    /** A whole file. */
    method Parse() returns (r: Outcome<Namespace>)
      modifies this
      ensures forall input: Tokens :: old(St()) == Skip(input, "") ==> Follows(Spec.Parse(input), r, St())
    {
      ghost var start := St();
      var ns :- ParseNamespace();
      ghost var first, s := ns, St();
      while !Current(St()).Eof?
        invariant Spec.ParseNamespace(start) == Spec.Yes(first, s)
        invariant Spec.ParseDefinitions(St(), ns) == Spec.ParseDefinitions(s, first)
        decreases Left(St())
      {
        ns :- ParseDefinition(ns);
      }
      r := Success(ns);
    }
  }

  /** Running the parser over a printed source gives back its tree, or an error when a member is taken for a
      constructor. */
  method ParsePrinted(src: Printer.Source) returns (r: Outcome<Namespace>)
    requires Printer.Writable(src)
    ensures r == if exists d :: d in src.definitions && Printer.HasClash(d) then Failure else Success(Printer.Meaning(src))
  {
    Printer.ParseUndoesPrint(src);
    var parser := new Parser(Printer.Print(src));
    r := parser.Parse();
  }
}
