/** The semantic checks on parsed definitions (compiler/resolver.cpp): a symbol table, a count of reported errors, and
    the proof that nothing is reported exactly when the definitions are well formed. */
module Resolver {
  import opened Bytes
  import opened Sets
  import opened Ast
  import opened Definitions

  datatype Kind = EnumKind | StructKind | ClassKind | ServiceKind | ErrorKind

  datatype TypeInfo = TypeInfo(kind: Kind, base: Option<string>)

  datatype Declaration = Declaration(name: string, info: TypeInfo)

  type SymbolTable = map<string, TypeInfo>

  // ---------------------------------------------------------------- declarations and the symbol table

  function EnumDecls(ds: seq<EnumDef>): seq<Declaration> {
    seq(|ds|, i requires 0 <= i < |ds| => Declaration(ds[i].name, TypeInfo(EnumKind, None)))
  }

  function StructDecls(ds: seq<StructDef>): seq<Declaration> {
    seq(|ds|, i requires 0 <= i < |ds| => Declaration(ds[i].name, TypeInfo(StructKind, ds[i].base)))
  }

  function ClassDecls(ds: seq<ClassDef>): seq<Declaration> {
    seq(|ds|, i requires 0 <= i < |ds| => Declaration(ds[i].name, TypeInfo(ClassKind, ds[i].base)))
  }

  function ServiceDecls(ds: seq<ServiceDef>): seq<Declaration> {
    seq(|ds|, i requires 0 <= i < |ds| => Declaration(ds[i].name, TypeInfo(ServiceKind, None)))
  }

  function ErrorDecls(ds: seq<ErrorDef>): seq<Declaration> {
    seq(|ds|, i requires 0 <= i < |ds| => Declaration(ds[i].name, TypeInfo(ErrorKind, ds[i].base)))
  }

  function NamespaceDecls(ns: Namespace): seq<Declaration> {
    EnumDecls(ns.enums) + StructDecls(ns.structs) + ClassDecls(ns.classes) + ServiceDecls(ns.services) + ErrorDecls(ns.errors)
  }

  function Decls(ast: seq<Namespace>): seq<Declaration> {
    if ast == [] then [] else NamespaceDecls(ast[0]) + Decls(ast[1..])
  }

  /** The first declaration of a name wins. */
  function Declare(t: SymbolTable, d: Declaration): SymbolTable { if d.name in t then t else t[d.name := d.info] }

  function DeclareAll(t: SymbolTable, ds: seq<Declaration>): SymbolTable
    decreases |ds|
  {
    if ds == [] then t else DeclareAll(Declare(t, ds[0]), ds[1..])
  }

  function TableOf(ast: seq<Namespace>): SymbolTable { DeclareAll(map[], Decls(ast)) }

  /** No name is declared twice, or again after the table. */
  predicate AllNew(t: SymbolTable, ds: seq<Declaration>)
    decreases |ds|
  {
    ds == [] || (ds[0].name !in t && AllNew(Declare(t, ds[0]), ds[1..]))
  }

  lemma {:induction false} DeclareConcat(t: SymbolTable, a: seq<Declaration>, b: seq<Declaration>)
    ensures DeclareAll(t, a + b) == DeclareAll(DeclareAll(t, a), b)
    ensures AllNew(t, a + b) <==> AllNew(t, a) && AllNew(DeclareAll(t, a), b)
    decreases |a|
  {
    if a == [] {
      assert a + b == b;
    } else {
      assert (a + b)[1..] == a[1..] + b;
      DeclareConcat(Declare(t, a[0]), a[1..], b);
    }
  }

  predicate UniqueNames(ds: seq<Declaration>) {
    forall i, j :: 0 <= i < j < |ds| ==> ds[i].name != ds[j].name
  }

  predicate NoneIn(t: SymbolTable, ds: seq<Declaration>) { forall d :: d in ds ==> d.name !in t }

  lemma UniqueStep(t: SymbolTable, ds: seq<Declaration>)
    requires ds != []
    ensures UniqueNames(ds) && NoneIn(t, ds) <==>
        ds[0].name !in t && UniqueNames(ds[1..]) && NoneIn(Declare(t, ds[0]), ds[1..])
  {
    var d, rest := ds[0], ds[1..];
    if d.name !in t && UniqueNames(rest) && NoneIn(Declare(t, d), rest) {
      forall i, j | 0 <= i < j < |ds|
        ensures ds[i].name != ds[j].name
      {
        assert ds[j] == rest[j - 1] && rest[j - 1] in rest;
        assert i > 0 ==> ds[i] == rest[i - 1];
      }
      forall x | x in ds
        ensures x.name !in t
      {
        assert x == d || x in rest;
      }
    }
    if UniqueNames(ds) && NoneIn(t, ds) {
      assert d in ds;
      forall x | x in rest
        ensures x.name !in Declare(t, d)
      {
        var k :| 0 <= k < |rest| && rest[k] == x;
        assert ds[k + 1] == x;
      }
    }
  }

  lemma {:induction false} NewIffUnique(t: SymbolTable, ds: seq<Declaration>)
    ensures AllNew(t, ds) <==> UniqueNames(ds) && NoneIn(t, ds)
    decreases |ds|
  {
    hide UniqueNames, NoneIn;
    if ds == [] {
      assert UniqueNames([]) && NoneIn(t, []) by { NoNames(t); }
    } else {
      UniqueStep(t, ds);
      NewIffUnique(Declare(t, ds[0]), ds[1..]);
    }
  }

  lemma NoNames(t: SymbolTable)
    ensures UniqueNames([]) && NoneIn(t, [])
  {
  }

  predicate Holds(t: SymbolTable, d: Declaration) { d.name in t && t[d.name] == d.info }

  lemma {:induction false} TableEntries(t: SymbolTable, ds: seq<Declaration>, d: Declaration)
    requires AllNew(t, ds)
    ensures Holds(DeclareAll(t, ds), d) <==> Holds(t, d) || d in ds
    decreases |ds|
  {
    if ds != [] {
      TableEntries(Declare(t, ds[0]), ds[1..], d);
      assert d in ds <==> d == ds[0] || d in ds[1..];
    }
  }

  lemma {:induction false} TableNames(t: SymbolTable, ds: seq<Declaration>, n: string)
    ensures n in DeclareAll(t, ds) <==> n in t || exists d :: d in ds && d.name == n
    decreases |ds|
  {
    if ds != [] {
      var d, rest := ds[0], ds[1..];
      TableNames(Declare(t, d), rest, n);
      if n in DeclareAll(t, ds) && n !in t && n != d.name {
        var x :| x in rest && x.name == n;
        assert x in ds;
      }
      if x :| x in ds && x.name == n {
        assert x == d || x in rest;
      }
    }
  }

  /** With unique names the table holds exactly the declarations. */
  lemma TableHoldsDeclarations(t: SymbolTable, ds: seq<Declaration>)
    ensures AllNew(t, ds) <==> UniqueNames(ds) && forall d :: d in ds ==> d.name !in t
    ensures AllNew(t, ds) ==> forall d :: Holds(DeclareAll(t, ds), d) <==> Holds(t, d) || d in ds
    ensures forall n :: n in DeclareAll(t, ds) <==> n in t || exists d :: d in ds && d.name == n
  {
    hide AllNew, DeclareAll, UniqueNames, Holds;
    NewIffUnique(t, ds);
    if AllNew(t, ds) {
      forall d { TableEntries(t, ds, d); }
    }
    forall n { TableNames(t, ds, n); }
  }

  // ---------------------------------------------------------------- inheritance chains

  function Parent(t: SymbolTable, name: string): Option<string> { if name in t then t[name].base else None }

  /** The n-th name of the base chain that starts at a name. */
  function Ancestor(t: SymbolTable, name: string, n: nat): Option<string>
    decreases n
  {
    if n == 0 then Some(name)
    else match Parent(t, name)
      case None => None
      case Some(b) => Ancestor(t, b, n - 1)
  }

  /** Following bases from a name comes to an end. */
  ghost predicate Ends(t: SymbolTable, name: string) {
    exists n: nat :: Ancestor(t, name, n).None?
  }

  lemma {:induction false} AncestorNext(t: SymbolTable, name: string, n: nat)
    requires Ancestor(t, name, n).Some?
    ensures Ancestor(t, name, n + 1) == Parent(t, Ancestor(t, name, n).value)
    decreases n
  {
    if n > 0 {
      AncestorNext(t, Parent(t, name).value, n - 1);
    } else {
      assert Parent(t, name).Some? ==> Ancestor(t, Parent(t, name).value, 0) == Parent(t, name);
    }
  }

  /** A chain that comes back to a name repeats from there on, and so never ends. */
  lemma {:induction false} ChainRepeats(t: SymbolTable, name: string, i: nat, j: nat, n: nat)
    requires i < j && Ancestor(t, name, i).Some? && Ancestor(t, name, i) == Ancestor(t, name, j)
    requires forall k :: 0 <= k <= j ==> Ancestor(t, name, k).Some?
    ensures Ancestor(t, name, n).Some?
    ensures n >= j ==> Ancestor(t, name, n) == Ancestor(t, name, n - (j - i))
  {
    if n > j {
      ChainRepeats(t, name, i, j, n - 1);
      ChainRepeats(t, name, i, j, n - 1 - (j - i));
      ChainRepeats(t, name, i, j, n - (j - i));
      AncestorNext(t, name, n - 1);
      AncestorNext(t, name, n - 1 - (j - i));
    }
  }

  lemma RepeatNeverEnds(t: SymbolTable, name: string, i: nat, j: nat)
    requires i < j && Ancestor(t, name, i) == Ancestor(t, name, j)
    requires forall k :: 0 <= k <= j ==> Ancestor(t, name, k).Some?
    ensures !Ends(t, name)
  {
    forall n: nat
      ensures Ancestor(t, name, n).Some?
    {
      ChainRepeats(t, name, i, j, n);
    }
  }

  lemma {:induction false} EndedStays(t: SymbolTable, name: string, m: nat, n: nat)
    requires m <= n && Ancestor(t, name, m).None?
    ensures Ancestor(t, name, n).None?
    decreases m
  {
    if m > 0 && Parent(t, name).Some? {
      EndedStays(t, Parent(t, name).value, m - 1, n - 1);
    }
  }

  // ---------------------------------------------------------------- what well formed means

  predicate TypeKnown(t: SymbolTable, typ: Type) { typ.base.User? ==> typ.base.name in t }

  predicate ParamsKnown(t: SymbolTable, ps: seq<Param>) { forall k :: 0 <= k < |ps| ==> TypeKnown(t, ps[k].typ) }

  predicate IsError(t: SymbolTable, name: string) { name in t && t[name].kind == ErrorKind }

  predicate MethodOk(t: SymbolTable, m: Method) {
    && ParamsKnown(t, m.params) && TypeKnown(t, m.returnType)
    && forall k :: 0 <= k < |m.throws| ==> IsError(t, m.throws[k])
  }

  predicate BaseOk(t: SymbolTable, base: Option<string>, kind: Kind) {
    base.Some? ==> base.value in t && t[base.value].kind == kind
  }

  function FieldNames(fs: seq<Field>): seq<string> { seq(|fs|, i requires 0 <= i < |fs| => fs[i].name) }

  function MethodNames(ms: seq<Method>): seq<string> { seq(|ms|, i requires 0 <= i < |ms| => ms[i].name) }

  function ItemNames(its: seq<EnumItem>): seq<string> { seq(|its|, i requires 0 <= i < |its| => its[i].name) }

  /** The names of all fields declared by structs and errors of one name. */
  function RecordFields(ast: seq<Namespace>, name: string): set<string> {
    (set k, x | 0 <= k < |ast| && x in FieldsOfStructs(ast[k].structs, name) :: x) +
    (set k, x | 0 <= k < |ast| && x in FieldsOfErrors(ast[k].errors, name) :: x)
  }

  function FieldsOfStructs(ds: seq<StructDef>, name: string): set<string> {
    set s, f | s in ds && s.name == name && f in s.fields :: f.name
  }

  function FieldsOfErrors(ds: seq<ErrorDef>, name: string): set<string> {
    set e, f | e in ds && e.name == name && f in e.fields :: f.name
  }

  predicate Shadows(ast: seq<Namespace>, t: SymbolTable, name: string, fs: seq<Field>, n: nat, k: nat) {
    k < |fs| && n > 0 && Ancestor(t, name, n).Some? && fs[k].name in RecordFields(ast, Ancestor(t, name, n).value)
  }

  ghost predicate NoShadowing(ast: seq<Namespace>, t: SymbolTable, name: string, fs: seq<Field>) {
    forall n, k :: !Shadows(ast, t, name, fs, n, k)
  }

  ghost predicate RecordOk(ast: seq<Namespace>, t: SymbolTable, name: string, base: Option<string>, fs: seq<Field>, kind: Kind) {
    && BaseOk(t, base, kind) && Ends(t, name)
    && (forall k :: 0 <= k < |fs| ==> TypeKnown(t, fs[k].typ))
    && NoDuplicates(FieldNames(fs)) && NoShadowing(ast, t, name, fs)
  }

  ghost predicate MethodsOk(t: SymbolTable, ms: seq<Method>) {
    (forall k :: 0 <= k < |ms| ==> MethodOk(t, ms[k])) && NoDuplicates(MethodNames(ms))
  }

  ghost predicate ClassOk(t: SymbolTable, c: ClassDef) {
    && BaseOk(t, c.base, ClassKind) && Ends(t, c.name)
    && (forall k :: 0 <= k < |c.properties| ==> TypeKnown(t, c.properties[k].typ))
    && (forall k :: 0 <= k < |c.constructors| ==> ParamsKnown(t, c.constructors[k].params))
    && MethodsOk(t, c.methods)
  }

  /** Explicit values, and otherwise one more than the item before, from zero. */
  function Values(its: seq<EnumItem>, auto: int): (vs: seq<int>)
    ensures |vs| == |its|
    decreases |its|
  {
    if its == [] then []
    else
      var v := if its[0].value.Some? then its[0].value.value else auto;
      [v] + Values(its[1..], v + 1)
  }

  ghost predicate EnumOk(e: EnumDef) {
    NoDuplicates(ItemNames(e.items)) && NoDuplicates(Values(e.items, 0))
  }

  ghost predicate NamespaceOk(ast: seq<Namespace>, t: SymbolTable, ns: Namespace) {
    && (forall k :: 0 <= k < |ns.enums| ==> EnumOk(ns.enums[k]))
    && (forall k :: 0 <= k < |ns.structs| ==>
          RecordOk(ast, t, ns.structs[k].name, ns.structs[k].base, ns.structs[k].fields, StructKind))
    && (forall k :: 0 <= k < |ns.classes| ==> ClassOk(t, ns.classes[k]))
    && (forall k :: 0 <= k < |ns.services| ==> MethodsOk(t, ns.services[k].methods))
    && (forall k :: 0 <= k < |ns.errors| ==>
          RecordOk(ast, t, ns.errors[k].name, ns.errors[k].base, ns.errors[k].fields, ErrorKind))
  }

  /** Unique names, bases of the same kind without cycles, known types, no shadowed or duplicate fields, no duplicate
      methods, errors in throws clauses, and distinct enum names and values. */
  ghost predicate WellFormed(ast: seq<Namespace>) {
    UniqueNames(Decls(ast)) && forall k :: 0 <= k < |ast| ==> NamespaceOk(ast, TableOf(ast), ast[k])
  }

  // ---------------------------------------------------------------- the same, read off the declarations

  /** Somewhere there is a declaration of this name and kind, with this base. */
  predicate DeclaredAs(ast: seq<Namespace>, n: string, kind: Kind, base: Option<string>) {
    exists k :: 0 <= k < |ast| && DeclaredIn(ast[k], n, kind, base)
  }

  predicate DeclaredIn(ns: Namespace, n: string, kind: Kind, base: Option<string>) {
    match kind
    case EnumKind => base == None && exists i :: 0 <= i < |ns.enums| && ns.enums[i].name == n
    case StructKind => exists i :: 0 <= i < |ns.structs| && ns.structs[i].name == n && ns.structs[i].base == base
    case ClassKind => exists i :: 0 <= i < |ns.classes| && ns.classes[i].name == n && ns.classes[i].base == base
    case ServiceKind => base == None && exists i :: 0 <= i < |ns.services| && ns.services[i].name == n
    case ErrorKind => exists i :: 0 <= i < |ns.errors| && ns.errors[i].name == n && ns.errors[i].base == base
  }

  lemma DeclarationIn(ns: Namespace, n: string, kind: Kind, base: Option<string>)
    ensures Declaration(n, TypeInfo(kind, base)) in NamespaceDecls(ns) <==> DeclaredIn(ns, n, kind, base)
  {
    var d := Declaration(n, TypeInfo(kind, base));
    assert d in NamespaceDecls(ns) <==> d in EnumDecls(ns.enums) || d in StructDecls(ns.structs) || d in ClassDecls(ns.classes)
                                        || d in ServiceDecls(ns.services) || d in ErrorDecls(ns.errors);
    InEnums(ns.enums, d);
    InStructs(ns.structs, d);
    InClasses(ns.classes, d);
    InServices(ns.services, d);
    InErrors(ns.errors, d);
  }

  lemma InEnums(ds: seq<EnumDef>, d: Declaration)
    ensures d in EnumDecls(ds) <==> d.info.kind.EnumKind? && d.info.base.None? && exists i :: 0 <= i < |ds| && ds[i].name == d.name
  {
    if i :| 0 <= i < |ds| && ds[i].name == d.name && d.info.kind.EnumKind? && d.info.base.None? {
      assert EnumDecls(ds)[i] == d;
    }
  }

  lemma InStructs(ds: seq<StructDef>, d: Declaration)
    ensures d in StructDecls(ds) <==>
        d.info.kind.StructKind? && exists i :: 0 <= i < |ds| && ds[i].name == d.name && ds[i].base == d.info.base
  {
    if i :| 0 <= i < |ds| && ds[i].name == d.name && ds[i].base == d.info.base && d.info.kind.StructKind? {
      assert StructDecls(ds)[i] == d;
    }
  }

  lemma InClasses(ds: seq<ClassDef>, d: Declaration)
    ensures d in ClassDecls(ds) <==>
        d.info.kind.ClassKind? && exists i :: 0 <= i < |ds| && ds[i].name == d.name && ds[i].base == d.info.base
  {
    if i :| 0 <= i < |ds| && ds[i].name == d.name && ds[i].base == d.info.base && d.info.kind.ClassKind? {
      assert ClassDecls(ds)[i] == d;
    }
  }

  lemma InServices(ds: seq<ServiceDef>, d: Declaration)
    ensures d in ServiceDecls(ds) <==> d.info.kind.ServiceKind? && d.info.base.None? && exists i :: 0 <= i < |ds| && ds[i].name == d.name
  {
    if i :| 0 <= i < |ds| && ds[i].name == d.name && d.info.kind.ServiceKind? && d.info.base.None? {
      assert ServiceDecls(ds)[i] == d;
    }
  }

  lemma InErrors(ds: seq<ErrorDef>, d: Declaration)
    ensures d in ErrorDecls(ds) <==>
        d.info.kind.ErrorKind? && exists i :: 0 <= i < |ds| && ds[i].name == d.name && ds[i].base == d.info.base
  {
    if i :| 0 <= i < |ds| && ds[i].name == d.name && ds[i].base == d.info.base && d.info.kind.ErrorKind? {
      assert ErrorDecls(ds)[i] == d;
    }
  }

  lemma InFirstOrLater(ast: seq<Namespace>, d: Declaration)
    requires ast != []
    ensures d in Decls(ast) <==> d in NamespaceDecls(ast[0]) || d in Decls(ast[1..])
  {
    hide NamespaceDecls;
  }

  lemma {:induction false} InDecls(ast: seq<Namespace>, d: Declaration)
    ensures d in Decls(ast) <==> exists k :: 0 <= k < |ast| && d in NamespaceDecls(ast[k])
  {
    hide NamespaceDecls;
    if ast != [] {
      InDecls(ast[1..], d);
      InFirstOrLater(ast, d);
      if d in Decls(ast[1..]) {
        var k :| 0 <= k < |ast[1..]| && d in NamespaceDecls(ast[1..][k]);
        assert d in NamespaceDecls(ast[k + 1]);
      }
      if k :| 0 < k < |ast| && d in NamespaceDecls(ast[k]) {
        assert d in NamespaceDecls(ast[1..][k - 1]);
      }
    }
  }

  /** Looking a name up finds exactly its declaration. */
  lemma LookupFinds(ast: seq<Namespace>, n: string, kind: Kind, base: Option<string>)
    requires UniqueNames(Decls(ast))
    ensures n in TableOf(ast) && TableOf(ast)[n] == TypeInfo(kind, base) <==> DeclaredAs(ast, n, kind, base)
  {
    hide DeclareAll, Decls, NamespaceDecls, DeclaredIn, AllNew, UniqueNames;
    var d := Declaration(n, TypeInfo(kind, base));
    NewIffUnique(map[], Decls(ast));
    TableEntries(map[], Decls(ast), d);
    InDecls(ast, d);
    forall k | 0 <= k < |ast|
      ensures d in NamespaceDecls(ast[k]) <==> DeclaredIn(ast[k], n, kind, base)
    {
      DeclarationIn(ast[k], n, kind, base);
    }
  }

  ghost predicate NamesSome(ast: seq<Namespace>, n: string, kind: Kind) { exists base :: DeclaredAs(ast, n, kind, base) }

  ghost predicate Resolves(ast: seq<Namespace>, typ: Type) { typ.base.User? ==> exists kind :: NamesSome(ast, typ.base.name, kind) }

  ghost predicate MethodResolves(ast: seq<Namespace>, m: Method) {
    && (forall i :: 0 <= i < |m.params| ==> Resolves(ast, m.params[i].typ)) && Resolves(ast, m.returnType)
    && (forall i :: 0 <= i < |m.throws| ==> NamesSome(ast, m.throws[i], ErrorKind))
  }

  ghost predicate MethodsLegal(ast: seq<Namespace>, ms: seq<Method>) {
    && (forall i :: 0 <= i < |ms| ==> MethodResolves(ast, ms[i]))
    && forall i, j :: 0 <= i < j < |ms| ==> ms[i].name != ms[j].name
  }

  ghost predicate RecordLegal(ast: seq<Namespace>, name: string, base: Option<string>, fs: seq<Field>, kind: Kind) {
    && (base.Some? ==> NamesSome(ast, base.value, kind)) && Ends(TableOf(ast), name)
    && (forall i :: 0 <= i < |fs| ==> Resolves(ast, fs[i].typ))
    && (forall i, j :: 0 <= i < j < |fs| ==> fs[i].name != fs[j].name)
    && ShadowsNone(ast, name, fs)
  }

  ghost predicate ClassLegal(ast: seq<Namespace>, c: ClassDef) {
    && (c.base.Some? ==> NamesSome(ast, c.base.value, ClassKind)) && Ends(TableOf(ast), c.name)
    && (forall i :: 0 <= i < |c.properties| ==> Resolves(ast, c.properties[i].typ))
    && (forall k, i :: 0 <= k < |c.constructors| && 0 <= i < |c.constructors[k].params| ==>
          Resolves(ast, c.constructors[k].params[i].typ))
    && MethodsLegal(ast, c.methods)
  }

  predicate EnumLegal(e: EnumDef) {
    forall i, j :: 0 <= i < j < |e.items| ==> e.items[i].name != e.items[j].name && Values(e.items, 0)[i] != Values(e.items, 0)[j]
  }

  ghost predicate NamespaceLegal(ast: seq<Namespace>, ns: Namespace) {
    && (forall i :: 0 <= i < |ns.enums| ==> EnumLegal(ns.enums[i]))
    && (forall i :: 0 <= i < |ns.structs| ==>
          RecordLegal(ast, ns.structs[i].name, ns.structs[i].base, ns.structs[i].fields, StructKind))
    && (forall i :: 0 <= i < |ns.classes| ==> ClassLegal(ast, ns.classes[i]))
    && (forall i :: 0 <= i < |ns.services| ==> MethodsLegal(ast, ns.services[i].methods))
    && (forall i :: 0 <= i < |ns.errors| ==>
          RecordLegal(ast, ns.errors[i].name, ns.errors[i].base, ns.errors[i].fields, ErrorKind))
  }

  lemma KindKnown(ast: seq<Namespace>, n: string, kind: Kind)
    requires UniqueNames(Decls(ast))
    ensures n in TableOf(ast) && TableOf(ast)[n].kind == kind <==> NamesSome(ast, n, kind)
  {
    hide DeclaredAs, TableOf, UniqueNames, Decls;
    if n in TableOf(ast) && TableOf(ast)[n].kind == kind {
      LookupFinds(ast, n, kind, TableOf(ast)[n].base);
    }
    if base :| DeclaredAs(ast, n, kind, base) {
      LookupFinds(ast, n, kind, base);
    }
  }

  lemma TypeResolvesIff(ast: seq<Namespace>, typ: Type)
    requires UniqueNames(Decls(ast))
    ensures TypeKnown(TableOf(ast), typ) <==> Resolves(ast, typ)
  {
    hide NamesSome, TableOf, UniqueNames, Decls;
    if typ.base.User? {
      forall kind { KindKnown(ast, typ.base.name, kind); }
      if typ.base.name in TableOf(ast) {
        assert NamesSome(ast, typ.base.name, TableOf(ast)[typ.base.name].kind);
      }
    }
  }

  lemma MethodsLegalIff(ast: seq<Namespace>, ms: seq<Method>)
    requires UniqueNames(Decls(ast))
    ensures MethodsOk(TableOf(ast), ms) <==> MethodsLegal(ast, ms)
  {
    hide NamesSome, TableOf, UniqueNames, Decls, Resolves, TypeKnown;
    forall typ { TypeResolvesIff(ast, typ); }
    forall n { KindKnown(ast, n, ErrorKind); }
    assert forall m :: MethodOk(TableOf(ast), m) <==> MethodResolves(ast, m);
    assert forall i :: 0 <= i < |ms| ==> MethodNames(ms)[i] == ms[i].name;
  }

  lemma RecordLegalIff(ast: seq<Namespace>, name: string, base: Option<string>, fs: seq<Field>, kind: Kind)
    requires UniqueNames(Decls(ast))
    ensures RecordOk(ast, TableOf(ast), name, base, fs, kind) <==> RecordLegal(ast, name, base, fs, kind)
  {
    hide NamesSome, TableOf, UniqueNames, Decls, Resolves, TypeKnown, Ends, NoShadowing, ShadowsNone;
    forall typ { TypeResolvesIff(ast, typ); }
    if base.Some? {
      KindKnown(ast, base.value, kind);
    }
    assert forall i :: 0 <= i < |fs| ==> FieldNames(fs)[i] == fs[i].name;
    NoShadowingIff(ast, name, fs);
  }

  ghost predicate ShadowsNone(ast: seq<Namespace>, name: string, fs: seq<Field>) {
    forall i: nat, n: nat :: i < |fs| && n > 0 && Ancestor(TableOf(ast), name, n).Some? ==>
        fs[i].name !in RecordFields(ast, Ancestor(TableOf(ast), name, n).value)
  }

  lemma NoShadowingIff(ast: seq<Namespace>, name: string, fs: seq<Field>)
    ensures NoShadowing(ast, TableOf(ast), name, fs) <==> ShadowsNone(ast, name, fs)
  {
    hide TableOf, RecordFields, Ancestor;
    if NoShadowing(ast, TableOf(ast), name, fs) {
      forall i: nat, n: nat | i < |fs| && n > 0 && Ancestor(TableOf(ast), name, n).Some?
        ensures fs[i].name !in RecordFields(ast, Ancestor(TableOf(ast), name, n).value)
      {
        assert !Shadows(ast, TableOf(ast), name, fs, n, i);
      }
    }
  }

  lemma ClassLegalIff(ast: seq<Namespace>, c: ClassDef)
    requires UniqueNames(Decls(ast))
    ensures ClassOk(TableOf(ast), c) <==> ClassLegal(ast, c)
  {
    hide NamesSome, TableOf, UniqueNames, Decls, Resolves, TypeKnown, Ends, MethodsOk, MethodsLegal;
    forall typ { TypeResolvesIff(ast, typ); }
    if c.base.Some? {
      KindKnown(ast, c.base.value, ClassKind);
    }
    MethodsLegalIff(ast, c.methods);
  }

  lemma EnumLegalIff(e: EnumDef)
    ensures EnumOk(e) <==> EnumLegal(e)
  {
    hide Values;
    assert forall i :: 0 <= i < |e.items| ==> ItemNames(e.items)[i] == e.items[i].name;
  }

  /** Explicit values as written; otherwise zero for the first item, and one more than the item before for any other. */
  lemma {:induction false} ValueOf(its: seq<EnumItem>, auto: int, k: nat)
    requires k < |its|
    ensures Values(its, auto)[k] ==
            if its[k].value.Some? then its[k].value.value else if k == 0 then auto else Values(its, auto)[k - 1] + 1
  {
    if k > 0 {
      var v := if its[0].value.Some? then its[0].value.value else auto;
      ValueOf(its[1..], v + 1, k - 1);
    }
  }

  /** What the resolver accepts, in terms of declarations alone: names are declared once; bases, field, parameter, return and
      property types and the errors thrown are declared somewhere, with the right kind where one is asked for; base chains
      end; and no name is used twice where it must not be. */
  lemma WellFormedIff(ast: seq<Namespace>)
    ensures WellFormed(ast) <==> UniqueNames(Decls(ast)) && forall k :: 0 <= k < |ast| ==> NamespaceLegal(ast, ast[k])
  {
    hide UniqueNames, TableOf, Decls, RecordOk, RecordLegal, ClassOk, ClassLegal, MethodsOk, MethodsLegal, EnumOk, EnumLegal;
    if UniqueNames(Decls(ast)) {
      forall e { EnumLegalIff(e); }
      forall name, base, fs, kind { RecordLegalIff(ast, name, base, fs, kind); }
      forall c { ClassLegalIff(ast, c); }
      forall ms { MethodsLegalIff(ast, ms); }
    }
  }

  // ---------------------------------------------------------------- the resolver

  class Resolver {
    const ast: seq<Namespace>
    var types: SymbolTable
    var errors: nat

    constructor (ast: seq<Namespace>)
      ensures this.ast == ast
    {
      this.ast := ast;
      types, errors := map[], 0;
    }

    /** Nothing is reported if and only if the definitions are well formed. */
    method Resolve() returns (ok: bool)
      modifies this
      ensures ok <==> WellFormed(ast)
      ensures types == TableOf(ast)
    {
      errors := 0;
      types := map[];
      RegisterTypes();
      TableHoldsDeclarations(map[], Decls(ast));
      ValidateTypes();
      ok := errors == 0;
    }

    method TypeExists(name: string) returns (found: bool)
      ensures found <==> name in types
    {
      found := name in types;
    }

    method Error()
      modifies this`errors
      ensures errors == old(errors) + 1
    {
      errors := errors + 1;
    }

    method RegisterTypes()
      requires types == map[]
      modifies this`types, this`errors
      ensures types == TableOf(ast) && errors >= old(errors)
      ensures errors == old(errors) <==> AllNew(map[], Decls(ast))
    {
      hide AllNew, DeclareAll, Decls, NamespaceDecls;
      var i := 0;
      assert ast[0..] == ast;
      while i < |ast|
        invariant 0 <= i <= |ast| && errors >= old(errors)
        invariant DeclareAll(types, Decls(ast[i..])) == TableOf(ast)
        invariant errors == old(errors) && AllNew(types, Decls(ast[i..])) <==> AllNew(map[], Decls(ast))
      {
        ghost var t, ds, rest := types, NamespaceDecls(ast[i]), Decls(ast[i + 1..]);
        DeclsStep(ast, i);
        DeclareConcat(t, ds, rest);
        RegisterNamespace(ast[i]);
        i := i + 1;
      }
      NothingToDeclare(types, ast[i..]);
    }

    method RegisterNamespace(ns: Namespace)
      modifies this`types, this`errors
      ensures types == DeclareAll(old(types), NamespaceDecls(ns)) && errors >= old(errors)
      ensures errors == old(errors) <==> AllNew(old(types), NamespaceDecls(ns))
    {
      ghost var t := types;
      var e, s, c, v, r := EnumDecls(ns.enums), StructDecls(ns.structs), ClassDecls(ns.classes), ServiceDecls(ns.services),
                           ErrorDecls(ns.errors);
      RegisterAll(e);
      DeclareConcat(t, e, s);
      RegisterAll(s);
      DeclareConcat(t, e + s, c);
      RegisterAll(c);
      DeclareConcat(t, e + s + c, v);
      RegisterAll(v);
      DeclareConcat(t, e + s + c + v, r);
      RegisterAll(r);
    }

    method RegisterAll(ds: seq<Declaration>)
      modifies this`types, this`errors
      ensures types == DeclareAll(old(types), ds) && errors >= old(errors)
      ensures errors == old(errors) <==> AllNew(old(types), ds)
    {
      var i := 0;
      assert ds[0..] == ds;
      while i < |ds|
        invariant 0 <= i <= |ds| && errors >= old(errors)
        invariant DeclareAll(types, ds[i..]) == DeclareAll(old(types), ds)
        invariant errors == old(errors) && AllNew(types, ds[i..]) <==> AllNew(old(types), ds)
      {
        assert ds[i..][1..] == ds[i + 1..];
        RegisterType(ds[i]);
        i := i + 1;
      }
    }

    method RegisterType(d: Declaration)
      modifies this`types, this`errors
      ensures types == Declare(old(types), d)
      ensures errors == old(errors) + if d.name in old(types) then 1 else 0
    {
      if d.name in types {
        Error();
        return;
      }
      types := types[d.name := d.info];
    }

    method ValidateTypes()
      modifies this`errors
      ensures errors >= old(errors)
      ensures errors == old(errors) <==> forall k :: 0 <= k < |ast| ==> NamespaceOk(ast, types, ast[k])
    {
      var i := 0;
      while i < |ast|
        invariant 0 <= i <= |ast| && errors >= old(errors)
        invariant errors == old(errors) <==> forall k :: 0 <= k < i ==> NamespaceOk(ast, types, ast[k])
      {
        ValidateNamespace(ast[i]);
        i := i + 1;
      }
    }

    method ValidateNamespace(ns: Namespace)
      modifies this`errors
      ensures errors >= old(errors)
      ensures errors == old(errors) <==> NamespaceOk(ast, types, ns)
    {
      hide EnumOk, RecordOk, ClassOk, MethodsOk;
      for i := 0 to |ns.enums|
        invariant errors >= old(errors)
        invariant errors == old(errors) <==> forall k :: 0 <= k < i ==> EnumOk(ns.enums[k])
      {
        ValidateEnum(ns.enums[i]);
      }
      ValidateStructs(ns.structs);
      ValidateClasses(ns.classes);
      ValidateServices(ns.services);
      ValidateErrors(ns.errors);
    }

    method ValidateStructs(ds: seq<StructDef>)
      modifies this`errors
      ensures errors >= old(errors)
      ensures errors == old(errors) <==>
          forall k :: 0 <= k < |ds| ==> RecordOk(ast, types, ds[k].name, ds[k].base, ds[k].fields, StructKind)
    {
      hide RecordOk;
      for i := 0 to |ds|
        invariant errors >= old(errors)
        invariant errors == old(errors) <==>
            forall k :: 0 <= k < i ==> RecordOk(ast, types, ds[k].name, ds[k].base, ds[k].fields, StructKind)
      {
        ValidateRecord(ds[i].name, ds[i].base, ds[i].fields, StructKind);
      }
    }

    method ValidateErrors(ds: seq<ErrorDef>)
      modifies this`errors
      ensures errors >= old(errors)
      ensures errors == old(errors) <==>
          forall k :: 0 <= k < |ds| ==> RecordOk(ast, types, ds[k].name, ds[k].base, ds[k].fields, ErrorKind)
    {
      hide RecordOk;
      for i := 0 to |ds|
        invariant errors >= old(errors)
        invariant errors == old(errors) <==>
            forall k :: 0 <= k < i ==> RecordOk(ast, types, ds[k].name, ds[k].base, ds[k].fields, ErrorKind)
      {
        ValidateRecord(ds[i].name, ds[i].base, ds[i].fields, ErrorKind);
      }
    }

    method ValidateClasses(ds: seq<ClassDef>)
      modifies this`errors
      ensures errors >= old(errors)
      ensures errors == old(errors) <==> forall k :: 0 <= k < |ds| ==> ClassOk(types, ds[k])
    {
      hide ClassOk;
      for i := 0 to |ds|
        invariant errors >= old(errors)
        invariant errors == old(errors) <==> forall k :: 0 <= k < i ==> ClassOk(types, ds[k])
      {
        ValidateClass(ds[i]);
      }
    }

    method ValidateServices(ds: seq<ServiceDef>)
      modifies this`errors
      ensures errors >= old(errors)
      ensures errors == old(errors) <==> forall k :: 0 <= k < |ds| ==> MethodsOk(types, ds[k].methods)
    {
      hide MethodsOk;
      for i := 0 to |ds|
        invariant errors >= old(errors)
        invariant errors == old(errors) <==> forall k :: 0 <= k < i ==> MethodsOk(types, ds[k].methods)
      {
        ValidateMethods(ds[i].methods);
      }
    }

    /** validate_struct and validate_error_def. */
    method ValidateRecord(name: string, base: Option<string>, fs: seq<Field>, kind: Kind)
      modifies this`errors
      ensures errors >= old(errors)
      ensures errors == old(errors) <==> RecordOk(ast, types, name, base, fs, kind)
    {
      ValidateInheritance(base, kind);
      var cycle := HasInheritanceCycle(name);
      if cycle {
        Error();
      }
      for i := 0 to |fs|
        invariant errors >= old(errors)
        invariant errors == old(errors) <==>
            BaseOk(types, base, kind) && Ends(types, name) && forall k :: 0 <= k < i ==> TypeKnown(types, fs[k].typ)
      {
        ValidateType(fs[i].typ);
      }
      CheckDistinct(FieldNames(fs));
      CheckShadowing(name, fs);
    }

    method ValidateInheritance(base: Option<string>, kind: Kind)
      modifies this`errors
      ensures errors >= old(errors)
      ensures errors == old(errors) <==> BaseOk(types, base, kind)
    {
      if base.Some? {
        if base.value !in types {
          Error();
          return;
        }
        if types[base.value].kind != kind {
          Error();
        }
      }
    }

    method ValidateType(typ: Type)
      modifies this`errors
      ensures errors >= old(errors)
      ensures errors == old(errors) <==> TypeKnown(types, typ)
    {
      if typ.base.User? && typ.base.name !in types {
        Error();
      }
    }

    method ValidateParams(ps: seq<Param>)
      modifies this`errors
      ensures errors >= old(errors)
      ensures errors == old(errors) <==> ParamsKnown(types, ps)
    {
      for i := 0 to |ps|
        invariant errors >= old(errors)
        invariant errors == old(errors) <==> forall k :: 0 <= k < i ==> TypeKnown(types, ps[k].typ)
      {
        ValidateType(ps[i].typ);
      }
    }

    method ValidateMethod(m: Method)
      modifies this`errors
      ensures errors >= old(errors)
      ensures errors == old(errors) <==> MethodOk(types, m)
    {
      ValidateParams(m.params);
      ValidateType(m.returnType);
      for i := 0 to |m.throws|
        invariant errors >= old(errors)
        invariant errors == old(errors) <==>
            (ParamsKnown(types, m.params) && TypeKnown(types, m.returnType) && forall k :: 0 <= k < i ==> IsError(types, m.throws[k]))
      {
        if m.throws[i] !in types {
          Error();
        } else if types[m.throws[i]].kind != ErrorKind {
          Error();
        }
      }
    }

    method ValidateMethods(ms: seq<Method>)
      modifies this`errors
      ensures errors >= old(errors)
      ensures errors == old(errors) <==> MethodsOk(types, ms)
    {
      hide MethodOk;
      for i := 0 to |ms|
        invariant errors >= old(errors)
        invariant errors == old(errors) <==> forall k :: 0 <= k < i ==> MethodOk(types, ms[k])
      {
        ValidateMethod(ms[i]);
      }
      CheckDistinct(MethodNames(ms));
    }

    method ValidateClass(c: ClassDef)
      modifies this`errors
      ensures errors >= old(errors)
      ensures errors == old(errors) <==> ClassOk(types, c)
    {
      hide MethodsOk, ParamsKnown;
      ValidateInheritance(c.base, ClassKind);
      var cycle := HasInheritanceCycle(c.name);
      if cycle {
        Error();
      }
      ghost var headOk := BaseOk(types, c.base, ClassKind) && Ends(types, c.name);
      for i := 0 to |c.properties|
        invariant errors >= old(errors)
        invariant errors == old(errors) <==> headOk && forall k :: 0 <= k < i ==> TypeKnown(types, c.properties[k].typ)
      {
        ValidateType(c.properties[i].typ);
      }
      ghost var middle := errors;
      for i := 0 to |c.constructors|
        invariant errors >= middle
        invariant errors == middle <==> forall k :: 0 <= k < i ==> ParamsKnown(types, c.constructors[k].params)
      {
        ValidateParams(c.constructors[i].params);
      }
      ValidateMethods(c.methods);
    }

    method ValidateEnum(e: EnumDef)
      modifies this`errors
      ensures errors >= old(errors)
      ensures errors == old(errors) <==> EnumOk(e)
    {
      CheckDistinct(ItemNames(e.items));
      CheckValues(e.items);
    }

    /** The seen-before loop over the names of fields, methods or enum items. */
    method CheckDistinct(names: seq<string>)
      modifies this`errors
      ensures errors >= old(errors)
      ensures errors == old(errors) <==> NoDuplicates(names)
    {
      var seen: set<string> := {};
      for i := 0 to |names|
        invariant errors >= old(errors) && seen == Elements(names[..i])
        invariant errors == old(errors) <==> NoDuplicates(names[..i])
      {
        OneMore(names, i);
        if names[i] in seen {
          Error();
        }
        seen := seen + {names[i]};
      }
      assert names[..|names|] == names;
    }

    /** Enum values, explicit or numbered automatically. */
    method CheckValues(its: seq<EnumItem>)
      modifies this`errors
      ensures errors >= old(errors)
      ensures errors == old(errors) <==> NoDuplicates(Values(its, 0))
    {
      hide Values, NoDuplicates, Elements;
      var seen: set<int>, auto := {}, 0;
      assert NoDuplicates(Values(its, 0)[..0]) && Elements(Values(its, 0)[..0]) == {} by { NothingYet(Values(its, 0)); }
      ghost var vs := Values(its, 0);
      assert its[0..] == its && vs[0..] == vs;
      for i := 0 to |its|
        invariant errors >= old(errors) && seen == Elements(vs[..i])
        invariant vs[i..] == Values(its[i..], auto)
        invariant errors == old(errors) <==> NoDuplicates(vs[..i])
      {
        assert its[i..][1..] == its[i + 1..] && vs[i..][1..] == vs[i + 1..];
        var val := if its[i].value.Some? then its[i].value.value else auto;
        ValuesStep(its[i..], auto);
        assert vs[i] == vs[i..][0] == val;
        OneMore(vs, i);
        if val in seen {
          Error();
        }
        seen := seen + {val};
        auto := val + 1;
      }
      assert vs[..|its|] == vs;
    }

    /** detect_cycle from a name, with nothing visited yet. */
    method HasInheritanceCycle(name: string) returns (cycle: bool)
      ensures cycle <==> !Ends(types, name)
    {
      assert Ancestor(types, name, 0) == Some(name);
      var visiting, visited;
      cycle, visiting, visited := DetectCycle(name, {}, {}, name, 0);
    }

    /** `depth` steps up the chain from `start`; the names being visited are those on the way. */
    method DetectCycle(name: string, visiting: set<string>, visited: set<string>, ghost start: string, ghost depth: nat)
      returns (cycle: bool, visiting': set<string>, visited': set<string>)
      requires visited == {} && visiting <= types.Keys
      requires Ancestor(types, start, depth) == Some(name)
      requires forall k :: 0 <= k <= depth ==> Ancestor(types, start, k).Some?
      requires visiting == set k | 0 <= k < depth :: Ancestor(types, start, k).value
      ensures cycle <==> !Ends(types, start)
      decreases types.Keys - visiting
    {
      visiting', visited' := visiting, visited;
      if name in visited {
        return false, visiting', visited';
      }
      if name in visiting {
        ghost var i :| 0 <= i < depth && Ancestor(types, start, i).value == name;
        RepeatNeverEnds(types, start, i, depth);
        return true, visiting', visited';
      }
      AncestorNext(types, start, depth);
      if name !in types || types[name].base.None? {
        visited' := visited + {name};
        assert Ancestor(types, start, depth + 1).None?;
        return false, visiting', visited';
      }
      visiting' := visiting + {name};
      cycle, visiting', visited' := DetectCycle(types[name].base.value, visiting', visited, start, depth + 1);
      visiting' := visiting' - {name};
      visited' := visited' + {name};
    }

    /** The fields that structs and errors of one name declare, found by going through all definitions. */
    method CollectFields(name: string) returns (found: set<string>)
      ensures found == RecordFields(ast, name)
    {
      found := {};
      for i := 0 to |ast|
        invariant found == RecordFields(ast[..i], name)
      {
        var here := CollectHere(ast[i], name);
        found := found + here;
        NamespacesOneMore(ast, i, name);
      }
      assert ast[..|ast|] == ast;
    }

    /** Its two loops over one namespace. */
    method CollectHere(ns: Namespace, name: string) returns (found: set<string>)
      ensures found == FieldsOfStructs(ns.structs, name) + FieldsOfErrors(ns.errors, name)
    {
      found := {};
      assert FieldsOfStructs(ns.structs[..0], name) == {} && FieldsOfErrors(ns.errors[..0], name) == {};
      hide FieldsOfStructs, FieldsOfErrors, FieldNames, Elements;
      for j := 0 to |ns.structs|
        invariant found == FieldsOfStructs(ns.structs[..j], name)
      {
        StructsOneMore(ns.structs, j, name);
        if ns.structs[j].name == name {
          found := found + Elements(FieldNames(ns.structs[j].fields));
        } else {
          UnionEmpty(found);
        }
      }
      assert ns.structs[..|ns.structs|] == ns.structs;
      for j := 0 to |ns.errors|
        invariant found == FieldsOfStructs(ns.structs, name) + FieldsOfErrors(ns.errors[..j], name)
      {
        ErrorsOneMore(ns.errors, j, name);
        ghost var mine, theirs := FieldsOfStructs(ns.structs, name), FieldsOfErrors(ns.errors[..j], name);
        if ns.errors[j].name == name {
          UnionAssoc(mine, theirs, Elements(FieldNames(ns.errors[j].fields)));
          found := found + Elements(FieldNames(ns.errors[j].fields));
        } else {
          UnionEmpty(theirs);
        }
      }
      assert ns.errors[..|ns.errors|] == ns.errors;
    }

    /** The walk over all ancestors, guarded against cycles; on a chain that ends it reports exactly the shadowed
        fields. */
    method CheckShadowing(name: string, fs: seq<Field>)
      modifies this`errors
      ensures errors >= old(errors)
      ensures Ends(types, name) ==> (errors == old(errors) <==> NoShadowing(ast, types, name, fs))
    {
      var inherited: set<string>, visited: set<string> := {}, {};
      ghost var n := 0;
      var current := if name in types then types[name].base else None;
      AncestorNext(types, name, 0);
      while current.Some?
        invariant Ancestor(types, name, n + 1) == current
        invariant forall k :: 0 <= k <= n ==> Ancestor(types, name, k).Some?
        invariant forall k :: 1 <= k <= n ==> Ancestor(types, name, k).value in visited
        invariant forall a :: a in visited ==> exists k :: 1 <= k <= n && Ancestor(types, name, k).value == a
        invariant forall f :: f in inherited <==> exists k :: 1 <= k <= n && f in RecordFields(ast, Ancestor(types, name, k).value)
        modifies {}
        decreases types.Keys - visited, current.Some?
      {
        if current.value in visited {
          ghost var k :| 1 <= k <= n && Ancestor(types, name, k).value == current.value;
          RepeatNeverEnds(types, name, k, n + 1);
          break;
        }
        visited := visited + {current.value};
        var found := CollectFields(current.value);
        inherited := inherited + found;
        n := n + 1;
        AncestorNext(types, name, n);
        current := if current.value in types then types[current.value].base else None;
      }
      for i := 0 to |fs|
        invariant errors >= old(errors)
        invariant errors == old(errors) <==> forall k :: 0 <= k < i ==> fs[k].name !in inherited
      {
        if fs[i].name in inherited {
          Error();
        }
      }
      if current.None? {
        ShadowingFound(ast, types, name, fs, n, inherited);
      }
    }
  }

  lemma ShadowingFound(ast: seq<Namespace>, t: SymbolTable, name: string, fs: seq<Field>, n: nat, inherited: set<string>)
    requires Ancestor(t, name, n + 1).None? && forall k :: 0 <= k <= n ==> Ancestor(t, name, k).Some?
    requires forall f :: f in inherited <==> exists k :: 1 <= k <= n && f in RecordFields(ast, Ancestor(t, name, k).value)
    ensures NoShadowing(ast, t, name, fs) <==> forall k :: 0 <= k < |fs| ==> fs[k].name !in inherited
  {
    forall m: nat, k: nat | Shadows(ast, t, name, fs, m, k)
      ensures fs[k].name in inherited
    {
      if m > n {
        EndedStays(t, name, n + 1, m);
      }
    }
    forall k | 0 <= k < |fs| && fs[k].name in inherited
      ensures !NoShadowing(ast, t, name, fs)
    {
      var m :| 1 <= m <= n && fs[k].name in RecordFields(ast, Ancestor(t, name, m).value);
      assert Shadows(ast, t, name, fs, m, k);
    }
  }

  lemma NothingYet(vs: seq<int>)
    ensures NoDuplicates(vs[..0]) && Elements(vs[..0]) == {}
  {
  }

  lemma ValuesStep(its: seq<EnumItem>, auto: int)
    requires its != []
    ensures var v := if its[0].value.Some? then its[0].value.value else auto;
            Values(its, auto) == [v] + Values(its[1..], v + 1)
  {
  }

  lemma UnionAssoc<T>(a: set<T>, b: set<T>, c: set<T>)
    ensures (a + b) + c == a + (b + c)
  {
  }

  lemma UnionEmpty<T>(a: set<T>)
    ensures a + {} == a
  {
  }

  lemma DeclsStep(ast: seq<Namespace>, i: nat)
    requires i < |ast|
    ensures Decls(ast[i..]) == NamespaceDecls(ast[i]) + Decls(ast[i + 1..])
  {
    assert ast[i..][1..] == ast[i + 1..];
  }

  lemma NothingToDeclare(t: SymbolTable, ast: seq<Namespace>)
    requires ast == []
    ensures DeclareAll(t, Decls(ast)) == t && AllNew(t, Decls(ast))
  {
  }

  lemma OneMore<T>(s: seq<T>, i: nat)
    requires i < |s|
    ensures Elements(s[..i + 1]) == Elements(s[..i]) + {s[i]}
    ensures NoDuplicates(s[..i + 1]) <==> NoDuplicates(s[..i]) && s[i] !in Elements(s[..i])
  {
    var shorter, longer := s[..i], s[..i + 1];
    assert longer == shorter + [s[i]];
    if s[i] in shorter {
      var j :| 0 <= j < i && shorter[j] == s[i];
      assert longer[j] == longer[i];
    }
    if NoDuplicates(longer) {
      assert forall j, k :: 0 <= j < k < i ==> shorter[j] == longer[j] && shorter[k] == longer[k];
    }
  }

  lemma StructsOneMore(ds: seq<StructDef>, j: nat, name: string)
    requires j < |ds|
    ensures FieldsOfStructs(ds[..j + 1], name) ==
            FieldsOfStructs(ds[..j], name) + if ds[j].name == name then Elements(FieldNames(ds[j].fields)) else {}
  {
    assert ds[..j + 1] == ds[..j] + [ds[j]];
    NamesOfFields(ds[j].fields);
  }

  lemma ErrorsOneMore(ds: seq<ErrorDef>, j: nat, name: string)
    requires j < |ds|
    ensures FieldsOfErrors(ds[..j + 1], name) ==
            FieldsOfErrors(ds[..j], name) + if ds[j].name == name then Elements(FieldNames(ds[j].fields)) else {}
  {
    assert ds[..j + 1] == ds[..j] + [ds[j]];
    NamesOfFields(ds[j].fields);
  }

  lemma NamesOfFields(fs: seq<Field>)
    ensures Elements(FieldNames(fs)) == set f | f in fs :: f.name
  {
    forall f | f in fs
      ensures f.name in FieldNames(fs)
    {
      var k :| 0 <= k < |fs| && fs[k] == f;
      assert FieldNames(fs)[k] == f.name;
    }
  }

  lemma NamespacesOneMore(ast: seq<Namespace>, i: nat, name: string)
    requires i < |ast|
    ensures RecordFields(ast[..i + 1], name) ==
            RecordFields(ast[..i], name) + FieldsOfStructs(ast[i].structs, name) + FieldsOfErrors(ast[i].errors, name)
  {
    hide FieldsOfStructs, FieldsOfErrors;
    var shorter, longer := ast[..i], ast[..i + 1];
    assert longer[i] == ast[i];
    assert forall k :: 0 <= k < i ==> longer[k] == shorter[k];
    var added := FieldsOfStructs(ast[i].structs, name) + FieldsOfErrors(ast[i].errors, name);
    forall x
      ensures x in RecordFields(longer, name) <==> x in RecordFields(shorter, name) || x in added
    {
      if x in RecordFields(longer, name) {
        var k :| 0 <= k <= i && (x in FieldsOfStructs(longer[k].structs, name) || x in FieldsOfErrors(longer[k].errors, name));
        assert k < i ==> longer[k] == shorter[k];
      }
      if x in added {
        assert x in FieldsOfStructs(longer[i].structs, name) || x in FieldsOfErrors(longer[i].errors, name);
      }
    }
  }
}
