/** The rest of the interface language's syntax tree (compiler/ast.hpp), without source locations. */
module Definitions {
  import opened Bytes
  import opened Ast

  datatype Field = Field(name: string, typ: Type, doc: string)

  datatype Param = Param(name: string, typ: Type)

  datatype EnumItem = EnumItem(name: string, value: Option<int>, doc: string)

  datatype Property = Property(name: string, typ: Type, readonly_: bool, doc: string)

  datatype Constructor = Constructor(params: seq<Param>, doc: string)

  datatype Method = Method(name: string, params: seq<Param>, returnType: Type, isOptional: bool, isStream: bool,
                           throws: seq<string>, doc: string)

  datatype StructDef = StructDef(name: string, base: Option<string>, fields: seq<Field>, doc: string)

  datatype EnumDef = EnumDef(name: string, items: seq<EnumItem>, isFlags: bool, doc: string)

  datatype ClassDef = ClassDef(name: string, base: Option<string>, properties: seq<Property>,
                               constructors: seq<Constructor>, methods: seq<Method>, doc: string)

  datatype ServiceDef = ServiceDef(name: string, methods: seq<Method>, doc: string)

  datatype ErrorDef = ErrorDef(name: string, base: Option<string>, fields: seq<Field>, doc: string)

  datatype Namespace = Namespace(name: string, enums: seq<EnumDef>, structs: seq<StructDef>, classes: seq<ClassDef>,
                                 services: seq<ServiceDef>, errors: seq<ErrorDef>)
}
