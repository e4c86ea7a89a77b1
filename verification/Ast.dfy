/** Types of the interface language, as the parser builds them (compiler/ast.hpp). */
module Ast {

  datatype Primitive =
    | Bool | I8 | I16 | I32 | I64 | U8 | U16 | U32 | U64 | F32 | F64 | Str | Blob | Void

  datatype Base = Prim(p: Primitive) | User(name: string)

  datatype Type = Type(base: Base, isArray: bool, isOptional: bool, dims: nat)
}
