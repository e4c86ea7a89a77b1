/** Tokens of the interface language and the parser's view of them: one token of lookahead, with documentation
    comments gathered on the side. */
module Tokens {
  import opened Ast

  datatype Token =
    | Identifier(name: string)
    | Integer(value: int)
    | DocComment(text: string)
    | KwNamespace | KwStruct | KwClass | KwEnum | KwFlags | KwService | KwError
    | KwReadonly | KwOptional | KwStream | KwThrows
    | KwPrimitive(p: Primitive)
    | Semicolon | Comma | Colon | Dot | LBrace | RBrace | LParen | RParen | LBracket | RBracket | Question | Arrow | Equals
    | Eof

  /** What the lexer has still to deliver before the end of the input. */
  datatype Tokens = Nil | Cons(head: Token, tail: Tokens)

  function Length(ts: Tokens): nat { if ts.Nil? then 0 else 1 + Length(ts.tail) }

  /** m_current_token followed by the unread tokens, and m_pending_doc. */
  datatype State = State(toks: Tokens, doc: string)

  function Left(st: State): nat { Length(st.toks) }

  function Current(st: State): Token { if st.toks.Nil? then Eof else st.toks.head }

  /** Lines are joined by a newline unless nothing has been gathered yet. */
  function Joined(doc: string, line: string): string { (if doc == "" then "" else doc + "\n") + line }

  /** Documentation comments are skipped and gathered. */
  function Skip(ts: Tokens, doc: string): (st: State)
    ensures Left(st) <= Length(ts) && !Current(st).DocComment?
  {
    if ts.Cons? && ts.head.DocComment? then Skip(ts.tail, Joined(doc, ts.head.text)) else State(ts, doc)
  }

  function Advance(st: State): (r: State)
    ensures Left(r) <= Left(st) && (st.toks.Cons? ==> Left(r) < Left(st))
  {
    if st.toks.Nil? then st else Skip(st.toks.tail, st.doc)
  }

  function WithoutDoc(st: State): State { st.(doc := "") }
}
