/** Text in, syntax tree out: the parser reading what the lexer delivers. */
module FrontEnd {
  import opened Bytes
  import opened Definitions
  import opened Tokens
  import opened Printer
  import Spec = ParserSpec
  import Lexer

  function ToList(ts: seq<Token>): Tokens { if ts == [] then Nil else Cons(ts[0], ToList(ts[1..])) }

  function Read(text: string): Spec.Parsed<Namespace> {
    match Lexer.LexAll(text)
    case None => Spec.No
    case Some(ts) => Spec.Parse(ToList(ts))
  }

  /** However a source is laid out, its text is read back as its tree, or rejected when a class member is taken for a
      constructor. */
  lemma ReadUndoesWrite(src: Source, ps: seq<Lexer.Piece>, tail: string)
    requires Writable(src) && Lexer.WellPrinted(ps, tail) && ToList(Lexer.TokensOf(ps)) == Print(src)
    ensures Read(Lexer.Text(ps, tail)) ==
            if exists d :: d in src.definitions && HasClash(d) then Spec.No else Spec.Yes(Meaning(src), State(Nil, ""))
  {
    Lexer.LexUndoesPrint(ps, tail);
    ParseUndoesPrint(src);
  }
}
