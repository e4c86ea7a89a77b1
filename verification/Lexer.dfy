/** The lexer (compiler/lexer.cpp): what the next token of a text is, the proof that lexing undoes printing, and the
    lexer object with its line and column. */
module Lexer {
  import opened Bytes
  import opened Ast
  import opened Tokens

  const INT64_MAX: int := 0x7FFF_FFFF_FFFF_FFFF

  /** The kinds of characters the lexer collects in a row. */
  datatype CharClass = WordChars | Digits | HexDigits | LineChars

  predicate IsDigit(c: char) { '0' <= c <= '9' }

  predicate IsAlpha(c: char) { 'a' <= c <= 'z' || 'A' <= c <= 'Z' }

  predicate IsWordChar(c: char) { IsAlpha(c) || IsDigit(c) || c == '_' }

  predicate IsSpace(c: char) { c == ' ' || c == '\t' || c == '\r' || c == '\n' }

  predicate In(cls: CharClass, c: char) {
    match cls
    case WordChars => IsWordChar(c)
    case Digits => IsDigit(c)
    case HexDigits => IsDigit(c) || 'a' <= c <= 'f' || 'A' <= c <= 'F'
    case LineChars => c != '\n'
  }

  /** How many characters of a class a text starts with. */
  function RunLength(cls: CharClass, s: string): (n: nat)
    ensures n <= |s|
    ensures forall i :: 0 <= i < n ==> In(cls, s[i])
    ensures n < |s| ==> !In(cls, s[n])
  {
    if s != "" && In(cls, s[0]) then 1 + RunLength(cls, s[1..]) else 0
  }

  function SkipSpace(s: string): (r: string)
    ensures |r| <= |s| && (r != "" ==> !IsSpace(r[0]))
  {
    if s != "" && IsSpace(s[0]) then SkipSpace(s[1..]) else s
  }

  function SkipLine(s: string): string { s[RunLength(LineChars, s)..] }

  predicate IsComment(s: string) { |s| >= 2 && s[0] == '/' && s[1] == '/' }

  predicate IsDoc(s: string) { IsComment(s) && |s| > 2 && s[2] == '/' }

  function Keyword(text: string): Option<Token> {
    if text == "namespace" then Some(KwNamespace)
    else if text == "struct" then Some(KwStruct)
    else if text == "class" then Some(KwClass)
    else if text == "enum" then Some(KwEnum)
    else if text == "flags" then Some(KwFlags)
    else if text == "service" then Some(KwService)
    else if text == "error" then Some(KwError)
    else if text == "readonly" then Some(KwReadonly)
    else if text == "optional" then Some(KwOptional)
    else if text == "stream" then Some(KwStream)
    else if text == "throws" then Some(KwThrows)
    else match PrimitiveKeyword(text) case None => None case Some(p) => Some(KwPrimitive(p))
  }

  function PrimitiveKeyword(text: string): Option<Primitive> {
    if text == "bool" then Some(Bool)
    else if text == "i8" then Some(I8)
    else if text == "i16" then Some(I16)
    else if text == "i32" then Some(I32)
    else if text == "i64" then Some(I64)
    else if text == "u8" then Some(U8)
    else if text == "u16" then Some(U16)
    else if text == "u32" then Some(U32)
    else if text == "u64" then Some(U64)
    else if text == "f32" then Some(F32)
    else if text == "f64" then Some(F64)
    else if text == "string" then Some(Str)
    else if text == "bytes" then Some(Blob)
    else if text == "void" then Some(Void)
    else None
  }

  function WordToken(text: string): (t: Token)
    ensures !t.Eof? && !t.DocComment? && !t.Integer?
  {
    match Keyword(text)
    case None => Identifier(text)
    case Some(k) => if k.Eof? || k.DocComment? || k.Integer? then Identifier(text) else k
  }

  function Symbol(c: char): (t: Option<Token>)
    ensures t.Some? ==> !t.value.Eof? && !t.value.DocComment? && !IsWordChar(c) && c != '-' && c != '/' && !IsSpace(c)
  {
    match c
    case ';' => Some(Semicolon)
    case ',' => Some(Comma)
    case ':' => Some(Colon)
    case '.' => Some(Dot)
    case '{' => Some(LBrace)
    case '}' => Some(RBrace)
    case '(' => Some(LParen)
    case ')' => Some(RParen)
    case '[' => Some(LBracket)
    case ']' => Some(RBracket)
    case '?' => Some(Question)
    case '=' => Some(Equals)
    case _ => None
  }

  function DigitValue(c: char): nat {
    if IsDigit(c) then c as int - '0' as int
    else if 'a' <= c <= 'f' then c as int - 'a' as int + 10
    else if 'A' <= c <= 'F' then c as int - 'A' as int + 10
    else 0
  }

  /** std::stoll on digits of a base. */
  function NumberOf(digits: string, base: nat): nat {
    if digits == "" then 0 else base * NumberOf(digits[..|digits| - 1], base) + DigitValue(digits[|digits| - 1])
  }

  /** The next token, the text from its first character on, and the text behind it. */
  datatype Lexed = Lexed(token: Token, at: string, rest: string) | Rejected

  function ScanWord(s: string): Lexed {
    var n := RunLength(WordChars, s);
    Lexed(WordToken(s[..n]), s, s[n..])
  }

  function ScanNumber(digits: string, base: nat, s: string, rest: string): Lexed {
    if digits == "" || NumberOf(digits, base) > INT64_MAX then Rejected else Lexed(Integer(NumberOf(digits, base)), s, rest)
  }

  predicate IsHex(s: string) { |s| >= 2 && s[0] == '0' && (s[1] == 'x' || s[1] == 'X') }

  function ScanInteger(s: string): Lexed {
    if IsHex(s) then
      var n := RunLength(HexDigits, s[2..]);
      ScanNumber(s[2..2 + n], 16, s, s[2 + n..])
    else
      var n := RunLength(Digits, s);
      ScanNumber(s[..n], 10, s, s[n..])
  }

  function ScanDoc(s: string): Lexed
    requires |s| >= 3
  {
    var text := if |s| > 3 && s[3] == ' ' then s[4..] else s[3..];
    var n := RunLength(LineChars, text);
    Lexed(DocComment(text[..n]), s, text[n..])
  }

  function ScanToken(s: string): (r: Lexed)
    requires s != "" && !IsSpace(s[0]) && (IsComment(s) ==> IsDoc(s))
    ensures r.Lexed? ==> |r.rest| < |s| && !r.token.Eof?
  {
    if IsDoc(s) then ScanDoc(s)
    else if Symbol(s[0]).Some? then Lexed(Symbol(s[0]).value, s, s[1..])
    else if |s| >= 2 && s[0] == '-' && s[1] == '>' then Lexed(Arrow, s, s[2..])
    else if IsDigit(s[0]) then ScanInteger(s)
    else if IsAlpha(s[0]) || s[0] == '_' then ScanWord(s)
    else Rejected
  }

  function Scan(s: string): (r: Lexed)
    ensures r.Lexed? && !r.token.Eof? ==> |r.rest| < |s|
    decreases |s|
  {
    var r := SkipSpace(s);
    if r == "" then Lexed(Eof, r, r)
    else if IsComment(r) && !IsDoc(r) then Scan(SkipLine(r))
    else ScanToken(r)
  }

  /** All tokens of a text, the final Eof left out. */
  function LexAll(s: string): Option<seq<Token>>
    decreases |s|
  {
    match Scan(s)
    case Rejected => None
    case Lexed(t, _, rest) =>
      if t.Eof? then Some([])
      else match LexAll(rest)
        case None => None
        case Some(ts) => Some([t] + ts)
  }

  // ---------------------------------------------------------------- printed texts

  predicate All(cls: CharClass, s: string) { forall c :: c in s ==> In(cls, c) }

  /** The ways to write a token down. */
  predicate Spells(text: string, t: Token) {
    match t
    case Eof => false
    case DocComment(d) =>
      All(LineChars, d) && (text == "/// " + d || (text == "///" + d && (d == "" || d[0] != ' ')))
    case Integer(v) =>
      || (text != "" && All(Digits, text) && NumberOf(text, 10) == v <= INT64_MAX)
      || (|text| > 2 && IsHex(text) && All(HexDigits, text[2..]) && NumberOf(text[2..], 16) == v <= INT64_MAX)
    case Arrow => text == "->"
    case _ =>
      || (|text| == 1 && Symbol(text[0]) == Some(t))
      || (text != "" && !IsDigit(text[0]) && All(WordChars, text) && WordToken(text) == t)
  }

  /** Tokens that are written in one way only. */
  predicate Fixed(t: Token) { !t.Identifier? && !t.Integer? && !t.DocComment? && !t.Eof? }

  function Spelling(t: Token): string
    requires Fixed(t)
  {
    match t
    case KwNamespace => "namespace" case KwStruct => "struct" case KwClass => "class" case KwEnum => "enum"
    case KwFlags => "flags" case KwService => "service" case KwError => "error" case KwReadonly => "readonly"
    case KwOptional => "optional" case KwStream => "stream" case KwThrows => "throws"
    case KwPrimitive(p) => PrimitiveSpelling(p)
    case Semicolon => ";" case Comma => "," case Colon => ":" case Dot => "."
    case LBrace => "{" case RBrace => "}" case LParen => "(" case RParen => ")" case LBracket => "[" case RBracket => "]"
    case Question => "?" case Arrow => "->" case Equals => "="
  }

  function PrimitiveSpelling(p: Primitive): string {
    match p
    case Bool => "bool" case I8 => "i8" case I16 => "i16" case I32 => "i32" case I64 => "i64"
    case U8 => "u8" case U16 => "u16" case U32 => "u32" case U64 => "u64" case F32 => "f32" case F64 => "f64"
    case Str => "string" case Blob => "bytes" case Void => "void"
  }

  lemma PrimitiveWords(text: string)
    ensures forall p :: PrimitiveKeyword(text) == Some(p) <==> text == PrimitiveSpelling(p)
  {
  }

  lemma KeywordWords(text: string, t: Token)
    requires Fixed(t)
    ensures Keyword(text) == Some(t) <==> !t.Arrow? && |Spelling(t)| > 1 && text == Spelling(t)
  {
    hide PrimitiveKeyword;
    PrimitiveWords(text);
  }

  lemma SymbolWords(c: char, t: Token)
    requires Fixed(t)
    ensures Symbol(c) == Some(t) <==> [c] == Spelling(t)
  {
    SpellingCharacters(t);
    if |Spelling(t)| == 1 {
      assert [c] == Spelling(t) <==> c == Spelling(t)[0];
    } else {
      assert |[c]| == 1;
    }
  }

  lemma SpellingCharacters(t: Token)
    requires Fixed(t)
    ensures |Spelling(t)| > 0
    ensures !t.Arrow? && |Spelling(t)| > 1 ==> All(WordChars, Spelling(t)) && !IsDigit(Spelling(t)[0])
    ensures |Spelling(t)| == 1 ==> !IsWordChar(Spelling(t)[0])
    ensures |Spelling(t)| > 1 ==> forall c :: Symbol(c) != Some(t)
  {
    if t.KwPrimitive? {
      PrimitiveCharacters(t.p);
    }
    hide PrimitiveSpelling;
  }

  lemma PrimitiveCharacters(p: Primitive)
    ensures |PrimitiveSpelling(p)| > 1 && All(WordChars, PrimitiveSpelling(p)) && !IsDigit(PrimitiveSpelling(p)[0])
  {
  }

  lemma SymbolsAreNoWords(text: string)
    requires text != "" && All(WordChars, text)
    ensures Symbol(text[0]).None?
  {
    assert text[0] in text;
  }

  /** Keywords, primitive types and punctuation are written as the language says, and in no other way. */
  lemma SpellsIff(text: string, t: Token)
    requires Fixed(t)
    ensures Spells(text, t) <==> text == Spelling(t)
  {
    hide Keyword, Symbol, Spelling;
    KeywordWords(text, t);
    SpellingCharacters(t);
    assert t.Arrow? ==> Spelling(t) == "->" by { ArrowSpelling(); }
    if |text| == 1 {
      SymbolWords(text[0], t);
      assert [text[0]] == text;
    }
    if |Spelling(t)| == 1 {
      assert text == Spelling(t) ==> |text| == 1;
    }
  }

  lemma ArrowSpelling()
    ensures Spelling(Arrow) == "->"
  {
  }

  lemma OtherWords(text: string)
    requires forall t :: Fixed(t) ==> Spelling(t) != text
    ensures Keyword(text).None?
  {
    hide PrimitiveKeyword, Spelling;
    if Keyword(text).Some? {
      var t := Keyword(text).value;
      if Fixed(t) {
        KeywordWords(text, t);
      }
    }
  }

  lemma NoSymbolNames(c: char, name: string)
    ensures Symbol(c) != Some(Identifier(name))
  {
  }

  /** A word is a name unless it is spelled like a keyword. */
  lemma NameIff(text: string, name: string)
    ensures Spells(text, Identifier(name)) <==>
        && text == name && text != "" && !IsDigit(text[0]) && All(WordChars, text)
        && forall t :: Fixed(t) ==> Spelling(t) != text
  {
    hide Spelling, Symbol, Keyword;
    if |text| == 1 {
      NoSymbolNames(text[0], name);
    }
    if text != "" && !IsDigit(text[0]) && All(WordChars, text) {
      if WordToken(text) == Identifier(name) {
        NoKeyword(text);
        forall t | Fixed(t)
          ensures Spelling(t) != text
        {
          KeywordWords(text, t);
          SpellingCharacters(t);
          if Spelling(t) == text {
            assert text[0] in text;
            if t.Arrow? { ArrowSpelling(); }
          }
        }
      }
      if forall t :: Fixed(t) ==> Spelling(t) != text {
        OtherWords(text);
      }
    }
  }

  lemma NoKeyword(text: string)
    requires WordToken(text).Identifier?
    ensures forall t :: Fixed(t) ==> Keyword(text) != Some(t)
  {
    hide PrimitiveKeyword;
  }

  const LOWER: string := "0123456789abcdef"
  const UPPER: string := "0123456789ABCDEF"

  /** A number written out, most significant digit first. */
  function Numeral(v: nat, digits: string): string
    requires |digits| >= 2
  {
    if v < |digits| then [digits[v]] else Numeral(v / |digits|, digits) + [digits[v % |digits|]]
  }

  lemma {:induction false} NumeralRead(v: nat, digits: string, cls: CharClass)
    requires |digits| >= 2 && (forall k :: 0 <= k < |digits| ==> DigitValue(digits[k]) == k && In(cls, digits[k]))
    ensures NumberOf(Numeral(v, digits), |digits|) == v && Numeral(v, digits) != "" && All(cls, Numeral(v, digits))
  {
    hide DigitValue, In, NumberOf;
    var base := |digits|;
    if v < base {
      DigitAppended("", digits[v], base);
      assert "" + [digits[v]] == [digits[v]] && NumberOf("", base) == 0 by { EmptyNumber(base); }
    } else {
      var high, low := v / base, v % base;
      Quotient(v, base);
      NumeralRead(high, digits, cls);
      DigitAppended(Numeral(high, digits), digits[low], base);
    }
  }

  lemma EmptyNumber(base: nat)
    ensures NumberOf("", base) == 0
  {
  }

  lemma Quotient(v: nat, base: nat)
    requires base >= 2 && v >= base
    ensures v / base < v && base * (v / base) + v % base == v
  {
  }

  lemma DigitAppended(s: string, c: char, base: nat)
    ensures NumberOf(s + [c], base) == base * NumberOf(s, base) + DigitValue(c)
  {
    assert (s + [c])[..|s + [c]| - 1] == s;
  }

  /** Every 64-bit number can be written in decimal or, behind 0x or 0X, in hexadecimal with small or capital letters. */
  lemma NumbersSpelled(v: nat)
    requires v <= 0x7FFF_FFFF_FFFF_FFFF
    ensures Spells(Numeral(v, LOWER[..10]), Integer(v))
    ensures forall x, digits :: (x == "0x" || x == "0X") && (digits == LOWER || digits == UPPER) ==>
        Spells(x + Numeral(v, digits), Integer(v))
  {
    hide NumberOf, Numeral;
    NumeralRead(v, LOWER[..10], Digits);
    NumeralRead(v, LOWER, HexDigits);
    NumeralRead(v, UPPER, HexDigits);
    forall x, digits | (x == "0x" || x == "0X") && (digits == LOWER || digits == UPPER)
      ensures Spells(x + Numeral(v, digits), Integer(v))
    {
      var text := x + Numeral(v, digits);
      assert text[2..] == Numeral(v, digits) && text[0] == '0';
    }
  }

  /** What separates tokens, and what introduces a comment and documentation. */
  lemma Separators(c: char, s: string)
    ensures IsSpace(c) <==> c in " \t\r\n"
    ensures IsComment(s) <==> "//" <= s
    ensures IsDoc(s) <==> "///" <= s
  {
  }

  predicate WordLike(text: string) { text != "" && IsWordChar(text[0]) }

  /** White space and line comments; only at the end of the text may a comment end without a newline. */
  predicate IsSeparator(s: string, final: bool)
    decreases |s|
  {
    s == "" || (IsSpace(s[0]) && IsSeparator(s[1..], final)) ||
    (IsComment(s) && !IsDoc(s) && (final || SkipLine(s) != "") && IsSeparator(SkipLine(s), final))
  }

  datatype Piece = Piece(separator: string, text: string, token: Token)

  function Text(ps: seq<Piece>, tail: string): string {
    if ps == [] then tail else ps[0].separator + (ps[0].text + Text(ps[1..], tail))
  }

  function TokensOf(ps: seq<Piece>): seq<Token> { if ps == [] then [] else [ps[0].token] + TokensOf(ps[1..]) }

  /** What may follow a spelled token directly. */
  predicate Bounded(text: string, t: Token, rest: string) {
    rest == "" || ((WordLike(text) ==> !IsWordChar(rest[0])) && (t.DocComment? ==> rest[0] == '\n'))
  }

  /** Every piece is well spelled and separated: something between word-like tokens, a line break after
      documentation. */
  predicate WellPrinted(ps: seq<Piece>, tail: string) {
    if ps == [] then IsSeparator(tail, true)
    else
      var next := if |ps| == 1 then tail else ps[1].separator;
      && IsSeparator(ps[0].separator, false) && Spells(ps[0].text, ps[0].token)
      && (ps[0].token.DocComment? ==> if next == "" then |ps| == 1 else next[0] == '\n')
      && (|ps| > 1 && WordLike(ps[0].text) && WordLike(ps[1].text) ==> next != "")
      && WellPrinted(ps[1..], tail)
  }

  // ---------------------------------------------------------------- lexing undoes printing

  lemma {:induction false} RunOfConcat(cls: CharClass, a: string, b: string)
    requires All(cls, a) && (b == "" || !In(cls, b[0]))
    ensures RunLength(cls, a + b) == |a|
  {
    if a == "" {
      assert a + b == b;
    } else {
      assert (a + b)[1..] == a[1..] + b;
      assert forall c :: c in a[1..] ==> c in a;
      RunOfConcat(cls, a[1..], b);
    }
  }

  lemma {:induction false} LineOfConcat(a: string, b: string)
    requires SkipLine(a) != ""
    ensures SkipLine(a + b) == SkipLine(a) + b
  {
    if a[0] != '\n' {
      assert SkipLine(a) == SkipLine(a[1..]);
      LineOfConcat(a[1..], b);
      assert (a + b)[1..] == a[1..] + b;
      assert SkipLine(a + b) == SkipLine(a[1..] + b);
    }
  }

  /** A separator makes no difference to the next token. */
  lemma {:induction false} SeparatorSkipped(s: string, rest: string)
    requires IsSeparator(s, false)
    ensures Scan(s + rest) == Scan(rest)
    decreases |s|
  {
    var whole := s + rest;
    if s == "" {
      assert whole == rest;
    } else if IsSpace(s[0]) {
      assert whole[1..] == s[1..] + rest;
      assert SkipSpace(whole) == SkipSpace(s[1..] + rest);
      SeparatorSkipped(s[1..], rest);
    } else {
      LineOfConcat(s, rest);
      assert SkipSpace(whole) == whole && IsComment(whole);
      assert |s| > 2;
      SeparatorSkipped(SkipLine(s), rest);
    }
  }

  lemma {:induction false} TailSkipped(s: string)
    requires IsSeparator(s, true)
    ensures Scan(s) == Lexed(Eof, "", "")
    decreases |s|
  {
    if s != "" {
      if IsSpace(s[0]) {
        assert SkipSpace(s) == SkipSpace(s[1..]);
        TailSkipped(s[1..]);
      } else {
        TailSkipped(SkipLine(s));
      }
    }
  }

  lemma NumberScanned(text: string, v: int, rest: string)
    requires Spells(text, Integer(v)) && (rest == "" || !IsWordChar(rest[0]))
    ensures IsDigit(text[0]) && ScanInteger(text + rest) == Lexed(Integer(v), text + rest, rest)
  {
    var s := text + rest;
    if All(Digits, text) {
      assert text[0] in text;
      if |text| > 1 { assert text[1] in text; }
      assert !IsHex(s);
      RunOfConcat(Digits, text, rest);
      assert s[..|text|] == text && s[|text|..] == rest;
    } else {
      RunOfConcat(HexDigits, text[2..], rest);
      assert s[2..] == text[2..] + rest;
      assert s[2..|text|] == text[2..] && s[|text|..] == rest;
    }
  }

  lemma WordScanned(text: string, rest: string)
    requires text != "" && All(WordChars, text) && (rest == "" || !IsWordChar(rest[0]))
    ensures ScanWord(text + rest) == Lexed(WordToken(text), text + rest, rest)
  {
    hide WordToken;
    RunOfConcat(WordChars, text, rest);
    assert (text + rest)[..|text|] == text && (text + rest)[|text|..] == rest;
  }

  lemma DocTextScanned(s: string, d: string, rest: string)
    requires IsDoc(s) && All(LineChars, d) && (rest == "" || rest[0] == '\n')
    requires (if |s| > 3 && s[3] == ' ' then s[4..] else s[3..]) == d + rest
    ensures ScanDoc(s) == Lexed(DocComment(d), s, rest)
  {
    hide All, RunLength;
    RunOfConcat(LineChars, d, rest);
    assert (d + rest)[..|d|] == d && (d + rest)[|d|..] == rest;
  }

  lemma DocScanned(text: string, d: string, rest: string)
    requires Spells(text, DocComment(d)) && (rest == "" || rest[0] == '\n')
    ensures IsDoc(text) && ScanDoc(text + rest) == Lexed(DocComment(d), text + rest, rest)
  {
    hide All, ScanDoc;
    var s := text + rest;
    var n := |text| - |d|;
    assert n == 3 || n == 4;
    assert text[..n] == "///" || text[..n] == "/// ";
    assert text[n..] == d && s[n..] == d + rest;
    assert s[0] == text[0] && s[1] == text[1] && s[2] == text[2];
    DocTextScanned(s, d, rest);
  }

  lemma TokenScanned(text: string, t: Token, rest: string)
    requires Spells(text, t) && Bounded(text, t, rest)
    ensures Scan(text + rest) == Lexed(t, text + rest, rest)
  {
    hide WordToken, ScanInteger, ScanDoc, ScanWord, NumberOf;
    var s := text + rest;
    if t.DocComment? {
      DocScanned(text, t.text, rest);
      assert IsDoc(s) && SkipSpace(s) == s;
    } else if t.Integer? {
      if text != "" { assert text[0] in text; }
      NumberScanned(text, t.value, rest);
      assert SkipSpace(s) == s;
    } else if t.Arrow? || (|text| == 1 && Symbol(text[0]) == Some(t)) {
      assert SkipSpace(s) == s && s[|text|..] == rest;
    } else {
      assert text[0] in text;
      WordScanned(text, rest);
      assert SkipSpace(s) == s;
    }
  }

  /** The text behind a piece starts in a way that ends the piece. */
  lemma PieceBounded(ps: seq<Piece>, tail: string)
    requires ps != [] && WellPrinted(ps, tail)
    ensures Bounded(ps[0].text, ps[0].token, Text(ps[1..], tail))
  {
    hide Spells, WordToken, NumberOf;
    if |ps| > 1 {
      var rest := ps[1..];
      assert WellPrinted(rest, tail);
      SpellingStarts(rest[0].text, rest[0].token);
    }
  }

  lemma SpellingStarts(text: string, t: Token)
    requires Spells(text, t)
    ensures text != "" && text[0] != '\n'
  {
    if t.DocComment? {
      assert text[0] == '/';
    } else if !t.Arrow? {
      assert text[0] in text;
    }
  }

  /** Lexing undoes printing, however the tokens are separated. */
  lemma {:induction false} LexUndoesPrint(ps: seq<Piece>, tail: string)
    requires WellPrinted(ps, tail)
    ensures LexAll(Text(ps, tail)) == Some(TokensOf(ps))
  {
    hide Spells, WordToken, ScanToken;
    if ps == [] {
      TailSkipped(tail);
    } else {
      var p, rest := ps[0], Text(ps[1..], tail);
      SeparatorSkipped(p.separator, p.text + rest);
      PieceBounded(ps, tail);
      TokenScanned(p.text, p.token, rest);
      LexUndoesPrint(ps[1..], tail);
      assert !p.token.Eof? by { NeverEof(p.text, p.token); }
    }
  }

  lemma NeverEof(text: string, t: Token)
    requires Spells(text, t)
    ensures !t.Eof?
  {
  }

  // ---------------------------------------------------------------- the lexer itself

  /** The line and column of a position, computed from the text before it. */
  function Place(input: string, pos: nat): (nat, nat)
    requires pos <= |input|
  {
    if pos == 0 then (1, 1)
    else
      var (line, column) := Place(input, pos - 1);
      if input[pos - 1] == '\n' then (line + 1, 1) else (line, column + 1)
  }

  function Newlines(text: string): nat { if text == "" then 0 else (if text[0] == '\n' then 1 else 0) + Newlines(text[1..]) }

  /** The line is one more than the newlines ahead; the column is one more than the characters since the last of them. */
  lemma {:induction false} PlaceCounts(above: string, line: string, rest: string)
    requires above == "" || above[|above| - 1] == '\n'
    requires '\n' !in line
    ensures Place(above + line + rest, |above| + |line|) == (1 + Newlines(above), 1 + |line|)
    decreases |above| + |line|
  {
    var n, input := |line| - 1, above + line + rest;
    if line != "" {
      assert input == above + line[..n] + (line[n..] + rest);
      PlaceCounts(above, line[..n], line[n..] + rest);
      assert input[|above| + n] == line[n] && line[n] in line;
    } else if above != "" {
      var m := |above| - 1;
      NewlinesJoin(above[..m], above[m..]);
      assert above == above[..m] + above[m..] && above[m..] == "\n" && Newlines("\n"[1..]) == 0;
      assert input[m] == '\n';
      LineOf(above[..m], above[m..] + line + rest);
      assert input == above[..m] + (above[m..] + line + rest);
    }
  }

  lemma {:induction false} NewlinesJoin(a: string, b: string)
    ensures Newlines(a + b) == Newlines(a) + Newlines(b)
  {
    if a == "" {
      assert a + b == b;
    } else {
      NewlinesJoin(a[1..], b);
      assert (a + b)[1..] == a[1..] + b;
    }
  }

  lemma {:induction false} LineOf(ahead: string, rest: string)
    ensures Place(ahead + rest, |ahead|).0 == 1 + Newlines(ahead)
  {
    if ahead != "" {
      var n := |ahead| - 1;
      assert ahead + rest == ahead[..n] + (ahead[n..] + rest) && ahead == ahead[..n] + ahead[n..];
      LineOf(ahead[..n], ahead[n..] + rest);
      NewlinesJoin(ahead[..n], ahead[n..]);
      assert (ahead + rest)[n] == ahead[n] && ahead[n..][1..] == "" && Newlines("") == 0;
    }
  }

  datatype Located = Token(token: Token, line: nat, column: nat) | LexError

  class Lexer {
    const input: string
    var current: nat
    var line: nat
    var column: nat

    /** In every state the line and column are those of the consumed text. */
    ghost predicate Valid()
      reads this
    {
      current <= |input| && (line, column) == Place(input, current)
    }

    ghost function Rest(): string
      requires current <= |input|
      reads this
    {
      input[current..]
    }

    predicate AtComment()
      requires current <= |input|
      reads this
      ensures AtComment() <==> IsComment(Rest())
    {
      current + 1 < |input| && input[current] == '/' && input[current + 1] == '/'
    }

    predicate AtDoc()
      requires current <= |input|
      reads this
      ensures AtDoc() <==> IsDoc(Rest())
    {
      AtComment() && current + 2 < |input| && input[current + 2] == '/'
    }

    constructor (input: string)
      ensures Valid() && this.input == input && Rest() == input
    {
      this.input := input;
      current, line, column := 0, 1, 1;
    }

    method Advance()
      requires Valid() && (current < |input| ==> input[current] != '\n')
      modifies this
      ensures Valid() && current == if old(current) < |input| then old(current) + 1 else old(current)
      ensures Rest() == if old(current) < |input| then old(Rest())[1..] else old(Rest())
      ensures line == old(line)
    {
      if current < |input| {
        current := current + 1;
        column := column + 1;
      }
    }

    method SkipWhitespace()
      requires Valid()
      modifies this
      ensures Valid() && Rest() == SkipSpace(old(Rest())) && current >= old(current)
    {
      while current < |input|
        invariant Valid() && SkipSpace(Rest()) == SkipSpace(old(Rest())) && current >= old(current)
        decreases |input| - current
      {
        var c := input[current];
        assert Rest()[1..] == input[current + 1..];
        if c == ' ' || c == '\t' || c == '\r' {
          Advance();
        } else if c == '\n' {
          current := current + 1;
          line := line + 1;
          column := 1;
        } else {
          break;
        }
      }
    }

    /** Collects characters of a class as long as they come. */
    method TakeRun(cls: CharClass) returns (value: string)
      requires Valid()
      modifies this
      ensures Valid() && line == old(line) && current == old(current) + RunLength(cls, old(Rest()))
      ensures value == old(Rest())[..RunLength(cls, old(Rest()))] && Rest() == old(Rest())[|value|..]
    {
      hide Place;
      ghost var start := current;
      value := "";
      while current < |input| && In(cls, input[current])
        invariant Valid() && line == old(line) && current >= start && value == input[start..current]
        invariant current - start + RunLength(cls, Rest()) == RunLength(cls, old(Rest()))
        decreases |input| - current
      {
        assert Rest()[1..] == input[current + 1..];
        value := value + [input[current]];
        Advance();
      }
    }

    method NextToken() returns (r: Located)
      requires Valid()
      modifies this
      ensures Agrees(Scan(old(Rest())), r)
      decreases |input| - current
    {
      hide Place, ScanToken, RunLength;
      SkipWhitespace();
      if current == |input| {
        return Token(Eof, line, column);
      }
      if AtComment() && !AtDoc() {
        var _ := TakeRun(LineChars);
        r := NextToken();
        return;
      }
      r := LexToken();
    }

    /** A token and its place agree with what the text says. */
    ghost predicate Agrees(l: Lexed, r: Located)
      reads this
    {
      match l
      case Lexed(t, at, rest) =>
        && Valid() && Rest() == rest && |at| <= |input|
        && r == Token(t, Place(input, |input| - |at|).0, Place(input, |input| - |at|).1)
      case Rejected => r == LexError
    }

    method LexToken() returns (r: Located)
      requires Valid() && current < |input| && !IsSpace(input[current]) && (IsComment(Rest()) ==> IsDoc(Rest()))
      modifies this
      ensures Agrees(ScanToken(old(Rest())), r)
    {
      hide Place, ScanInteger, ScanDoc, WordToken, RunLength;
      var c := input[current];
      ghost var at := Rest();
      assert at[0] == c && |input| - |at| == current;
      var startLine, startColumn := line, column;
      if AtDoc() {
        r := LexDocComment();
      } else if Symbol(c).Some? {
        Advance();
        r := Token(Symbol(c).value, startLine, startColumn);
      } else if c == '-' && current + 1 < |input| && input[current + 1] == '>' {
        Advance();
        Advance();
        assert Rest() == at[2..];
        r := Token(Arrow, startLine, startColumn);
      } else if IsDigit(c) {
        r := LexInteger();
      } else if IsAlpha(c) || c == '_' {
        var text := TakeRun(WordChars);
        r := Token(WordToken(text), line, startColumn);
      } else {
        r := LexError;
      }
    }

    method LexDocComment() returns (r: Located)
      requires Valid() && IsDoc(Rest())
      modifies this
      ensures var l := ScanDoc(old(Rest()));
              l.Lexed? && l.at == old(Rest()) && Valid() && Rest() == l.rest && r == Token(l.token, old(line), old(column))
    {
      hide Place, RunLength;
      ghost var s := Rest();
      assert input[current] == s[0] && input[current + 1] == s[1] && input[current + 2] == s[2];
      var startColumn := column;
      Advance();
      Advance();
      Advance();
      assert Rest() == s[3..];
      if current < |input| && input[current] == ' ' {
        Advance();
      }
      assert Rest() == if |s| > 3 && s[3] == ' ' then s[4..] else s[3..];
      var text := TakeRun(LineChars);
      r := Token(DocComment(text), line, startColumn);
    }

    method LexInteger() returns (r: Located)
      requires Valid() && current < |input| && IsDigit(input[current])
      modifies this
      ensures match ScanInteger(old(Rest()))
              case Lexed(t, at, rest) => Valid() && Rest() == rest && at == old(Rest()) && r == Token(t, old(line), old(column))
              case Rejected => r == LexError
    {
      hide Place, RunLength, NumberOf;
      var startColumn := column;
      ghost var s := Rest();
      var digits, base;
      if input[current] == '0' && current + 1 < |input| && (input[current + 1] == 'x' || input[current + 1] == 'X') {
        Advance();
        Advance();
        assert Rest() == s[2..] && IsHex(s);
        digits := TakeRun(HexDigits);
        base := 16;
        HexSlices(s, |digits|);
      } else {
        assert !IsHex(s);
        digits := TakeRun(Digits);
        base := 10;
        StartsWithDigit(s);
      }
      assert ScanInteger(s) == ScanNumber(digits, base, s, Rest());
      if digits == "" || NumberOf(digits, base) > INT64_MAX {
        return LexError;
      }
      r := Token(Integer(NumberOf(digits, base)), line, startColumn);
    }
  }

  lemma HexSlices(s: string, n: nat)
    requires n + 2 <= |s|
    ensures s[2..][..n] == s[2..2 + n] && s[2..][n..] == s[2 + n..]
  {
  }

  lemma StartsWithDigit(s: string)
    requires s != "" && IsDigit(s[0])
    ensures RunLength(Digits, s) > 0
  {
  }

  /** What has been found so far and what the rest of the input holds make up the whole token list. */
  ghost predicate Remaining(input: string, done: seq<Token>, rest: string) {
    && (LexAll(input).Some? <==> LexAll(rest).Some?)
    && (LexAll(input).Some? ==> LexAll(input).value == done + LexAll(rest).value)
  }

  lemma NothingDone(input: string)
    ensures Remaining(input, [], input) && AreTokens([], [])
  {
  }

  lemma OneMoreToken(found: seq<Located>, tokens: seq<Token>, t: Located)
    requires AreTokens(found, tokens) && t.Token?
    ensures AreTokens(found + [t], tokens + [t.token])
  {
  }

  lemma TokenDone(input: string, done: seq<Token>, s: string)
    requires Remaining(input, done, s)
    ensures var l := Scan(s);
            if l.Rejected? then LexAll(input).None?
            else if l.token.Eof? then LexAll(input) == Some(done)
            else |l.rest| < |s| && Remaining(input, done + [l.token], l.rest)
  {
    hide Scan;
    LexAllStep(s);
    var l := Scan(s);
    assert done + [] == done;
    if l.Lexed? && !l.token.Eof? && LexAll(input).Some? {
      Assoc(done, [l.token], LexAll(l.rest).value);
    }
  }

  predicate AreTokens(found: seq<Located>, tokens: seq<Token>) {
    |found| == |tokens| && forall k :: 0 <= k < |found| ==> found[k].Token? && found[k].token == tokens[k]
  }

  /** Calling next_token until the end of the input. */
  method Tokenize(input: string) returns (r: Option<seq<Located>>)
    ensures r.Some? <==> LexAll(input).Some?
    ensures r.Some? ==> AreTokens(r.value, LexAll(input).value)
  {
    hide Scan, Place, LexAll, Remaining, AreTokens;
    var lexer := new Lexer(input);
    var found: seq<Located> := [];
    ghost var done: seq<Token> := [];
    NothingDone(input);
    while true
      invariant lexer.Valid() && lexer.input == input && fresh(lexer)
      invariant Remaining(input, done, lexer.Rest())
      invariant AreTokens(found, done)
      decreases |lexer.Rest()|
    {
      TokenDone(input, done, lexer.Rest());
      var t := lexer.NextToken();
      if t.LexError? {
        return None;
      }
      if t.token.Eof? {
        return Some(found);
      }
      OneMoreToken(found, done, t);
      found := found + [t];
      done := done + [t.token];
    }
  }

  lemma Assoc(a: seq<Token>, b: seq<Token>, c: seq<Token>)
    ensures (a + b) + c == a + (b + c)
  {
  }

  lemma LexAllStep(s: string)
    ensures match Scan(s)
            case Rejected => LexAll(s).None?
            case Lexed(t, _, rest) =>
              if t.Eof? then LexAll(s) == Some([])
              else |rest| < |s| && (LexAll(s).Some? <==> LexAll(rest).Some?) && (LexAll(s).Some? ==> LexAll(s).value == [t] + LexAll(rest).value)
  {
    hide ScanToken, SkipSpace, SkipLine;
  }
}
