/** The token model: the closed set of token kinds, tokens, and the keyword table
    that turns a run of letters into a keyword kind. */
module Tokens {

  /** Every kind the lexer and the parser use. LET, BOOL, STRING_VAL, INT_VAL,
      LBRACKET and RBRACKET are used by lexer/lexer.go and parser/parser.go but
      declared in no token table of this model's sources; they are included here. */
  datatype Kind =
    | Ident | Illegal | Eof
    | Assign | Equals | Plus | Minus | Asterisk | Slash
    | Gt | Egt | Lt | Elt | Bang | Neq
    | Colon | Comma | Semicolon | LParen | RParen | LBrace | RBrace | LBracket | RBracket
    | StringType | IntType | BoolType
    | StringVal | IntVal
    | Let | Function | True | False | If | Else | Return

  /** The text of each kind, as token/token.go spells the kinds it defines; the text
      of the six kinds it does not define is assumed. The text appears in the parser's
      diagnostics and the evaluator's messages. */
  function KindName(k: Kind): (name: string)
    ensures |name| > 0
  {
    match k
    case Ident => "IDENT"
    case Illegal => "ILLEGAL"
    case Eof => "EOF"
    case Assign => "="
    case Equals => "=="
    case Plus => "+"
    case Minus => "-"
    case Asterisk => "*"
    case Slash => "/"
    case Gt => ">"
    case Egt => ">="
    case Lt => "<"
    case Elt => "<="
    case Bang => "!"
    case Neq => "!="
    case Colon => ":"
    case Comma => ","
    case Semicolon => ";"
    case LParen => "("
    case RParen => ")"
    case LBrace => "{"
    case RBrace => "}"
    case LBracket => "["
    case RBracket => "]"
    case StringType => "STRING"
    case IntType => "INT"
    case BoolType => "BOOL"
    case StringVal => "STRING_VAL"
    case IntVal => "INT_VAL"
    case Let => "LET"
    case Function => "FUNCTION"
    case True => "TRUE"
    case False => "FALSE"
    case If => "IF"
    case Else => "ELSE"
    case Return => "RETURN"
  }

  datatype Token = Token(kind: Kind, literal: string)

  /** token.New: a token whose literal is the single code point `r`. */
  function New(kind: Kind, r: char): (t: Token)
    ensures t.kind == kind && |t.literal| == 1 && t.literal[0] == r
  {
    Token(kind, [r])
  }

  /** The keyword table: six Cyrillic words and the kinds they stand for. */
  const Keywords: map<string, Kind> := map[
    "функция" := Function,
    "истина" := True,
    "ложь" := False,
    "если" := If,
    "иначе" := Else,
    "вернуть" := Return
  ]

  /** The kinds that only a keyword can produce. */
  predicate IsKeywordKind(k: Kind)
  {
    k in {Function, True, False, If, Else, Return}
  }

  /** LookupIdent: the keyword's kind for a word of the table, IDENT for every other word. */
  function LookupIdent(word: string): (k: Kind)
    ensures word in Keywords ==> k == Keywords[word] && IsKeywordKind(k)
    ensures word !in Keywords ==> k == Ident
  {
    if word in Keywords then Keywords[word] else Ident
  }

  /** Each of the six keywords maps to its kind. */
  lemma KeywordKinds()
    ensures LookupIdent("функция") == Function
    ensures LookupIdent("истина") == True
    ensures LookupIdent("ложь") == False
    ensures LookupIdent("если") == If
    ensures LookupIdent("иначе") == Else
    ensures LookupIdent("вернуть") == Return
  {
  }

  /** The table is injective: distinct keywords have distinct kinds. */
  lemma KeywordsInjective(a: string, b: string)
    requires a in Keywords && b in Keywords && a != b
    ensures Keywords[a] != Keywords[b]
  {
  }

  /** LookupIdent yields IDENT exactly for the words outside the table. */
  lemma LookupIdentIsIdent(word: string)
    ensures LookupIdent(word) == Ident <==> word !in Keywords
  {
  }
}
