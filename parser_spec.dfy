/** What the Pratt parser computes, as functions of the token sequence and a parser
    state: the position of the current token in the sequence and the error list. The
    class in module Parsing is proved to do exactly this, step by step. */
module ParserSpec {
  import opened Base
  import opened Tokens
  import opened Ast

  // ----- precedence -----

  const PrecLowest: nat := 1
  const PrecEquals: nat := 2
  const PrecLessGreater: nat := 3
  const PrecSum: nat := 4
  const PrecProduct: nat := 5
  const PrecPrefix: nat := 6
  const PrecCall: nat := 7

  /** The precedence table; a kind outside it has the lowest precedence. */
  function Precedence(k: Kind): nat
  {
    match k
    case Equals => PrecEquals
    case Neq => PrecEquals
    case Lt => PrecLessGreater
    case Gt => PrecLessGreater
    case Egt => PrecLessGreater
    case Elt => PrecLessGreater
    case Plus => PrecSum
    case Minus => PrecSum
    case Slash => PrecProduct
    case Asterisk => PrecProduct
    case _ => PrecLowest
  }

  /** The ladder is strictly ordered, and each operator sits on its rung. */
  lemma PrecedenceLadder(k: Kind)
    ensures PrecLowest < PrecEquals < PrecLessGreater < PrecSum < PrecProduct < PrecPrefix < PrecCall
    ensures k in {Equals, Neq} <==> Precedence(k) == PrecEquals
    ensures k in {Lt, Gt, Egt, Elt} <==> Precedence(k) == PrecLessGreater
    ensures k in {Plus, Minus} <==> Precedence(k) == PrecSum
    ensures k in {Asterisk, Slash} <==> Precedence(k) == PrecProduct
    ensures !(k in {Equals, Neq, Lt, Gt, Egt, Elt, Plus, Minus, Asterisk, Slash}) <==> Precedence(k) == PrecLowest
  {
  }

  /** The kinds with a registered prefix parse function. */
  predicate HasPrefixRule(k: Kind)
    ensures HasPrefixRule(k) && HasInfixRule(k) <==> k == Minus
    ensures HasPrefixRule(k) ==> k !in {Eof, Semicolon, RParen, RBrace, Assign, Colon, Comma}
  {
    k in {Ident, IntVal, StringVal, True, False, Bang, Minus, LParen}
  }

  /** The kinds with a registered infix parse function. */
  predicate HasInfixRule(k: Kind)
    ensures HasInfixRule(k) <==> Precedence(k) > PrecLowest
  {
    k in {Plus, Minus, Asterisk, Slash, Lt, Elt, Gt, Egt, Equals, Neq}
  }

  /** Exactly the kinds that bind tighter than LOWEST have an infix rule, so the loop in
      parseExpression never finds an operator without one. */
  lemma InfixRulesMatchPrecedences(k: Kind)
    ensures HasInfixRule(k) <==> Precedence(k) > PrecLowest
  {
  }

  // ----- strconv.ParseInt(text, 0, 64) -----

  /** The value of one byte as a digit in bases up to 36; 36 for every other byte. */
  function DigitVal(c: char): (d: nat)
    ensures d <= 36
  {
    if '0' <= c <= '9' then (c as int) - ('0' as int)
    else if 'a' <= c <= 'z' then (c as int) - ('a' as int) + 10
    else if 'A' <= c <= 'Z' then (c as int) - ('A' as int) + 10
    else 36
  }

  predicate AllDigitsIn(s: string, base: nat)
  {
    forall i :: 0 <= i < |s| ==> DigitVal(s[i]) < base
  }

  function ValueIn(s: string, base: nat): nat
  {
    if |s| == 0 then 0 else ValueIn(s[..|s| - 1], base) * base + DigitVal(s[|s| - 1])
  }

  /** Base 0: "0b", "0o", "0x" (either case, with at least one more byte) select 2, 8
      and 16; any other leading "0" selects octal and is dropped; otherwise base 10. */
  function BasePrefix(s: string): (r: (nat, string))
    requires |s| > 0
  {
    if s[0] != '0' then (10, s)
    else if |s| >= 3 && s[1] in "bB" then (2, s[2..])
    else if |s| >= 3 && s[1] in "oO" then (8, s[2..])
    else if |s| >= 3 && s[1] in "xX" then (16, s[2..])
    else (8, s[1..])
  }

  /** ParseUint in base 0: the value of the digits after the base prefix, or None
      when some byte is no digit of that base. */
  function ParseUnsigned(u: string): Option<nat>
  {
    if |u| == 0 then None
    else
      var (base, ds) := BasePrefix(u);
      if AllDigitsIn(ds, base) then Some(ValueIn(ds, base)) else None
  }

  /** The integer the text denotes, or None where ParseInt reports a syntax or range error. */
  function ParseInt(s: string): (r: Option<int>)
    ensures r.Some? ==> -0x8000_0000_0000_0000 <= r.value <= 0x7FFF_FFFF_FFFF_FFFF
  {
    if |s| == 0 then None
    else
      var neg := s[0] == '-';
      var u := ParseUnsigned(if s[0] == '+' || s[0] == '-' then s[1..] else s);
      if u.None? then None
      else if neg && u.value <= 0x8000_0000_0000_0000 then Some(-(u.value as int))
      else if !neg && u.value < 0x8000_0000_0000_0000 then Some(u.value)
      else None
  }

  lemma ValueInDecimal(s: string)
    requires forall i :: 0 <= i < |s| ==> IsAsciiDigit(s[i])
    ensures AllDigitsIn(s, 10) && ValueIn(s, 10) == DigitsValue(s, 10)
  {
    if |s| > 0 {
      ValueInDecimal(s[..|s| - 1]);
    }
  }

  lemma NatToDecimalLeading(n: nat)
    requires n > 0
    ensures NatToDecimal(n)[0] != '0'
  {
    if n >= 10 {
      NatToDecimalLeading(n / 10);
    }
  }

  /** Decimal text is read in base 10 (octal only when it starts with a 0, which
      decimal text of a positive number never does) and gives back its number. */
  lemma ParseUnsignedDecimal(n: nat)
    ensures ParseUnsigned(NatToDecimal(n)) == Some(n)
  {
    var s := NatToDecimal(n);
    DecimalRoundTrip(n);
    if n == 0 {
      assert DigitChar(0) == '0';
      assert s == "0";
      assert s[1..] == "";
    } else {
      NatToDecimalLeading(n);
      ValueInDecimal(s);
      assert BasePrefix(s) == (10, s);
    }
  }

  /** Decimal text reads back as its number exactly within the int64 range, and is a
      range error beyond it. */
  lemma ParseIntDecimal(n: nat)
    ensures ParseInt(NatToDecimal(n)) == (if n <= 0x7FFF_FFFF_FFFF_FFFF then Some(n) else None)
  {
    var s := NatToDecimal(n);
    ParseUnsignedDecimal(n);
    assert IsAsciiDigit(s[0]);
    assert ParseUnsigned(s) == Some(n);
  }

  /** With a minus sign, decimal text reads back as the negated number down to the
      smallest int64, and is a range error below it. */
  lemma ParseIntNegativeDecimal(n: nat)
    ensures ParseInt("-" + NatToDecimal(n)) == (if n <= 0x8000_0000_0000_0000 then Some(-(n as int)) else None)
  {
    var s := NatToDecimal(n);
    ParseUnsignedDecimal(n);
    var t := "-" + s;
    assert t[0] == '-';
    assert t[1..] == s;
    assert ParseUnsigned(t[1..]) == Some(n);
  }

  /** A leading 0 selects octal: 017 is 15 and 09 is an error; 0x selects hexadecimal;
      empty text and a bare sign are errors. */
  lemma ParseIntExamples()
    ensures ParseInt("017") == Some(15)
    ensures ParseInt("09") == None
    ensures ParseInt("0") == Some(0)
    ensures ParseInt("0x1F") == Some(31)
    ensures ParseInt("") == None && ParseInt("-") == None
  {
    assert BasePrefix("017") == (8, "17");
    assert "17"[..1] == "1" && "1"[..0] == "";
    assert AllDigitsIn("17", 8) && ValueIn("17", 8) == 15;
    assert BasePrefix("09") == (8, "9");
    assert !AllDigitsIn("9", 8) by { assert DigitVal("9"[0]) == 9; }
    assert BasePrefix("0") == (8, "");
    assert BasePrefix("0x1F") == (16, "1F");
    assert "1F"[..1] == "1";
    assert AllDigitsIn("1F", 16) && ValueIn("1F", 16) == 31;
  }

  /** Go's %q for the texts the lexer puts into integer tokens (printable, with no quote
      or backslash): the text between double quotes. */
  function Quote(s: string): string
  {
    "\"" + s + "\""
  }

  // ----- the parser state -----

  /** The token at index `i`, and EOF past the end: once the lexer has yielded the EOF
      that ends the input, every further call yields EOF again. */
  function TokAt(toks: seq<Token>, i: nat): Token
  {
    if i < |toks| then toks[i] else Token(Eof, "")
  }

  /** `pos` is the index of the current token; the peek token follows it. */
  datatype PState = PState(pos: nat, errors: seq<ParseError>)

  /** The current token: the one at the position, or EOF once the stream is used up. */
  function Curr(toks: seq<Token>, st: PState): (t: Token)
    ensures st.pos < |toks| ==> t == toks[st.pos]
    ensures st.pos >= |toks| ==> t == Token(Eof, "")
  {
    TokAt(toks, st.pos)
  }

  /** The peek token: the one after the current one, or EOF. */
  function Peek(toks: seq<Token>, st: PState): (t: Token)
    ensures st.pos + 1 < |toks| ==> t == toks[st.pos + 1]
    ensures st.pos + 1 >= |toks| ==> t == Token(Eof, "")
  {
    TokAt(toks, st.pos + 1)
  }

  /** Tokens not yet reached: the termination measure of every parse function. */
  function Measure(toks: seq<Token>, st: PState): nat
  {
    if st.pos < |toks| then |toks| - st.pos else 0
  }

  /** The parser never moves back and never drops an error: `b` is `a` moved forward
      with errors appended. */
  predicate Grows(a: PState, b: PState)
  {
    a.pos <= b.pos && a.errors <= b.errors
  }

  lemma GrowsTransitive(a: PState, b: PState, c: PState)
    requires Grows(a, b) && Grows(b, c)
    ensures Grows(a, c)
  {
  }

  /** nextToken: the peek token becomes the current one; no error is recorded. */
  function NextTokenF(st: PState): (r: PState)
    ensures Grows(st, r) && r.errors == st.errors && r.pos == st.pos + 1
    ensures forall toks :: Curr(toks, r) == Peek(toks, st)
  {
    st.(pos := st.pos + 1)
  }

  function AddError(st: PState, err: ParseError): PState
  {
    st.(errors := st.errors + [err])
  }

  /** The diagnostics the parser records; Message gives the text of each. */
  datatype ParseError =
    | PeekError(expected: Kind, got: Kind)
    | NoPrefixParseFn(kind: Kind)
    | NotAnInteger(literal: string)
    | MissingDataType

  function Message(e: ParseError): string
  {
    match e
    case PeekError(k, got) => "expected next token to be " + KindName(k) + ", got " + KindName(got) + " instead"
    case NoPrefixParseFn(k) => "no prefix parse function for " + KindName(k) + " found"
    case NotAnInteger(lit) => "could not parse " + Quote(lit) + " as integer"
    case MissingDataType => "missing data type"
  }

  /** The error list as Errors() returns it: one message per recorded error, in order. */
  function Messages(es: seq<ParseError>): (r: seq<string>)
    ensures |r| == |es| && forall i :: 0 <= i < |es| ==> r[i] == Message(es[i])
  {
    seq(|es|, i requires 0 <= i < |es| => Message(es[i]))
  }

  /** Appending an error appends its message. */
  lemma MessagesSnoc(es: seq<ParseError>, e: ParseError)
    ensures Messages(es + [e]) == Messages(es) + [Message(e)]
  {
  }

  /** Example: the text of a peek error names the expected kind, then the kind found. */
  lemma PeekErrorText()
    ensures Message(PeekError(RParen, Eof)) == "expected next token to be ), got EOF instead"
  {
  }

  /** Example: the text of a missing prefix rule names the token kind. */
  lemma NoPrefixText()
    ensures Message(NoPrefixParseFn(Semicolon)) == "no prefix parse function for ; found"
  {
  }

  /** Example: the text of a bad integer literal quotes the literal. */
  lemma NotAnIntegerText()
    ensures Message(NotAnInteger("09")) == "could not parse \"09\" as integer"
  {
  }

  /** expectPeek: advance over the expected peek token, or record the mismatch. */
  function ExpectPeekF(toks: seq<Token>, st: PState, k: Kind): (r: (bool, PState))
    ensures Grows(st, r.1)
  {
    if Peek(toks, st).kind == k then (true, NextTokenF(st))
    else (false, AddError(st, PeekError(k, Peek(toks, st).kind)))
  }

  /** expectPeek succeeds exactly when the peek token has the kind; it then advances by
      exactly one token and records nothing, and otherwise stays put and records one
      error naming both kinds. */
  lemma ExpectPeekBehaviour(toks: seq<Token>, st: PState, k: Kind)
    ensures ExpectPeekF(toks, st, k).0 <==> Peek(toks, st).kind == k
    ensures ExpectPeekF(toks, st, k).0 ==>
              ExpectPeekF(toks, st, k).1 == PState(st.pos + 1, st.errors)
              && Curr(toks, ExpectPeekF(toks, st, k).1).kind == k
    ensures !ExpectPeekF(toks, st, k).0 ==>
              ExpectPeekF(toks, st, k).1 == PState(st.pos, st.errors + [PeekError(k, Peek(toks, st).kind)])
  {
  }

  lemma NotEofIsInside(toks: seq<Token>, i: nat)
    requires TokAt(toks, i).kind != Eof
    ensures i < |toks|
  {
  }

  // ----- expressions -----

  /** parseExpression: the prefix rule of the current token, then infix folding while
      the peek token is no `;` and binds tighter than `prec`. */
  function ParseExpressionF(toks: seq<Token>, st: PState, prec: nat): (r: (Expr, PState))
    ensures Grows(st, r.1)
    decreases Measure(toks, st), 2
  {
    var k := Curr(toks, st).kind;
    if !HasPrefixRule(k) then
      (Missing, AddError(st, NoPrefixParseFn(k)))
    else
      var (left, st1) := ParsePrefixF(toks, st);
      InfixLoopF(toks, st1, prec, left)
  }

  /** The prefix parse functions, chosen by the current token's kind. */
  function ParsePrefixF(toks: seq<Token>, st: PState): (r: (Expr, PState))
    requires HasPrefixRule(Curr(toks, st).kind)
    ensures Grows(st, r.1)
    decreases Measure(toks, st), 1
  {
    var t := Curr(toks, st);
    if t.kind == IntVal then
      var v := ParseInt(t.literal);
      if v.None? then (Missing, AddError(st, NotAnInteger(t.literal)))
      else (IntegerLiteral(t, v.value), st)
    else if t.kind == StringVal then (StringLiteral(t, t.literal), st)
    else if t.kind == True then (BooleanLiteral(t, true), st)
    else if t.kind == False then (BooleanLiteral(t, false), st)
    else if t.kind == Bang || t.kind == Minus then ParsePrefixExpressionF(toks, st)
    else if t.kind == LParen then
      var (e, st1) := ParseExpressionF(toks, NextTokenF(st), PrecLowest);
      var (ok, st2) := ExpectPeekF(toks, st1, RParen);
      (if ok then e else Missing, st2)
    else (Id(Identifier(t, t.literal)), st)  // IDENT, the one kind left
  }

  /** parsePrefixExpression: the operator, then its operand parsed at PREFIX. */
  function ParsePrefixExpressionF(toks: seq<Token>, st: PState): (r: (Expr, PState))
    requires Curr(toks, st).kind in {Bang, Minus}
    ensures Grows(st, r.1)
    decreases Measure(toks, st), 0
  {
    var t := Curr(toks, st);
    var (right, st1) := ParseExpressionF(toks, NextTokenF(st), PrecPrefix);
    (PrefixExpr(t, t.literal, right), st1)
  }

  /** The folding loop of parseExpression. */
  function InfixLoopF(toks: seq<Token>, st: PState, prec: nat, left: Expr): (r: (Expr, PState))
    ensures Grows(st, r.1)
    decreases Measure(toks, st), 0
  {
    var pk := Peek(toks, st).kind;
    if pk != Semicolon && prec < Precedence(pk) then
      if !HasInfixRule(pk) then (left, st)
      else
        var (e, st2) := ParseInfixF(toks, NextTokenF(st), left);
        InfixLoopF(toks, st2, prec, e)
    else (left, st)
  }

  /** parseInfixExpression: the operator, then its right operand parsed at the
      operator's own precedence. */
  function ParseInfixF(toks: seq<Token>, st: PState, left: Expr): (r: (Expr, PState))
    requires HasInfixRule(Curr(toks, st).kind)
    ensures Grows(st, r.1)
    decreases Measure(toks, st), 0
  {
    var t := Curr(toks, st);
    var (right, st1) := ParseExpressionF(toks, NextTokenF(st), Precedence(t.kind));
    (InfixExpr(t, left, t.literal, right), st1)
  }

  /** One fold of the loop seen from the loop: after taking the operator, the rest of
      the fold continues from the infix expression built, with fewer tokens left. */
  lemma InfixLoopStep(toks: seq<Token>, st: PState, prec: nat, left: Expr, e: Expr, st2: PState)
    requires Peek(toks, st).kind != Semicolon && prec < Precedence(Peek(toks, st).kind)
    requires HasInfixRule(Peek(toks, st).kind)
    requires (e, st2) == ParseInfixF(toks, NextTokenF(st), left)
    ensures InfixLoopF(toks, st2, prec, e) == InfixLoopF(toks, st, prec, left)
    ensures Measure(toks, st2) < Measure(toks, st)
  {
    NotEofIsInside(toks, st.pos + 1);
  }

  // ----- statements -----

  /** parseVariableStatement: `ident : type = expr`. None is the nil it returns after a
      missing `:`, a missing or unknown type, or a missing `=`. */
  function ParseVariableStatementF(toks: seq<Token>, st: PState): (r: (Option<Stmt>, PState))
    ensures Grows(st, r.1)
  {
    var tok := Curr(toks, st);
    var st1 := NextTokenF(st);
    var ident := Identifier(Curr(toks, st1), Curr(toks, st1).literal);
    var (ok, st2) := ExpectPeekF(toks, st1, Colon);
    if !ok then (None, st2)
    else if Peek(toks, st2).kind != StringType && Peek(toks, st2).kind != IntType then
      (None, AddError(st2, MissingDataType))
    else DeclarationValueF(toks, NextTokenF(st2), tok, ident)
  }

  /** The rest of parseVariableStatement once the current token is the type:
      `= expr` and an optional `;`. */
  function DeclarationValueF(toks: seq<Token>, st: PState, tok: Token, ident: Identifier): (r: (Option<Stmt>, PState))
    ensures Grows(st, r.1)
  {
    var dataType := Curr(toks, st).kind;
    var (ok, st1) := ExpectPeekF(toks, st, Assign);
    if !ok then (None, st1)
    else
      var (value, st2) := ParseExpressionF(toks, NextTokenF(st1), PrecLowest);
      (Some(VariableStmt(tok, ident, dataType, value)), SkipUnlessSemicolon(toks, st2))
  }

  /** The end of a declaration or return statement: unless the current token is `;`,
      the parser steps once more. */
  function SkipUnlessSemicolon(toks: seq<Token>, st: PState): (r: PState)
    ensures r.errors == st.errors
    ensures Curr(toks, st).kind == Semicolon ==> r == st
    ensures Curr(toks, st).kind != Semicolon ==> r.pos == st.pos + 1
  {
    if Curr(toks, st).kind != Semicolon then NextTokenF(st) else st
  }

  /** parseReturnStatement: `вернуть expr`. */
  function ParseReturnStatementF(toks: seq<Token>, st: PState): (r: (Stmt, PState))
    ensures Grows(st, r.1)
  {
    var tok := Curr(toks, st);
    var (value, st1) := ParseExpressionF(toks, NextTokenF(st), PrecLowest);
    (ReturnStmt(tok, value), SkipUnlessSemicolon(toks, st1))
  }

  /** parseExpressionStatement: an expression and an optional `;`. */
  function ParseExpressionStatementF(toks: seq<Token>, st: PState): (r: (Stmt, PState))
    ensures Grows(st, r.1)
  {
    var tok := Curr(toks, st);
    var (e, st1) := ParseExpressionF(toks, st, PrecLowest);
    var st2 := if Peek(toks, st1).kind == Semicolon then NextTokenF(st1) else st1;
    (ExpressionStmt(tok, e), st2)
  }

  /** parseStatement, dispatching on the current token. */
  function ParseStatementF(toks: seq<Token>, st: PState): (r: (Option<Stmt>, PState))
    ensures Grows(st, r.1)
    ensures r.0.None? ==> Curr(toks, st).kind == Let
  {
    var k := Curr(toks, st).kind;
    if k == Let then ParseVariableStatementF(toks, st)
    else if k == Return then
      var (s, st1) := ParseReturnStatementF(toks, st);
      (Some(s), st1)
    else
      var (s, st1) := ParseExpressionStatementF(toks, st);
      (Some(s), st1)
  }

  /** ParseProgram from state `st`, with failed declarations skipped. */
  function ParseProgramFrom(toks: seq<Token>, st: PState): (r: (seq<Stmt>, PState))
    ensures Grows(st, r.1) && Curr(toks, r.1).kind == Eof
    decreases Measure(toks, st), 1
  {
    if Curr(toks, st).kind == Eof then ([], st) else ParseRoundF(toks, st)
  }

  /** One round of the ParseProgram loop and the rounds after it: the statement at the
      current token (unless it is nil), then the program after the token it ended on. */
  function ParseRoundF(toks: seq<Token>, st: PState): (r: (seq<Stmt>, PState))
    requires Curr(toks, st).kind != Eof
    ensures Grows(st, r.1) && Curr(toks, r.1).kind == Eof
    decreases Measure(toks, st), 0
  {
    var (s, st1) := ParseStatementF(toks, st);
    var (rest, st2) := ParseProgramFrom(toks, NextTokenF(st1));
    ((if s.Some? then [s.value] else []) + rest, st2)
  }

  /** One round seen from the ParseProgram loop: keeping the statement (unless nil) and
      going on after the token it ended on gives the rest of the program, and fewer
      tokens remain. */
  lemma ParseRoundStep(toks: seq<Token>, st: PState, s: Option<Stmt>, st1: PState, stmts: seq<Stmt>)
    requires Curr(toks, st).kind != Eof && (s, st1) == ParseStatementF(toks, st)
    ensures (if s.Some? then stmts + [s.value] else stmts) + ParseProgramFrom(toks, NextTokenF(st1)).0
         == stmts + ParseProgramFrom(toks, st).0
    ensures ParseProgramFrom(toks, NextTokenF(st1)).1 == ParseProgramFrom(toks, st).1
    ensures Measure(toks, NextTokenF(st1)) < Measure(toks, st)
  {
    var rest := ParseProgramFrom(toks, NextTokenF(st1));
    assert ParseProgramFrom(toks, st) == ((if s.Some? then [s.value] else []) + rest.0, rest.1);
    if s.Some? {
      assert stmts + ([s.value] + rest.0) == (stmts + [s.value]) + rest.0;
    } else {
      assert [] + rest.0 == rest.0;
    }
    NotEofIsInside(toks, st.pos);
  }

  /** ParseProgram as written: the check `stmt != nil` compares an interface that holds
      a typed nil pointer after a failed declaration, so that nil is appended too. */
  function ParseProgramAsWrittenFrom(toks: seq<Token>, st: PState): (r: (seq<Option<Stmt>>, PState))
    ensures Grows(st, r.1)
    decreases Measure(toks, st)
  {
    if Curr(toks, st).kind == Eof then ([], st)
    else
      var (s, st1) := ParseStatementF(toks, st);
      var (rest, st2) := ParseProgramAsWrittenFrom(toks, NextTokenF(st1));
      ([s] + rest, st2)
  }

  // ----- the steps of each parse function, as the parser's methods take them -----

  lemma ExpressionSteps(toks: seq<Token>, st: PState, prec: nat, left: Expr, st1: PState, e: Expr, st2: PState)
    requires HasPrefixRule(Curr(toks, st).kind) && (left, st1) == ParsePrefixF(toks, st)
    requires (e, st2) == InfixLoopF(toks, st1, prec, left)
    ensures ParseExpressionF(toks, st, prec) == (e, st2)
  {
  }

  lemma OperatorPrefixSteps(toks: seq<Token>, st: PState, right: Expr, st1: PState)
    requires Curr(toks, st).kind in {Bang, Minus}
    requires (right, st1) == ParseExpressionF(toks, NextTokenF(st), PrecPrefix)
    ensures ParsePrefixExpressionF(toks, st) == (PrefixExpr(Curr(toks, st), Curr(toks, st).literal, right), st1)
  {
  }

  lemma OperatorPrefixDispatch(toks: seq<Token>, st: PState)
    requires Curr(toks, st).kind in {Bang, Minus}
    ensures ParsePrefixF(toks, st) == ParsePrefixExpressionF(toks, st)
  {
  }

  lemma InfixSteps(toks: seq<Token>, st: PState, left: Expr, right: Expr, st1: PState)
    requires HasInfixRule(Curr(toks, st).kind)
    requires (right, st1) == ParseExpressionF(toks, NextTokenF(st), Precedence(Curr(toks, st).kind))
    ensures ParseInfixF(toks, st, left) == (InfixExpr(Curr(toks, st), left, Curr(toks, st).literal, right), st1)
  {
  }

  lemma GroupedSteps(toks: seq<Token>, st: PState, st0: PState, e: Expr, st1: PState, ok: bool, st2: PState)
    requires Curr(toks, st).kind == LParen && st0 == NextTokenF(st)
    requires (e, st1) == ParseExpressionF(toks, st0, PrecLowest)
    requires (ok, st2) == ExpectPeekF(toks, st1, RParen)
    ensures ParsePrefixF(toks, st) == (if ok then e else Missing, st2)
  {
  }

  lemma VariableStatementSteps(toks: seq<Token>, st: PState, ok: bool, st2: PState)
    requires (ok, st2) == ExpectPeekF(toks, NextTokenF(st), Colon)
    ensures !ok ==> ParseVariableStatementF(toks, st) == (None, st2)
    ensures ok && Peek(toks, st2).kind != StringType && Peek(toks, st2).kind != IntType ==>
              ParseVariableStatementF(toks, st) == (None, AddError(st2, MissingDataType))
    ensures ok && (Peek(toks, st2).kind == StringType || Peek(toks, st2).kind == IntType) ==>
              ParseVariableStatementF(toks, st)
              == DeclarationValueF(toks, NextTokenF(st2), Curr(toks, st),
                                   Identifier(Curr(toks, NextTokenF(st)), Curr(toks, NextTokenF(st)).literal))
  {
  }

  lemma DeclarationValueSteps(toks: seq<Token>, st: PState, tok: Token, ident: Identifier, st1: PState, value: Expr, st2: PState)
    requires (true, st1) == ExpectPeekF(toks, st, Assign)
    requires (value, st2) == ParseExpressionF(toks, NextTokenF(st1), PrecLowest)
    ensures DeclarationValueF(toks, st, tok, ident)
         == (Some(VariableStmt(tok, ident, Curr(toks, st).kind, value)), SkipUnlessSemicolon(toks, st2))
  {
  }

  lemma ReturnStatementSteps(toks: seq<Token>, st: PState, value: Expr, st1: PState)
    requires (value, st1) == ParseExpressionF(toks, NextTokenF(st), PrecLowest)
    ensures ParseReturnStatementF(toks, st) == (ReturnStmt(Curr(toks, st), value), SkipUnlessSemicolon(toks, st1))
  {
  }

  lemma ExpressionStatementSteps(toks: seq<Token>, st: PState, e: Expr, st1: PState)
    requires (e, st1) == ParseExpressionF(toks, st, PrecLowest)
    ensures ParseExpressionStatementF(toks, st)
         == (ExpressionStmt(Curr(toks, st), e), if Peek(toks, st1).kind == Semicolon then NextTokenF(st1) else st1)
  {
  }

  /** The whole parse: a program and the error list. */
  function ParseTokens(toks: seq<Token>): (r: (Program, seq<string>))
  {
    var (stmts, st) := ParseProgramFrom(toks, PState(0, []));
    (Program(stmts), Messages(st.errors))
  }

  // ----- properties -----

  /** A token without a prefix rule yields no expression, records one error naming its
      kind, and consumes nothing. */
  lemma NoPrefixRule(toks: seq<Token>, st: PState, prec: nat)
    requires !HasPrefixRule(Curr(toks, st).kind)
    ensures ParseExpressionF(toks, st, prec)
         == (Missing, PState(st.pos, st.errors + [NoPrefixParseFn(Curr(toks, st).kind)]))
  {
  }

  /** An identifier parses to an Identifier whose TokenLiteral and String are both its
      token's text, so assignment, which names its target by TokenLiteral, binds the
      name the identifier renders as. */
  lemma IdentifierPrefix(toks: seq<Token>, st: PState)
    requires Curr(toks, st).kind == Ident
    ensures var e := ParsePrefixF(toks, st).0;
            e.Id? && ExprTokenLiteral(e) == IdentifierString(e.ident) == Curr(toks, st).literal
  {
  }

  /** A statement's TokenLiteral is the literal of the token parseStatement was called on. */
  lemma StatementTokenLiteral(toks: seq<Token>, st: PState)
    ensures var r := ParseStatementF(toks, st).0;
            r.Some? ==> StmtTokenLiteral(r.value) == Curr(toks, st).literal
  {
  }

  /** Folding stops only at a `;` or at a peek operator that does not bind tighter than
      `prec`: the loop never leaves an operator it could have taken. */
  lemma {:induction false} InfixLoopStops(toks: seq<Token>, st: PState, prec: nat, left: Expr)
    requires prec >= PrecLowest
    ensures var st2 := InfixLoopF(toks, st, prec, left).1;
            Peek(toks, st2).kind == Semicolon || Precedence(Peek(toks, st2).kind) <= prec
    decreases Measure(toks, st)
  {
    var pk := Peek(toks, st).kind;
    if pk != Semicolon && prec < Precedence(pk) {
      InfixRulesMatchPrecedences(pk);
      var (e, st2) := ParseInfixF(toks, NextTokenF(st), left);
      InfixLoopStops(toks, st2, prec, e);
    }
  }

  /** Hence a whole expression parse with a prefix rule ends where the next operator binds
      no tighter than `prec`, or at a `;`. */
  lemma ParseExpressionStops(toks: seq<Token>, st: PState, prec: nat)
    requires prec >= PrecLowest && HasPrefixRule(Curr(toks, st).kind)
    ensures var st2 := ParseExpressionF(toks, st, prec).1;
            Peek(toks, st2).kind == Semicolon || Precedence(Peek(toks, st2).kind) <= prec
  {
    var (left, st1) := ParsePrefixF(toks, st);
    InfixLoopStops(toks, st1, prec, left);
  }

  /** A prefix operator's operand is parsed at PREFIX, right after the operator. */
  lemma PrefixOperand(toks: seq<Token>, st: PState, prec: nat)
    requires Curr(toks, st).kind in {Bang, Minus}
    ensures var (e, st1) := ParsePrefixF(toks, st);
            var (right, st2) := ParseExpressionF(toks, NextTokenF(st), PrecPrefix);
            e == PrefixExpr(Curr(toks, st), Curr(toks, st).literal, right) && st1 == st2
  {
  }

  /** An infix operator's right operand is parsed at the operator's own precedence, so an
      operator of equal precedence after it is left for the enclosing loop: equal
      precedences associate to the left. */
  lemma InfixOperand(toks: seq<Token>, st: PState, left: Expr)
    requires HasInfixRule(Curr(toks, st).kind)
    ensures var (e, st1) := ParseInfixF(toks, st, left);
            var (right, st2) := ParseExpressionF(toks, NextTokenF(st), Precedence(Curr(toks, st).kind));
            e == InfixExpr(Curr(toks, st), left, Curr(toks, st).literal, right) && st1 == st2
  {
  }

  /** A grouped expression must be closed by `)`: otherwise it yields no expression and
      records the expectPeek error. */
  lemma GroupedNeedsRParen(toks: seq<Token>, st: PState)
    requires Curr(toks, st).kind == LParen
    ensures var (inner, st1) := ParseExpressionF(toks, NextTokenF(st), PrecLowest);
            var (e, st2) := ParsePrefixF(toks, st);
            if Peek(toks, st1).kind == RParen then e == inner && st2 == NextTokenF(st1)
            else e == Missing && st2 == AddError(st1, PeekError(RParen, Peek(toks, st1).kind))
  {
  }

  /** An integer token that ParseInt rejects yields no expression and one error quoting it. */
  lemma BadIntegerLiteral(toks: seq<Token>, st: PState)
    requires Curr(toks, st).kind == IntVal && ParseInt(Curr(toks, st).literal).None?
    ensures ParsePrefixF(toks, st)
         == (Missing, AddError(st, NotAnInteger(Curr(toks, st).literal)))
  {
  }

  /** A declaration whose `:` is followed by neither STRING nor INT produces no node and
      records "missing data type", having consumed the name and the `:`. */
  lemma DeclarationNeedsType(toks: seq<Token>, st: PState)
    requires TokAt(toks, st.pos + 2).kind == Colon
    requires TokAt(toks, st.pos + 3).kind !in {StringType, IntType}
    ensures ParseVariableStatementF(toks, st) == (None, PState(st.pos + 2, st.errors + [MissingDataType]))
  {
  }

  /** A declaration without `:` after the name produces no node and records the
      expectPeek error. */
  lemma DeclarationNeedsColon(toks: seq<Token>, st: PState)
    requires TokAt(toks, st.pos + 2).kind != Colon
    ensures ParseVariableStatementF(toks, st)
         == (None, PState(st.pos + 1, st.errors + [PeekError(Colon, TokAt(toks, st.pos + 2).kind)]))
  {
  }

  /** ParseProgram stops exactly at EOF, keeps every error, and yields at most one
      statement per token it passes. */
  lemma {:induction false} ParseProgramShape(toks: seq<Token>, st: PState)
    ensures var (stmts, st2) := ParseProgramFrom(toks, st);
            Curr(toks, st2).kind == Eof && Grows(st, st2) && |stmts| <= Measure(toks, st)
    decreases Measure(toks, st)
  {
    if Curr(toks, st).kind != Eof {
      var (s, st1) := ParseStatementF(toks, st);
      ParseProgramShape(toks, NextTokenF(st1));
    }
  }

  /** Statements keep source order: the program is the first statement followed by the
      program parsed from where that statement ended. */
  lemma ParseProgramOrder(toks: seq<Token>, st: PState)
    requires Curr(toks, st).kind != Eof && Curr(toks, st).kind != Let
    ensures var (s, st1) := ParseStatementF(toks, st);
            s.Some? && ParseProgramFrom(toks, st).0 == [s.value] + ParseProgramFrom(toks, NextTokenF(st1)).0
  {
  }

  /** The corrected and the as-written loops visit the same statements; they differ only
      in the failed declarations, which as written stay in the list as nil. */
  lemma {:induction false} AsWrittenKeepsNils(toks: seq<Token>, st: PState)
    ensures var (good, st1) := ParseProgramFrom(toks, st);
            var (raw, st2) := ParseProgramAsWrittenFrom(toks, st);
            st1 == st2 && good == Present(raw)
    decreases Measure(toks, st)
  {
    if Curr(toks, st).kind != Eof {
      var (s, st1) := ParseStatementF(toks, st);
      AsWrittenKeepsNils(toks, NextTokenF(st1));
      var raw := ParseProgramAsWrittenFrom(toks, NextTokenF(st1)).0;
      PresentCons(s, raw);
    }
  }

  /** The statements of a list that are not nil, in order. */
  function Present(xs: seq<Option<Stmt>>): (r: seq<Stmt>)
    ensures |r| <= |xs|
  {
    if |xs| == 0 then [] else (if xs[0].Some? then [xs[0].value] else []) + Present(xs[1..])
  }

  lemma PresentCons(x: Option<Stmt>, xs: seq<Option<Stmt>>)
    ensures Present([x] + xs) == (if x.Some? then [x.value] else []) + Present(xs)
  {
    assert ([x] + xs)[1..] == xs;
  }

  /** As written, a declaration that fails leaves a nil statement in the program: the
      tokens LET x give one entry, which is nil, where the corrected parser gives none. */
  lemma FailedDeclarationKeptAsNil()
    ensures var toks := [Token(Let, "пусть"), Token(Ident, "x")];
            ParseProgramAsWrittenFrom(toks, PState(0, [])).0 == [None]
            && ParseProgramFrom(toks, PState(0, [])).0 == []
  {
    var toks := [Token(Let, "пусть"), Token(Ident, "x")];
    var st := PState(0, []);
    assert ParseVariableStatementF(toks, st).0 == None;
    var st1 := ParseStatementF(toks, st).1;
    assert st1.pos == 1;
    assert Curr(toks, NextTokenF(st1)).kind == Eof;
  }

  // ----- precedence and associativity on concrete token sequences -----

  function IdentTok(name: string): Token { Token(Ident, name) }
  function IdentExpr(name: string): Expr { Id(Identifier(IdentTok(name), name)) }

  /** An identifier followed by a token that binds no tighter than `prec` is a whole
      operand on its own. */
  lemma LeafOperand(toks: seq<Token>, pos: nat, prec: nat, name: string)
    requires pos < |toks| && toks[pos] == IdentTok(name)
    requires Precedence(TokAt(toks, pos + 1).kind) <= prec
    ensures ParseExpressionF(toks, PState(pos, []), prec) == (IdentExpr(name), PState(pos, []))
  {
  }

  /** `a + b * c` parses as `(a + (b * c))`: `*` binds tighter than `+`. */
  lemma ProductBindsTighter()
    ensures var toks := [IdentTok("a"), Token(Plus, "+"), IdentTok("b"), Token(Asterisk, "*"), IdentTok("c")];
            var e := ParseExpressionF(toks, PState(0, []), PrecLowest).0;
            e == InfixExpr(toks[1], IdentExpr("a"), "+", InfixExpr(toks[3], IdentExpr("b"), "*", IdentExpr("c")))
            && ExprString(e) == "(a + (b * c))"
  {
    var toks := [IdentTok("a"), Token(Plus, "+"), IdentTok("b"), Token(Asterisk, "*"), IdentTok("c")];
    LeafOperand(toks, 4, PrecProduct, "c");
    var bc := InfixExpr(toks[3], IdentExpr("b"), "*", IdentExpr("c"));
    assert ParseInfixF(toks, PState(3, []), IdentExpr("b")) == (bc, PState(4, []));
    assert InfixLoopF(toks, PState(2, []), PrecSum, IdentExpr("b")) == (bc, PState(4, []));
    assert ParseExpressionF(toks, PState(2, []), PrecSum) == (bc, PState(4, []));
    var abc := InfixExpr(toks[1], IdentExpr("a"), "+", bc);
    assert ParseInfixF(toks, PState(1, []), IdentExpr("a")) == (abc, PState(4, []));
    assert InfixLoopF(toks, PState(0, []), PrecLowest, IdentExpr("a")) == (abc, PState(4, []));
  }

  /** `a - b - c` parses as `((a - b) - c)`: operators of one precedence group to the left. */
  lemma SameLevelGroupsLeft()
    ensures var toks := [IdentTok("a"), Token(Minus, "-"), IdentTok("b"), Token(Minus, "-"), IdentTok("c")];
            var e := ParseExpressionF(toks, PState(0, []), PrecLowest).0;
            e == InfixExpr(toks[3], InfixExpr(toks[1], IdentExpr("a"), "-", IdentExpr("b")), "-", IdentExpr("c"))
            && ExprString(e) == "((a - b) - c)"
  {
    var toks := [IdentTok("a"), Token(Minus, "-"), IdentTok("b"), Token(Minus, "-"), IdentTok("c")];
    LeafOperand(toks, 2, PrecSum, "b");
    LeafOperand(toks, 4, PrecSum, "c");
    var ab := InfixExpr(toks[1], IdentExpr("a"), "-", IdentExpr("b"));
    assert ParseInfixF(toks, PState(1, []), IdentExpr("a")) == (ab, PState(2, []));
    var abc := InfixExpr(toks[3], ab, "-", IdentExpr("c"));
    assert ParseInfixF(toks, PState(3, []), ab) == (abc, PState(4, []));
    assert InfixLoopF(toks, PState(2, []), PrecLowest, ab) == (abc, PState(4, []));
    assert InfixLoopF(toks, PState(0, []), PrecLowest, IdentExpr("a")) == (abc, PState(4, []));
  }

  /** `-a * b` parses as `((-a) * b)`: a prefix operator takes only its nearest operand. */
  lemma PrefixBindsTightest()
    ensures var toks := [Token(Minus, "-"), IdentTok("a"), Token(Asterisk, "*"), IdentTok("b")];
            var e := ParseExpressionF(toks, PState(0, []), PrecLowest).0;
            e == InfixExpr(toks[2], PrefixExpr(toks[0], "-", IdentExpr("a")), "*", IdentExpr("b"))
            && ExprString(e) == "((-a) * b)"
  {
    var toks := [Token(Minus, "-"), IdentTok("a"), Token(Asterisk, "*"), IdentTok("b")];
    LeafOperand(toks, 1, PrecPrefix, "a");
    LeafOperand(toks, 3, PrecProduct, "b");
    var na := PrefixExpr(toks[0], "-", IdentExpr("a"));
    assert ParsePrefixExpressionF(toks, PState(0, [])) == (na, PState(1, []));
    assert ParsePrefixF(toks, PState(0, [])) == (na, PState(1, []));
    var e := InfixExpr(toks[2], na, "*", IdentExpr("b"));
    assert ParseInfixF(toks, PState(2, []), na) == (e, PState(3, []));
    assert InfixLoopF(toks, PState(3, []), PrecLowest, e) == (e, PState(3, []));
    assert InfixLoopF(toks, PState(1, []), PrecLowest, na) == (e, PState(3, []));
  }
}
