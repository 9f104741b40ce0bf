/** The Pratt parser as the source runs it: a parser object that pulls tokens from a
    lexer into its current/peek pair, appends to its error list in place and loops over
    the stream. Every method is proved to compute the matching function of ParserSpec
    from the state it starts in. */
module Parsing {
  import opened Base
  import opened Tokens
  import opened Ast
  import opened Lexing
  import opened ParserSpec

  class Parser {
    const l: Lexer
    /** The whole stream the lexer yields from the start of its input, and the cursor
        position before each of its tokens (and after the last). */
    ghost const toks: seq<Token>
    ghost const positions: seq<nat>
    /** How many tokens have been pulled from the lexer so far. */
    ghost var read: nat
    var currToken: Token
    var peekToken: Token
    var errors: seq<ParseError>

    /** Scanning from the i-th position yields the i-th token and the next position; the
        last position is past the end of the input. */
    ghost predicate Table()
    {
      |positions| == |toks| + 1 && positions[|toks|] > |l.input|
      && forall i {:trigger Scan(l.input, positions[i])} :: 0 <= i < |toks| ==>
           Scan(l.input, positions[i]) == (toks[i], positions[i + 1])
    }

    /** The lexer sits exactly after the first `read` tokens of the stream; once the
        stream is used up it sits past the end of its input and yields EOF forever. */
    ghost predicate Feeds()
      reads this, l
    {
      l.Valid() && Table()
      && (read < |toks| ==> l.position == positions[read])
      && (read >= |toks| ==> l.position > |l.input|)
    }

    /** The current and peek tokens are the last two pulled. */
    ghost predicate Valid()
      reads this, l
    {
      Feeds() && read >= 2 && currToken == TokAt(toks, read - 2) && peekToken == TokAt(toks, read - 1)
    }

    /** The abstract state: the index of the current token and the errors so far. */
    ghost function State(): PState
      reads this
      requires read >= 2
    {
      PState(read - 2, errors)
    }

    /** parser.New: an empty error list and the first two tokens pulled. */
    constructor (l: Lexer)
      requires l.Valid() && l.position == 0
      modifies l
      ensures Valid() && this.l == l && toks == TokenStream(l.input, 0)
      ensures State() == PState(0, [])
    {
      this.l := l;
      ghost var ts, ps := TokenStream(l.input, 0), StreamPositions(l.input, 0);
      StreamScans(l.input, 0);
      forall i | 0 <= i < |ts| ensures Scan(l.input, ps[i]) == (ts[i], ps[i + 1]) {
      }
      toks, positions := ts, ps;
      read := 0;
      currToken := Token(Eof, "");
      peekToken := Token(Eof, "");
      errors := [];
      new;
      NextToken();
      NextToken();
    }

    /** nextToken: the peek token becomes current and the lexer yields the next peek. */
    method NextToken()
      requires Feeds() && (read >= 1 ==> peekToken == TokAt(toks, read - 1))
      modifies this, l
      ensures Feeds() && read == old(read) + 1 && errors == old(errors)
      ensures currToken == old(peekToken) && peekToken == TokAt(toks, old(read))
      ensures old(read) >= 2 ==> Valid() && State() == NextTokenF(old(State()))
    {
      ghost var p := l.position;
      currToken := peekToken;
      if read < |toks| {
        assert Scan(l.input, positions[read]) == (toks[read], positions[read + 1]);
      } else {
        EndOfInput(l.input, p);
      }
      peekToken := l.NextToken();
      read := read + 1;
    }

    method AddError(err: ParseError)
      requires Valid()
      modifies this
      ensures Valid() && State() == ParserSpec.AddError(old(State()), err)
      ensures unchanged(l)
    {
      errors := errors + [err];
    }

    /** Errors: the recorded diagnostics as text. */
    function Errors(): (r: seq<string>)
      reads this
      ensures |r| == |errors| && forall i :: 0 <= i < |errors| ==> r[i] == Message(errors[i])
    {
      Messages(errors)
    }

    /** expectPeek: advance over a peek token of kind `k`, or record peekError. */
    method ExpectPeek(k: Kind) returns (ok: bool)
      requires Valid()
      modifies this, l
      ensures Valid() && (ok, State()) == ExpectPeekF(toks, old(State()), k)
    {
      if peekToken.kind == k {
        NextToken();
        return true;
      }
      AddError(PeekError(k, peekToken.kind));
      return false;
    }

    // ----- expressions -----

    /** parseExpression: the prefix rule, then the folding loop. */
    method ParseExpression(prec: nat) returns (e: Expr)
      requires Valid()
      modifies this, l
      ensures Valid() && (e, State()) == ParseExpressionF(toks, old(State()), prec)
      decreases Measure(toks, State()), 2
    {
      if !HasPrefixRule(currToken.kind) {
        AddError(NoPrefixParseFn(currToken.kind));
        return Missing;
      }
      ghost var st := State();
      var left := ParsePrefix();
      ghost var st1 := State();
      e := InfixLoop(prec, left);
      ExpressionSteps(toks, st, prec, left, st1, e, State());
    }

    /** The folding loop of parseExpression: while the peek token is no `;` and binds
        tighter than `prec`, take it as an infix operator over `e`. */
    method InfixLoop(prec: nat, left: Expr) returns (e: Expr)
      requires Valid()
      modifies this, l
      ensures Valid() && (e, State()) == InfixLoopF(toks, old(State()), prec, left)
      decreases Measure(toks, State()), 1
    {
      e := left;
      while peekToken.kind != Semicolon && prec < Precedence(peekToken.kind)
        invariant Valid() && Measure(toks, State()) <= Measure(toks, old(State()))
        invariant InfixLoopF(toks, State(), prec, e) == InfixLoopF(toks, old(State()), prec, left)
        decreases Measure(toks, State())
      {
        if !HasInfixRule(peekToken.kind) {
          return;
        }
        ghost var st := State();
        ghost var e0 := e;
        NextToken();
        e := ParseInfix(e);
        InfixLoopStep(toks, st, prec, e0, e, State());
      }
    }

    /** The registered prefix parse functions, chosen by the current token's kind. */
    method ParsePrefix() returns (e: Expr)
      requires Valid() && HasPrefixRule(currToken.kind)
      modifies this, l
      ensures Valid() && (e, State()) == ParsePrefixF(toks, old(State()))
      decreases Measure(toks, State()), 1
    {
      var k := currToken.kind;
      if k == IntVal {
        e := ParseIntegerLiteral();
      } else if k == StringVal {
        e := StringLiteral(currToken, currToken.literal);
      } else if k == True || k == False {
        e := BooleanLiteral(currToken, k == True);
      } else if k == Bang || k == Minus {
        OperatorPrefixDispatch(toks, State());
        e := ParsePrefixExpression();
      } else if k == LParen {
        e := ParseGroupedExpression();
      } else {
        e := Id(Identifier(currToken, currToken.literal));
      }
    }

    /** parseIntegerLiteral: strconv.ParseInt with base 0 and 64 bits. */
    method ParseIntegerLiteral() returns (e: Expr)
      requires Valid() && currToken.kind == IntVal
      modifies this
      ensures Valid() && (e, State()) == ParsePrefixF(toks, old(State()))
      ensures unchanged(l)
    {
      var v := ParseInt(currToken.literal);
      if v.None? {
        AddError(NotAnInteger(currToken.literal));
        return Missing;
      }
      e := IntegerLiteral(currToken, v.value);
    }

    method ParsePrefixExpression() returns (e: Expr)
      requires Valid() && currToken.kind in {Bang, Minus}
      modifies this, l
      ensures Valid() && (e, State()) == ParsePrefixExpressionF(toks, old(State()))
      decreases Measure(toks, State()), 0
    {
      ghost var st := State();
      var t := currToken;
      NextToken();
      var right := ParseExpression(PrecPrefix);
      OperatorPrefixSteps(toks, st, right, State());
      e := PrefixExpr(t, t.literal, right);
    }

    method ParseInfix(left: Expr) returns (e: Expr)
      requires Valid() && HasInfixRule(currToken.kind)
      modifies this, l
      ensures Valid() && (e, State()) == ParseInfixF(toks, old(State()), left)
      decreases Measure(toks, State()), 0
    {
      ghost var st := State();
      var t := currToken;
      var prec := Precedence(t.kind);
      NextToken();
      var right := ParseExpression(prec);
      InfixSteps(toks, st, left, right, State());
      e := InfixExpr(t, left, t.literal, right);
    }

    method ParseGroupedExpression() returns (e: Expr)
      requires Valid() && currToken.kind == LParen
      modifies this, l
      ensures Valid() && (e, State()) == ParsePrefixF(toks, old(State()))
      decreases Measure(toks, State()), 0
    {
      ghost var st := State();
      NextToken();
      ghost var st0 := State();
      e := ParseExpression(PrecLowest);
      ghost var st1 := State();
      var ok := ExpectPeek(RParen);
      GroupedSteps(toks, st, st0, e, st1, ok, State());
      if !ok {
        e := Missing;
      }
    }

    // ----- statements -----

    /** parseVariableStatement; None is the nil it returns on each failure. */
    method ParseVariableStatement() returns (s: Option<Stmt>)
      requires Valid()
      modifies this, l
      ensures Valid() && (s, State()) == ParseVariableStatementF(toks, old(State()))
    {
      ghost var st := State();
      var tok := currToken;
      NextToken();
      var ident := Identifier(currToken, currToken.literal);
      var ok := ExpectPeek(Colon);
      VariableStatementSteps(toks, st, ok, State());
      if !ok {
        return None;
      }
      if peekToken.kind != StringType && peekToken.kind != IntType {
        AddError(MissingDataType);
        return None;
      }
      NextToken();
      s := ParseDeclarationValue(tok, ident);
    }

    /** The tail of parseVariableStatement, from the type token on. */
    method ParseDeclarationValue(tok: Token, ident: Identifier) returns (s: Option<Stmt>)
      requires Valid()
      modifies this, l
      ensures Valid() && (s, State()) == DeclarationValueF(toks, old(State()), tok, ident)
    {
      ghost var st := State();
      var dataType := currToken.kind;
      var ok := ExpectPeek(Assign);
      ghost var st1 := State();
      if !ok {
        return None;
      }
      NextToken();
      var value := ParseExpression(PrecLowest);
      DeclarationValueSteps(toks, st, tok, ident, st1, value, State());
      SkipUnlessSemicolon();
      s := Some(VariableStmt(tok, ident, dataType, value));
    }

    /** Step past the last token of a statement unless it is `;`. */
    method SkipUnlessSemicolon()
      requires Valid()
      modifies this, l
      ensures Valid() && State() == ParserSpec.SkipUnlessSemicolon(toks, old(State()))
    {
      if currToken.kind != Semicolon {
        NextToken();
      }
    }

    method ParseReturnStatement() returns (s: Stmt)
      requires Valid()
      modifies this, l
      ensures Valid() && (s, State()) == ParseReturnStatementF(toks, old(State()))
    {
      ghost var st := State();
      var tok := currToken;
      NextToken();
      var value := ParseExpression(PrecLowest);
      ReturnStatementSteps(toks, st, value, State());
      SkipUnlessSemicolon();
      s := ReturnStmt(tok, value);
    }

    method ParseExpressionStatement() returns (s: Stmt)
      requires Valid()
      modifies this, l
      ensures Valid() && (s, State()) == ParseExpressionStatementF(toks, old(State()))
    {
      ghost var st := State();
      var tok := currToken;
      var e := ParseExpression(PrecLowest);
      ExpressionStatementSteps(toks, st, e, State());
      if peekToken.kind == Semicolon {
        NextToken();
      }
      s := ExpressionStmt(tok, e);
    }

    method ParseStatement() returns (s: Option<Stmt>)
      requires Valid()
      modifies this, l
      ensures Valid() && (s, State()) == ParseStatementF(toks, old(State()))
    {
      if currToken.kind == Let {
        s := ParseVariableStatement();
      } else if currToken.kind == Return {
        var r := ParseReturnStatement();
        s := Some(r);
      } else {
        var r := ParseExpressionStatement();
        s := Some(r);
      }
    }

    /** ParseProgram: statements up to EOF, in order, the failed declarations skipped. */
    method ParseProgram() returns (program: Program)
      requires Valid()
      modifies this, l
      ensures Valid()
      ensures program.stmts == ParseProgramFrom(toks, old(State())).0
      ensures State() == ParseProgramFrom(toks, old(State())).1
    {
      var stmts: seq<Stmt> := [];
      ghost var target := ParseProgramFrom(toks, State());
      while currToken.kind != Eof
        invariant Valid()
        invariant stmts + ParseProgramFrom(toks, State()).0 == target.0
        invariant ParseProgramFrom(toks, State()).1 == target.1
        decreases Measure(toks, State())
      {
        stmts := ParseRound(stmts);
      }
      assert ParseProgramFrom(toks, State()).0 == [];
      assert stmts + [] == stmts;
      program := Program(stmts);
    }

    /** One round of the ParseProgram loop: parse a statement, keep it unless it is nil,
        and step past the token it ended on. */
    method ParseRound(stmts: seq<Stmt>) returns (stmts': seq<Stmt>)
      requires Valid() && currToken.kind != Eof
      modifies this, l
      ensures Valid() && Measure(toks, State()) < Measure(toks, old(State()))
      ensures stmts' + ParseProgramFrom(toks, State()).0 == stmts + ParseProgramFrom(toks, old(State())).0
      ensures ParseProgramFrom(toks, State()).1 == ParseProgramFrom(toks, old(State())).1
    {
      ghost var st := State();
      var s := ParseStatement();
      ParseRoundStep(toks, st, s, State(), stmts);
      stmts' := if s.Some? then stmts + [s.value] else stmts;
      NextToken();
    }
  }

  /** The front end: lex and parse a source text, returning the program and the
      parser's error list. */
  method ParseSource(input: string) returns (program: Program, errors: seq<string>)
    ensures (program, errors) == ParseTokens(TokenStream(input, 0))
  {
    var lx := new Lexer(input);
    var p := new Parser(lx);
    program := p.ParseProgram();
    errors := p.Errors();
  }
}
