/** The syntax tree: statements and expressions as closed variants, each keeping the
    token that introduced it, and the canonical text each renders to. */
module Ast {
  import opened Base
  import opened Tokens

  datatype Identifier = Identifier(token: Token, value: string)

  datatype Expr =
    /** The parser's nil: the expression a failed sub-parse leaves behind. */
    | Missing
    | Id(ident: Identifier)
    | IntegerLiteral(token: Token, intValue: int)
    | StringLiteral(token: Token, strValue: string)
    | BooleanLiteral(token: Token, boolValue: bool)
    | PrefixExpr(token: Token, op: string, right: Expr)
    | InfixExpr(token: Token, left: Expr, op: string, right: Expr)
    | IfExpr(token: Token, condition: Expr, consequence: Block, alternative: Option<Block>)
    | ForLoopExpr(token: Token, condition: Expr, body: Block)
    | FunctionLiteral(token: Token, params: seq<Identifier>, body: Block)
    | CallExpr(token: Token, callee: Expr, args: seq<Expr>)

  datatype Stmt =
    | ExpressionStmt(token: Token, expr: Expr)
    | ReturnStmt(token: Token, value: Expr)
    | VariableStmt(token: Token, name: Identifier, dataType: Kind, value: Expr)

  datatype Block = Block(token: Token, stmts: seq<Stmt>)

  datatype Program = Program(stmts: seq<Stmt>)

  // ----- TokenLiteral -----

  /** TokenLiteral of an expression: the literal of the token that introduced it; the
      parser's nil has none. */
  function ExprTokenLiteral(e: Expr): (lit: string)
    ensures e.Missing? ==> lit == ""
    ensures e.Id? ==> lit == e.ident.token.literal
    ensures !e.Missing? && !e.Id? ==> lit == e.token.literal
  {
    match e
    case Missing => ""
    case Id(ident) => ident.token.literal
    case IntegerLiteral(t, _) => t.literal
    case StringLiteral(t, _) => t.literal
    case BooleanLiteral(t, _) => t.literal
    case PrefixExpr(t, _, _) => t.literal
    case InfixExpr(t, _, _, _) => t.literal
    case IfExpr(t, _, _, _) => t.literal
    case ForLoopExpr(t, _, _) => t.literal
    case FunctionLiteral(t, _, _) => t.literal
    case CallExpr(t, _, _) => t.literal
  }

  /** TokenLiteral of a statement: the literal of the token it begins with. */
  function StmtTokenLiteral(s: Stmt): (lit: string)
    ensures lit == s.token.literal
  {
    s.token.literal
  }

  /** Program.TokenLiteral: the first statement's, or empty for an empty program. */
  function ProgramTokenLiteral(p: Program): (lit: string)
    ensures |p.stmts| == 0 ==> lit == ""
    ensures |p.stmts| > 0 ==> lit == p.stmts[0].token.literal
  {
    if |p.stmts| > 0 then StmtTokenLiteral(p.stmts[0]) else ""
  }

  // ----- String -----

  /** Identifier.String: the name, not the token. */
  function IdentifierString(id: Identifier): (s: string)
    ensures s == id.value
  {
    id.value
  }

  /** The word a declared type is written with (the reverse of the evaluator's type table). */
  function TypeWord(k: Kind): string
  {
    match k
    case StringType => "строка"
    case IntType => "число"
    case _ => KindName(k)
  }

  function ExprString(e: Expr): string
    decreases e
  {
    match e
    case Missing => ""
    case Id(ident) => IdentifierString(ident)
    case IntegerLiteral(t, _) => t.literal
    case StringLiteral(t, _) => t.literal
    case BooleanLiteral(t, _) => t.literal
    case PrefixExpr(_, op, right) => "(" + op + ExprString(right) + ")"
    case InfixExpr(_, left, op, right) => "(" + ExprString(left) + " " + op + " " + ExprString(right) + ")"
    case IfExpr(_, cond, cons, alt) =>
      "если" + ExprString(cond) + " " + BlockString(cons)
      + (if alt.Some? then "иначе " + BlockString(alt.value) else "")
    case ForLoopExpr(_, cond, body) => "цикл (" + ExprString(cond) + ")" + BlockString(body)
    case FunctionLiteral(t, params, body) =>
      t.literal + "(" + Join(ParamStrings(params), ", ") + ") " + BlockString(body)
    case CallExpr(_, callee, args) =>
      ExprString(callee) + "(" + Join(seq(|args|, i requires 0 <= i < |args| => ExprString(args[i])), ", ") + ")"
  }

  function ParamStrings(params: seq<Identifier>): (r: seq<string>)
    ensures |r| == |params| && forall i :: 0 <= i < |params| ==> r[i] == params[i].value
  {
    seq(|params|, i requires 0 <= i < |params| => IdentifierString(params[i]))
  }

  function StmtString(s: Stmt): string
    decreases s
  {
    match s
    case ExpressionStmt(_, expr) => if expr.Missing? then "" else ExprString(expr)
    case ReturnStmt(t, value) => t.literal + " " + ExprString(value) + ";"
    case VariableStmt(_, name, dataType, value) =>
      IdentifierString(name) + ": " + TypeWord(dataType) + " = " + ExprString(value) + ";"
  }

  function BlockString(b: Block): string
    decreases b
  {
    Concat(seq(|b.stmts|, i requires 0 <= i < |b.stmts| => StmtString(b.stmts[i])))
  }

  function StmtStrings(stmts: seq<Stmt>): (r: seq<string>)
    ensures |r| == |stmts| && forall i :: 0 <= i < |stmts| ==> r[i] == StmtString(stmts[i])
  {
    seq(|stmts|, i requires 0 <= i < |stmts| => StmtString(stmts[i]))
  }

  function ProgramString(p: Program): string
  {
    Concat(StmtStrings(p.stmts))
  }

  // ----- rendering properties -----

  /** A program renders as its statements' renderings in order, with no separator:
      rendering a split program is rendering the parts one after the other. */
  lemma ProgramStringAppend(a: seq<Stmt>, b: seq<Stmt>)
    ensures ProgramString(Program(a + b)) == ProgramString(Program(a)) + ProgramString(Program(b))
  {
    assert StmtStrings(a + b) == StmtStrings(a) + StmtStrings(b);
    ConcatAppend(StmtStrings(a), StmtStrings(b));
  }

  /** Example: an empty program renders as "" and has the empty token literal. */
  lemma EmptyProgram()
    ensures ProgramString(Program([])) == "" && ProgramTokenLiteral(Program([])) == ""
  {
  }

  /** A block renders exactly like a program holding the same statements. */
  lemma BlockStringIsConcat(b: Block)
    ensures BlockString(b) == ProgramString(Program(b.stmts))
  {
    assert seq(|b.stmts|, i requires 0 <= i < |b.stmts| => StmtString(b.stmts[i])) == StmtStrings(b.stmts);
  }

  /** Blocks keep statement order with no separator, and an empty block renders as "". */
  lemma BlockStringAppend(t: Token, a: seq<Stmt>, b: seq<Stmt>)
    ensures BlockString(Block(t, a + b)) == BlockString(Block(t, a)) + BlockString(Block(t, b))
    ensures BlockString(Block(t, [])) == ""
  {
    BlockStringIsConcat(Block(t, a + b));
    BlockStringIsConcat(Block(t, a));
    BlockStringIsConcat(Block(t, b));
    ProgramStringAppend(a, b);
  }

  /** A function literal with no parameters renders its keyword followed by "() ". */
  lemma FunctionLiteralNoParams(t: Token, body: Block)
    ensures ExprString(FunctionLiteral(t, [], body)) == t.literal + "() " + BlockString(body)
  {
    assert ParamStrings([]) == [];
  }

  /** Parameters render in declaration order: a first parameter comes right after "(",
      followed by ", " and the rendering of the rest. */
  lemma FunctionLiteralParamOrder(t: Token, x: Identifier, rest: seq<Identifier>, body: Block)
    requires |rest| > 0
    ensures ExprString(FunctionLiteral(t, [x] + rest, body))
         == t.literal + "(" + x.value + ", " + Join(ParamStrings(rest), ", ") + ") " + BlockString(body)
  {
    assert ParamStrings([x] + rest) == [x.value] + ParamStrings(rest);
    JoinCons(x.value, ParamStrings(rest), ", ");
  }

  function ArgStrings(args: seq<Expr>): (r: seq<string>)
    ensures |r| == |args| && forall i :: 0 <= i < |args| ==> r[i] == ExprString(args[i])
  {
    seq(|args|, i requires 0 <= i < |args| => ExprString(args[i]))
  }

  /** A call with no arguments renders as its callee followed by "()". */
  lemma CallNoArgs(t: Token, callee: Expr)
    ensures ExprString(CallExpr(t, callee, [])) == ExprString(callee) + "()"
  {
  }

  /** Arguments render in order: the first right after "(", then ", " and the rest. */
  lemma CallArgOrder(t: Token, callee: Expr, x: Expr, rest: seq<Expr>)
    requires |rest| > 0
    ensures ExprString(CallExpr(t, callee, [x] + rest))
         == ExprString(callee) + "(" + ExprString(x) + ", " + Join(ArgStrings(rest), ", ") + ")"
  {
    var args := [x] + rest;
    assert seq(|args|, i requires 0 <= i < |args| => ExprString(args[i])) == [ExprString(x)] + ArgStrings(rest);
    JoinCons(ExprString(x), ArgStrings(rest), ", ");
  }

  /** A loop renders as "цикл (" + condition + ")" followed directly by its body; the
      token plays no part. */
  lemma ForLoopRendering(t1: Token, t2: Token, cond: Expr, body: Block)
    ensures ExprString(ForLoopExpr(t1, cond, body)) == "цикл (" + ExprString(cond) + ")" + BlockString(body)
    ensures ExprString(ForLoopExpr(t1, cond, body)) == ExprString(ForLoopExpr(t2, cond, body))
  {
  }

  /** An expression statement renders as its expression, with no trailing ";", and as
      "" when the expression is absent. */
  lemma ExpressionStmtRendering(t: Token, e: Expr)
    ensures StmtString(ExpressionStmt(t, e)) == ExprString(e)
    ensures e.Missing? ==> StmtString(ExpressionStmt(t, e)) == ""
  {
  }

  /** The declaration of ast/ast_test.go renders as `test: строка = "тест";`. */
  lemma DeclarationRendering()
    ensures ProgramString(Program([VariableStmt(Token(Ident, "test"), Identifier(Token(Ident, "test"), "test"),
              StringType, Id(Identifier(Token(StringVal, "тест"), "\"тест\"")))]))
         == "test: строка = \"тест\";"
  {
    var stmts := [VariableStmt(Token(Ident, "test"), Identifier(Token(Ident, "test"), "test"),
                    StringType, Id(Identifier(Token(StringVal, "тест"), "\"тест\"")))];
    assert StmtStrings(stmts) == [StmtString(stmts[0])];
  }
}
