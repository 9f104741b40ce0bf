/** The tree-walking evaluator as the source runs it: recursive Eval methods that update
    the environments in place and loop over statements, arguments, parameters and loop
    rounds. Each method is proved to compute the matching function of EvaluatorSpec from
    the state it starts in, so every property proved there holds of these methods. */
module Evaluation {
  import opened Base
  import opened Ast
  import opened Objects
  import opened Environments
  import opened Builtins
  import opened EvaluatorSpec

  /** Eval on an expression. */
  method Eval(envs: Environments, fuel: nat, e: Expr, env: nat) returns (r: Outcome)
    requires envs.Valid() && env < |envs.frames|
    modifies envs
    ensures envs.Valid()
    ensures Evaluated(r, envs.State()) == EvalExprF(fuel, e, env, old(envs.State()))
    decreases fuel, 0
  {
    if fuel == 0 {
      return Exhausted;
    }
    match e
    case Missing =>
      r := Ok(None);
    case Id(ident) =>
      r := EvalIdentifierF(envs.State(), env, ident.value);
    case IntegerLiteral(_, v) =>
      r := Ok(Some(Integer(Wrap(v))));
    case StringLiteral(_, s) =>
      r := Ok(Some(Str(s)));
    case BooleanLiteral(_, b) =>
      r := Ok(Some(NativeBool(b)));
    case PrefixExpr(_, op, right) =>
      r := EvalPrefixExpression(envs, fuel - 1, op, right, env);
    case InfixExpr(_, left, op, right) =>
      r := EvalInfixExpression(envs, fuel - 1, left, op, right, env);
    case IfExpr(_, cond, cons, alt) =>
      r := EvalIfExpression(envs, fuel - 1, cond, cons, alt, env);
    case ForLoopExpr(_, cond, body) =>
      r := EvalForLoopExpression(envs, fuel - 1, cond, body, env);
    case FunctionLiteral(_, params, body) =>
      var id := envs.Allocate();
      r := Ok(Some(Closure(params, body, env, id)));
    case CallExpr(_, callee, args) =>
      r := EvalCall(envs, fuel - 1, callee, args, env);
  }

  method EvalPrefixExpression(envs: Environments, f: nat, op: string, right: Expr, env: nat) returns (r: Outcome)
    requires envs.Valid() && env < |envs.frames|
    modifies envs
    ensures envs.Valid()
    ensures Evaluated(r, envs.State()) == EvalPrefixF(f, op, right, env, old(envs.State()))
    decreases f, 3
  {
    r := Eval(envs, f, right, env);
    if !Stops(r) {
      r := EvalPrefix(op, r.obj);
    }
  }

  /** The operands left to right; `=` writes the current frame in place. */
  method EvalInfixExpression(envs: Environments, f: nat, left: Expr, op: string, right: Expr, env: nat) returns (r: Outcome)
    requires envs.Valid() && env < |envs.frames|
    modifies envs
    ensures envs.Valid()
    ensures Evaluated(r, envs.State()) == EvalInfixF(f, left, op, right, env, old(envs.State()))
    decreases f, 3
  {
    var x := Eval(envs, f, left, env);
    if Stops(x) {
      return x;
    }
    r := Eval(envs, f, right, env);
    if Stops(r) {
      return;
    }
    if left.Missing? {
      return Panic(NilDereference);
    }
    if op == "=" {
      var obj := envs.Set(env, ExprTokenLiteral(left), r.obj);
      r := Ok(obj);
    } else {
      r := EvalInfixValues(op, x.obj, r.obj);
    }
  }

  method EvalIfExpression(envs: Environments, f: nat, cond: Expr, cons: Block, alt: Option<Block>, env: nat) returns (r: Outcome)
    requires envs.Valid() && env < |envs.frames|
    modifies envs
    ensures envs.Valid()
    ensures Evaluated(r, envs.State()) == EvalIfF(f, cond, cons, alt, env, old(envs.State()))
    decreases f, 3
  {
    r := Eval(envs, f, cond, env);
    if Stops(r) {
      return;
    }
    if IsTrue(r.obj) {
      r := EvalBlockStatement(envs, f, cons, env);
    } else if alt.Some? {
      r := EvalBlockStatement(envs, f, alt.value, env);
    } else {
      r := Ok(Some(Null));
    }
  }

  method EvalForLoopExpression(envs: Environments, f: nat, cond: Expr, body: Block, env: nat) returns (r: Outcome)
    requires envs.Valid() && env < |envs.frames|
    modifies envs
    ensures envs.Valid()
    ensures Evaluated(r, envs.State()) == EvalForF(f, cond, body, env, old(envs.State()))
    decreases f, 3
  {
    r := Eval(envs, f, cond, env);
    if Stops(r) {
      return;
    }
    if r.obj.None? {
      return Panic(NilDereference);
    }
    if !r.obj.value.Boolean? {
      return ErrorOf(ConditionTypeMessage(TypeName(r.obj.value)));
    }
    r := ForRounds(envs, f, cond, body, env);
  }

  /** The loop of evalForLoopExpression: one round per unit of fuel. */
  method ForRounds(envs: Environments, f: nat, cond: Expr, body: Block, env: nat) returns (r: Outcome)
    requires envs.Valid() && env < |envs.frames|
    modifies envs
    ensures envs.Valid()
    ensures Evaluated(r, envs.State()) == ForRoundsF(f, cond, body, env, old(envs.State()))
    decreases f, 1
  {
    var k: nat := f;
    while true
      invariant envs.Valid() && env < |envs.frames| && k <= f
      invariant ForRoundsF(k, cond, body, env, envs.State()) == ForRoundsF(f, cond, body, env, old(envs.State()))
      decreases k
    {
      var c := Eval(envs, k, cond, env);
      if !c.Ok? {
        return c;
      }
      if !IsTrue(c.obj) {
        return Ok(Some(Null));
      }
      var b := EvalBlockStatement(envs, k, body, env);
      if !b.Ok? {
        return b;
      }
      if k == 0 {
        return Exhausted;
      }
      k := k - 1;
    }
  }

  method EvalCall(envs: Environments, f: nat, callee: Expr, args: seq<Expr>, env: nat) returns (r: Outcome)
    requires envs.Valid() && env < |envs.frames|
    modifies envs
    ensures envs.Valid()
    ensures Evaluated(r, envs.State()) == EvalCallF(f, callee, args, env, old(envs.State()))
    decreases f, 3
  {
    var c := Eval(envs, f, callee, env);
    if Stops(c) {
      return c;
    }
    ghost var n := |envs.frames|;
    var a := EvalExpressions(envs, f, args, env);
    ObjOkMono(c.obj, n, |envs.frames|);
    if a.Unwound? {
      return a.out;
    }
    if |a.objs| == 1 && IsError(a.objs[0]) {
      return Ok(a.objs[0]);
    }
    r := ApplyFunction(envs, f, c.obj, a.objs);
  }

  /** evalExpressions: the arguments left to right, cut short by the first Error. */
  method EvalExpressions(envs: Environments, f: nat, args: seq<Expr>, env: nat) returns (a: ArgList)
    requires envs.Valid() && env < |envs.frames|
    modifies envs
    ensures envs.Valid()
    ensures Collected(a, envs.State()) == EvalArgsF(f, args, 0, [], env, old(envs.State()))
    decreases f, 2, |args|
  {
    var result: seq<Option<Value>> := [];
    for i := 0 to |args|
      invariant envs.Valid() && env < |envs.frames| && AllOk(result, |envs.frames|)
      invariant EvalArgsF(f, args, i, result, env, envs.State()) == EvalArgsF(f, args, 0, [], env, old(envs.State()))
    {
      ghost var n := |envs.frames|;
      var x := Eval(envs, f, args[i], env);
      AllOkMono(result, n, |envs.frames|);
      if !x.Ok? {
        return Unwound(x);
      }
      if IsError(x.obj) {
        return Objects([x.obj]);
      }
      result := result + [x.obj];
    }
    a := Objects(result);
  }

  method ApplyFunction(envs: Environments, f: nat, fn: Option<Value>, objs: seq<Option<Value>>) returns (r: Outcome)
    requires envs.Valid() && ObjOk(fn, |envs.frames|) && AllOk(objs, |envs.frames|)
    modifies envs
    ensures envs.Valid()
    ensures Evaluated(r, envs.State()) == ApplyF(f, fn, objs, old(envs.State()))
    decreases f, 1
  {
    if fn.None? {
      return Panic(NilDereference);
    }
    if fn.value.Closure? {
      var e, ok := ExtendFunctionEnv(envs, fn.value.env, fn.value.params, objs);
      if !ok {
        return Panic(IndexOutOfRange);
      }
      r := EvalBlockStatement(envs, f, fn.value.body, e);
      r := UnwrapReturnValue(r);
    } else if fn.value.Builtin? {
      r := CallBuiltin(fn.value.fn, objs);
    } else {
      r := ErrorOf(NotCallableMessage(TypeName(fn.value)));
    }
  }

  /** extendFunctionEnv: a new enclosed frame, then one Set per parameter; `ok` is false
      where indexing the arguments would run past their end. */
  method ExtendFunctionEnv(envs: Environments, outer: nat, params: seq<Identifier>, objs: seq<Option<Value>>)
      returns (e: nat, ok: bool)
    requires envs.Valid() && outer < |envs.frames| && AllOk(objs, |envs.frames|)
    modifies envs
    ensures envs.Valid() && e < |envs.frames|
    ensures (e, ok, envs.State()) == ExtendEnvF(old(envs.State()), outer, params, objs)
  {
    e := envs.NewEnclosedEnvironment(outer);
    ghost var h1 := envs.State();
    AllOkMono(objs, |old(envs.frames)|, |envs.frames|);
    for i := 0 to |params|
      invariant envs.Valid() && e < |envs.frames| && |envs.frames| == |h1.frames| && envs.allocs == h1.allocs
      invariant ExtendF(envs.State(), e, params, objs, i) == ExtendF(h1, e, params, objs, 0)
    {
      if i >= |objs| {
        return e, false;
      }
      var _ := envs.Set(e, params[i].value, objs[i]);
    }
    ok := true;
  }

  /** Eval on a statement. */
  method EvalStatement(envs: Environments, fuel: nat, s: Stmt, env: nat) returns (r: Outcome)
    requires envs.Valid() && env < |envs.frames|
    modifies envs
    ensures envs.Valid()
    ensures Evaluated(r, envs.State()) == EvalStmtF(fuel, s, env, old(envs.State()))
    decreases fuel, 0
  {
    if fuel == 0 {
      return Exhausted;
    }
    match s
    case ExpressionStmt(_, e) =>
      r := Eval(envs, fuel - 1, e, env);
    case ReturnStmt(_, value) =>
      r := EvalReturn(envs, fuel - 1, value, env);
    case VariableStmt(_, name, dataType, value) =>
      r := EvalDeclaration(envs, fuel - 1, name.value, dataType, value, env);
  }

  method EvalReturn(envs: Environments, f: nat, value: Expr, env: nat) returns (r: Outcome)
    requires envs.Valid() && env < |envs.frames|
    modifies envs
    ensures envs.Valid()
    ensures Evaluated(r, envs.State()) == EvalReturnF(f, value, env, old(envs.State()))
    decreases f, 3
  {
    r := Eval(envs, f, value, env);
    if Stops(r) {
      return;
    }
    var id := envs.Allocate();
    r := Ok(Some(ReturnValue(r.obj, id)));
  }

  method EvalDeclaration(envs: Environments, f: nat, name: string, dataType: Tokens.Kind, value: Expr, env: nat)
      returns (r: Outcome)
    requires envs.Valid() && env < |envs.frames|
    modifies envs
    ensures envs.Valid()
    ensures Evaluated(r, envs.State()) == EvalDeclarationF(f, name, dataType, value, env, old(envs.State()))
    decreases f, 3
  {
    r := Eval(envs, f, value, env);
    if !Stops(r) {
      r := Initialize(envs, env, name, dataType, r.obj);
    }
  }

  /** The checks on the initializer's object, in the source's order, then Declare. */
  method Initialize(envs: Environments, env: nat, name: string, dataType: Tokens.Kind, obj: Option<Value>)
      returns (r: Outcome)
    requires envs.Valid() && env < |envs.frames| && ObjOk(obj, |envs.frames|)
    modifies envs
    ensures envs.Valid()
    ensures Evaluated(r, envs.State()) == InitializeF(old(envs.State()), env, name, dataType, obj)
  {
    if obj.None? {
      return Panic(NilDereference);
    }
    if !CheckDataType(dataType, obj.value) {
      return ErrorOf(BadInitMessage(dataType, TypeName(obj.value)));
    }
    r := Declare(envs, env, name, obj.value);
  }

  /** The lookup along the whole chain, then the Set in the current frame. */
  method Declare(envs: Environments, env: nat, name: string, v: Value) returns (r: Outcome)
    requires envs.Valid() && env < |envs.frames| && ValueOk(v, |envs.frames|)
    modifies envs
    ensures envs.Valid()
    ensures Evaluated(r, envs.State()) == DeclareF(old(envs.State()), env, name, v)
  {
    match envs.Lookup(env, name)
    case Bound(o) =>
      if o.Some? && Inspectable(o.value) {
        r := ErrorOf(RedeclaredMessage(name, Inspect(o.value)));
      } else {
        r := Panic(NilDereference);
      }
    case Unbound =>
      var _ := envs.Set(env, name, Some(v));
      r := Ok(None);
  }

  /** evalBlockStatement: the statements in order, stopping at a return signal or an
      Error object. */
  method EvalBlockStatement(envs: Environments, fuel: nat, b: Block, env: nat) returns (r: Outcome)
    requires envs.Valid() && env < |envs.frames|
    modifies envs
    ensures envs.Valid()
    ensures Evaluated(r, envs.State()) == EvalBlockF(fuel, b, env, old(envs.State()))
    decreases fuel, 0
  {
    if fuel == 0 {
      return Exhausted;
    }
    var result: Option<Value> := None;
    for i := 0 to |b.stmts|
      invariant envs.Valid() && env < |envs.frames| && ObjOk(result, |envs.frames|)
      invariant BlockLoopF(fuel - 1, b.stmts, i, result, env, envs.State())
             == BlockLoopF(fuel - 1, b.stmts, 0, None, env, old(envs.State()))
    {
      var x := EvalStatement(envs, fuel - 1, b.stmts[i], env);
      if !x.Ok? || IsSignal(x.obj) {
        return x;
      }
      result := x.obj;
    }
    r := Ok(result);
  }

  /** evalProgram: the statements in order; a return signal ends the program with the
      object it carries, an Error ends it with the Error. */
  method EvalProgram(envs: Environments, fuel: nat, p: Program, env: nat) returns (r: Outcome)
    requires envs.Valid() && env < |envs.frames|
    modifies envs
    ensures envs.Valid()
    ensures Evaluated(r, envs.State()) == EvalProgramF(fuel, p, env, old(envs.State()))
  {
    if fuel == 0 {
      return Exhausted;
    }
    var result: Option<Value> := None;
    for i := 0 to |p.stmts|
      invariant envs.Valid() && env < |envs.frames| && ObjOk(result, |envs.frames|)
      invariant ProgramLoopF(fuel - 1, p.stmts, i, result, env, envs.State())
             == ProgramLoopF(fuel - 1, p.stmts, 0, None, env, old(envs.State()))
    {
      var x := EvalStatement(envs, fuel - 1, p.stmts[i], env);
      if !x.Ok? || IsError(x.obj) {
        return x;
      }
      if x.obj.Some? && x.obj.value.ReturnValue? {
        return Ok(x.obj.value.inner);
      }
      result := x.obj;
    }
    r := Ok(result);
  }

  /** A run as the interpreter starts one: a fresh top-level environment, then the program. */
  method Interpret(fuel: nat, p: Program) returns (r: Outcome)
    ensures r == RunF(fuel, p).out
  {
    var envs := new Environments();
    var env := envs.NewEnvironment();
    r := EvalProgram(envs, fuel, p, env);
  }
}
