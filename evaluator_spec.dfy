/** What evaluation means, as functions of the heap of environments: the outcome each
    node evaluates to and the heap it leaves behind. A step budget `fuel` bounds how deep
    evaluations nest and how many rounds a loop runs; running out of it is the outcome
    Exhausted, which stands in for a run that does not end. Every Go call to Eval spends
    one unit of fuel. */
module EvaluatorSpec {
  import opened Base
  import opened Tokens
  import opened Ast
  import opened Objects
  import opened Environments
  import opened Builtins

  /** The outcome of evaluating a node, and the heap afterwards. */
  datatype Evaluated = Evaluated(out: Outcome, heap: Heap)

  /** What evaluating an argument list comes to: the objects as evalExpressions returns
      them, or the panic or exhausted budget that cut the list short. */
  datatype ArgList = Objects(objs: seq<Option<Value>>) | Unwound(out: Outcome)

  /** The outcome of evaluating an argument list, and the heap afterwards. */
  datatype Collected = Collected(args: ArgList, heap: Heap)

  // ----- error messages -----

  function UnknownInfixMessage(left: string, op: string, right: string): string
  {
    "неизвестный оператор: " + (left + (" " + (op + (" " + right))))
  }

  function TypeMismatchMessage(left: string, op: string, right: string): string
  {
    "разные типы: " + (left + (" " + (op + (" " + right))))
  }

  function UnknownPrefixMessage(op: string, right: string): string
  {
    "неизвестный оператор: " + (op + right)
  }

  function ConditionTypeMessage(t: string): string
  {
    "условие должно быть булевого типа, получено " + t
  }

  function BadInitMessage(dataType: Kind, t: string): string
  {
    "неверная инициализация типа данных " + (KindName(dataType) + (" " + t))
  }

  function RedeclaredMessage(name: string, shown: string): string
  {
    "переменная " + (name + (" уже существует = " + shown))
  }

  function NotCallableMessage(t: string): string
  {
    "нет функции " + t
  }

  function UnboundMessage(name: string): string
  {
    "нет переменной: " + name
  }

  // ----- the messages are the format strings filled in -----

  /** The format strings of the evaluator's newError calls. */
  const UnknownInfixFormat: string := "неизвестный оператор: %s %s %s"
  const TypeMismatchFormat: string := "разные типы: %s %s %s"
  const UnknownPrefixFormat: string := "неизвестный оператор: %s%s"
  const UnknownMinusFormat: string := "неизвестный оператор: -%s"
  const ConditionTypeFormat: string := "условие должно быть булевого типа, получено %s"
  const BadInitFormat: string := "неверная инициализация типа данных %s %s"
  const RedeclaredFormat: string := "переменная %s уже существует = %s"
  const NotCallableFormat: string := "нет функции %s"
  const UnboundFormat: string := "нет переменной: %s"

  lemma UnknownInfixFormatted(left: string, op: string, right: string)
    ensures UnknownInfixMessage(left, op, right) == Sprintf(UnknownInfixFormat, [left, op, right])
  {
    assert UnknownInfixFormat == "неизвестный оператор: " + ("%s" + (" " + ("%s" + (" " + ("%s" + "")))));
    Sprintf3("неизвестный оператор: ", left, " ", op, " ", right, "");
    assert right + "" == right;
  }

  lemma TypeMismatchFormatted(left: string, op: string, right: string)
    ensures TypeMismatchMessage(left, op, right) == Sprintf(TypeMismatchFormat, [left, op, right])
  {
    assert TypeMismatchFormat == "разные типы: " + ("%s" + (" " + ("%s" + (" " + ("%s" + "")))));
    Sprintf3("разные типы: ", left, " ", op, " ", right, "");
    assert right + "" == right;
  }

  /** The `!` operator's message. */
  lemma UnknownPrefixFormatted(op: string, right: string)
    ensures UnknownPrefixMessage(op, right) == Sprintf(UnknownPrefixFormat, [op, right])
  {
    assert UnknownPrefixFormat == "неизвестный оператор: " + ("%s" + ("" + ("%s" + "")));
    Sprintf2("неизвестный оператор: ", op, "", right, "");
    assert "" + (right + "") == right;
  }

  /** The `-` operator's message has its own format, with the minus written into it; the
      model builds it as the `!` message with "-" for the operator, and the two agree. */
  lemma UnknownMinusFormatted(right: string)
    ensures UnknownPrefixMessage("-", right) == Sprintf(UnknownMinusFormat, [right])
  {
    var w := "неизвестный оператор: ";
    assert UnknownMinusFormat == (w + "-") + ("%s" + "");
    Sprintf1(w + "-", right, "");
    Regroup3(w, "-", right);
  }

  lemma ConditionTypeFormatted(t: string)
    ensures ConditionTypeMessage(t) == Sprintf(ConditionTypeFormat, [t])
  {
    assert ConditionTypeFormat == "условие должно быть булевого типа, получено " + ("%s" + "");
    Sprintf1("условие должно быть булевого типа, получено ", t, "");
    assert t + "" == t;
  }

  /** The declared type is printed as its token kind's text. */
  lemma BadInitFormatted(dataType: Kind, t: string)
    ensures BadInitMessage(dataType, t) == Sprintf(BadInitFormat, [KindName(dataType), t])
  {
    assert BadInitFormat == "неверная инициализация типа данных " + ("%s" + (" " + ("%s" + "")));
    Sprintf2("неверная инициализация типа данных ", KindName(dataType), " ", t, "");
    assert t + "" == t;
  }

  lemma RedeclaredFormatted(name: string, shown: string)
    ensures RedeclaredMessage(name, shown) == Sprintf(RedeclaredFormat, [name, shown])
  {
    assert RedeclaredFormat == "переменная " + ("%s" + (" уже существует = " + ("%s" + "")));
    Sprintf2("переменная ", name, " уже существует = ", shown, "");
    assert shown + "" == shown;
  }

  lemma NotCallableFormatted(t: string)
    ensures NotCallableMessage(t) == Sprintf(NotCallableFormat, [t])
  {
    assert NotCallableFormat == "нет функции " + ("%s" + "");
    Sprintf1("нет функции ", t, "");
    assert t + "" == t;
  }

  lemma UnboundFormatted(name: string)
    ensures UnboundMessage(name) == Sprintf(UnboundFormat, [name])
  {
    assert UnboundFormat == "нет переменной: " + ("%s" + "");
    Sprintf1("нет переменной: ", name, "");
    assert name + "" == name;
  }

  function ErrorOf(message: string): Outcome
  {
    Ok(Some(Error(message)))
  }

  // ----- the pure operations -----

  /** isError: an Error object; nil is not one. */
  predicate IsError(o: Option<Value>)
    ensures IsError(o) <==> o.Some? && TypeName(o.value) == "ERROR"
  {
    o.Some? && o.value.Error?
  }

  /** The evaluation stops and hands its outcome up: a panic, an exhausted budget or an
      Error object. */
  predicate Stops(o: Outcome)
  {
    !o.Ok? || IsError(o.obj)
  }

  /** isTrue: the shared TRUE object, and nothing else. */
  predicate IsTrue(o: Option<Value>)
  {
    o == Some(NativeBool(true))
  }

  /** `!`: TRUE gives FALSE, FALSE and NULL give TRUE, every other object (and nil) FALSE. */
  function EvalBang(right: Option<Value>): Value
  {
    if right == Some(Boolean(true)) then NativeBool(false)
    else if right == Some(Boolean(false)) then NativeBool(true)
    else if right == Some(Null) then NativeBool(true)
    else NativeBool(false)
  }

  /** `-`: an Integer's int64 negation; any other type is an unknown operator. */
  function EvalMinus(right: Option<Value>): Outcome
  {
    if right.None? then Panic(NilDereference)
    else if !right.value.Integer? then ErrorOf(UnknownPrefixMessage("-", TypeName(right.value)))
    else Ok(Some(Integer(Wrap(-(right.value.intValue as int)))))
  }

  function EvalPrefix(op: string, right: Option<Value>): Outcome
  {
    if op == "!" then Ok(Some(EvalBang(right)))
    else if op == "-" then EvalMinus(right)
    else if right.None? then Panic(NilDereference)
    else ErrorOf(UnknownPrefixMessage(op, TypeName(right.value)))
  }

  /** Two Integers: int64 arithmetic (division truncates and by zero panics) and
      comparisons giving the shared booleans. */
  function EvalIntegerInfix(op: string, a: Int64, b: Int64): Outcome
  {
    if op == "+" then Ok(Some(Integer(Wrap(a + b))))
    else if op == "-" then Ok(Some(Integer(Wrap(a - b))))
    else if op == "/" then
      if b == 0 then Panic(DivideByZero) else Ok(Some(Integer(Wrap(TruncDiv(a, b)))))
    else if op == "*" then Ok(Some(Integer(Wrap(a * b))))
    else if op == ">" then Ok(Some(NativeBool(a > b)))
    else if op == "<" then Ok(Some(NativeBool(a < b)))
    else if op == ">=" then Ok(Some(NativeBool(a >= b)))
    else if op == "<=" then Ok(Some(NativeBool(a <= b)))
    else if op == "==" then Ok(Some(NativeBool(a == b)))
    else if op == "!=" then Ok(Some(NativeBool(a != b)))
    else ErrorOf(UnknownInfixMessage("INTEGER", op, "INTEGER"))
  }

  /** Two Strings: only `+`, which concatenates. */
  function EvalStringInfix(op: string, a: string, b: string): Value
  {
    if op != "+" then Error(UnknownInfixMessage("STRING", op, "STRING")) else Str(a + b)
  }

  /** evalInfixExpression for every operator but `=`, in the source's order of cases; a
      nil operand panics where the source first asks it for its type. */
  function EvalInfixValues(op: string, left: Option<Value>, right: Option<Value>): Outcome
  {
    if left.None? then Panic(NilDereference)
    else if (left.value.Integer? || left.value.Str?) && right.None? then Panic(NilDereference)
    else if left.value.Integer? && right.value.Integer? then
      EvalIntegerInfix(op, left.value.intValue, right.value.intValue)
    else if left.value.Str? && right.value.Str? then
      Ok(Some(EvalStringInfix(op, left.value.strValue, right.value.strValue)))
    else if op == "==" then Ok(Some(NativeBool(SameObject(left.value, right))))
    else if op == "!=" then Ok(Some(NativeBool(!SameObject(left.value, right))))
    else if right.None? then Panic(NilDereference)
    else if TypeName(left.value) != TypeName(right.value) then
      ErrorOf(TypeMismatchMessage(TypeName(left.value), op, TypeName(right.value)))
    else ErrorOf(UnknownInfixMessage(TypeName(left.value), op, TypeName(right.value)))
  }

  /** The table of declarable types: the type tag a declared value must carry. */
  function DataTypeTag(k: Kind): (r: Option<string>)
    ensures r.Some? <==> k in {IntType, StringType, BoolType, Function}
    ensures forall v :: r == Some(TypeName(v)) <==>
              (k == IntType && v.Integer?) || (k == StringType && v.Str?)
              || (k == BoolType && v.Boolean?) || (k == Function && v.Closure?)
  {
    if k == IntType then Some("INTEGER")
    else if k == StringType then Some("STRING")
    else if k == BoolType then Some("BOOLEAN")
    else if k == Function then Some("FUNCTION")
    else None
  }

  /** checkDataType: the type is in the table and the value carries its tag. */
  predicate CheckDataType(k: Kind, v: Value)
  {
    DataTypeTag(k) == Some(TypeName(v))
  }

  /** unwrapReturnValue: the object a return signal carries; anything else as it is. */
  function UnwrapReturnValue(o: Outcome): Outcome
  {
    if o.Ok? && o.obj.Some? && o.obj.value.ReturnValue? then Ok(o.obj.value.inner) else o
  }

  /** A block stops at a return signal or an Error object. */
  predicate IsSignal(o: Option<Value>)
  {
    o.Some? && (o.value.ReturnValue? || o.value.Error?)
  }

  /** evalIdentifier: the innermost binding, else the builtin of that name, else an Error. */
  function EvalIdentifierF(h: Heap, env: nat, name: string): Outcome
    requires env < |h.frames| && ChainOk(h.frames)
  {
    match Get(h.frames, env, name)
    case Bound(o) => Ok(o)
    case Unbound => if LookupBuiltin(name).Some? then Ok(LookupBuiltin(name)) else ErrorOf(UnboundMessage(name))
  }

  // ----- the heap invariant every step keeps -----

  /** The heap stays well formed, frames and allocations are never taken back, and an
      object produced refers only to frames that exist. */
  predicate Keeps(h: Heap, r: Evaluated)
  {
    HeapOk(r.heap) && |h.frames| <= |r.heap.frames| && h.allocs <= r.heap.allocs
    && (r.out.Ok? ==> ObjOk(r.out.obj, |r.heap.frames|))
  }

  predicate KeepsArgs(h: Heap, r: Collected)
  {
    HeapOk(r.heap) && |h.frames| <= |r.heap.frames| && h.allocs <= r.heap.allocs
    && (r.args.Objects? ==> AllOk(r.args.objs, |r.heap.frames|)) && (r.args.Unwound? ==> !r.args.out.Ok?)
  }

  lemma KeepsTrans(h: Heap, r1: Evaluated, r2: Evaluated)
    requires Keeps(h, r1) && Keeps(r1.heap, r2)
    ensures Keeps(h, r2)
  {
  }

  // ----- declarations and parameters -----

  /** The tail of a declaration: a name found anywhere on the chain is an Error showing
      its object (which panics on nil); otherwise the name is bound in the current frame
      and the statement yields nil. */
  function DeclareF(h: Heap, env: nat, name: string, v: Value): (r: Evaluated)
    requires HeapOk(h) && env < |h.frames| && ValueOk(v, |h.frames|)
    ensures Keeps(h, r)
  {
    GetObjOk(h, env, name);
    SetOk(h, env, name, Some(v));
    match Get(h.frames, env, name)
    case Bound(o) =>
      if o.Some? && Inspectable(o.value) then Evaluated(ErrorOf(RedeclaredMessage(name, Inspect(o.value))), h)
      else Evaluated(Panic(NilDereference), h)
    case Unbound => Evaluated(Ok(None), SetF(h, env, name, Some(v)))
  }

  /** extendFunctionEnv's loop from parameter `i` on: each parameter bound in frame `e`
      to the argument at its position; running out of arguments panics. */
  function ExtendF(h: Heap, e: nat, params: seq<Identifier>, objs: seq<Option<Value>>, i: nat): (r: (bool, Heap))
    requires HeapOk(h) && e < |h.frames| && AllOk(objs, |h.frames|) && i <= |params|
    ensures HeapOk(r.1) && |r.1.frames| == |h.frames| && r.1.allocs == h.allocs
    ensures r.0 <==> |params| <= |objs| || i >= |params|
    decreases |params| - i
  {
    if i == |params| then (true, h)
    else if i >= |objs| then (false, h)
    else
      SetOk(h, e, params[i].value, objs[i]);
      ExtendF(SetF(h, e, params[i].value, objs[i]), e, params, objs, i + 1)
  }

  /** extendFunctionEnv: a new frame enclosing the closure's frame, with the parameters
      bound in it; false when the arguments run out. */
  function ExtendEnvF(h: Heap, outer: nat, params: seq<Identifier>, objs: seq<Option<Value>>): (r: (nat, bool, Heap))
    requires HeapOk(h) && outer < |h.frames| && AllOk(objs, |h.frames|)
    ensures HeapOk(r.2) && r.0 == |h.frames| && |r.2.frames| == |h.frames| + 1 && r.2.allocs == h.allocs
  {
    var (e, h1) := NewEnclosedF(h, outer);
    NewEnclosedOk(h, outer);
    AllOkMono(objs, |h.frames|, |h1.frames|);
    var (ok, h2) := ExtendF(h1, e, params, objs, 0);
    (e, ok, h2)
  }

  // ----- Eval -----

  /** Eval on an expression. */
  function EvalExprF(fuel: nat, e: Expr, env: nat, h: Heap): (r: Evaluated)
    requires HeapOk(h) && env < |h.frames|
    ensures Keeps(h, r)
    decreases fuel, 0
  {
    if fuel == 0 then Evaluated(Exhausted, h)
    else
      match e
      case Missing => Evaluated(Ok(None), h)
      case Id(ident) => GetObjOk(h, env, ident.value); Evaluated(EvalIdentifierF(h, env, ident.value), h)
      case IntegerLiteral(_, v) => Evaluated(Ok(Some(Integer(Wrap(v)))), h)
      case StringLiteral(_, s) => Evaluated(Ok(Some(Str(s))), h)
      case BooleanLiteral(_, b) => Evaluated(Ok(Some(NativeBool(b))), h)
      case PrefixExpr(_, op, right) => EvalPrefixF(fuel - 1, op, right, env, h)
      case InfixExpr(_, left, op, right) => EvalInfixF(fuel - 1, left, op, right, env, h)
      case IfExpr(_, cond, cons, alt) => EvalIfF(fuel - 1, cond, cons, alt, env, h)
      case ForLoopExpr(_, cond, body) => EvalForF(fuel - 1, cond, body, env, h)
      case FunctionLiteral(_, params, body) =>
        Evaluated(Ok(Some(Closure(params, body, env, h.allocs))), AllocateF(h).1)
      case CallExpr(_, callee, args) => EvalCallF(fuel - 1, callee, args, env, h)
  }

  function EvalPrefixF(f: nat, op: string, right: Expr, env: nat, h: Heap): (r: Evaluated)
    requires HeapOk(h) && env < |h.frames|
    ensures Keeps(h, r)
    decreases f, 3
  {
    var x := EvalExprF(f, right, env, h);
    if Stops(x.out) then x else Evaluated(EvalPrefix(op, x.out.obj), x.heap)
  }

  /** Both operands are evaluated, left first; `=` then binds the left operand's token
      text in the current frame to the right object and yields that object. */
  function EvalInfixF(f: nat, left: Expr, op: string, right: Expr, env: nat, h: Heap): (r: Evaluated)
    requires HeapOk(h) && env < |h.frames|
    ensures Keeps(h, r)
    decreases f, 3
  {
    var x := EvalExprF(f, left, env, h);
    if Stops(x.out) then x
    else
      var y := EvalExprF(f, right, env, x.heap);
      if Stops(y.out) then y
      else if left.Missing? then Evaluated(Panic(NilDereference), y.heap)
      else if op == "=" then
        SetOk(y.heap, env, ExprTokenLiteral(left), y.out.obj);
        Evaluated(Ok(y.out.obj), SetF(y.heap, env, ExprTokenLiteral(left), y.out.obj))
      else Evaluated(EvalInfixValues(op, x.out.obj, y.out.obj), y.heap)
  }

  function EvalIfF(f: nat, cond: Expr, cons: Block, alt: Option<Block>, env: nat, h: Heap): (r: Evaluated)
    requires HeapOk(h) && env < |h.frames|
    ensures Keeps(h, r)
    decreases f, 3
  {
    var c := EvalExprF(f, cond, env, h);
    if Stops(c.out) then c
    else if IsTrue(c.out.obj) then EvalBlockF(f, cons, env, c.heap)
    else if alt.Some? then EvalBlockF(f, alt.value, env, c.heap)
    else Evaluated(Ok(Some(Null)), c.heap)
  }

  /** The condition is checked once for type BOOLEAN before the rounds begin. */
  function EvalForF(f: nat, cond: Expr, body: Block, env: nat, h: Heap): (r: Evaluated)
    requires HeapOk(h) && env < |h.frames|
    ensures Keeps(h, r)
    decreases f, 3
  {
    var c := EvalExprF(f, cond, env, h);
    if Stops(c.out) then c
    else if c.out.obj.None? then Evaluated(Panic(NilDereference), c.heap)
    else if !c.out.obj.value.Boolean? then Evaluated(ErrorOf(ConditionTypeMessage(TypeName(c.out.obj.value))), c.heap)
    else ForRoundsF(f, cond, body, env, c.heap)
  }

  /** The loop proper: while the condition evaluates to TRUE, run the body and discard
      what it yields; then yield NULL. Each round spends one unit of fuel. */
  function ForRoundsF(f: nat, cond: Expr, body: Block, env: nat, h: Heap): (r: Evaluated)
    requires HeapOk(h) && env < |h.frames|
    ensures Keeps(h, r)
    decreases f, 1
  {
    var c := EvalExprF(f, cond, env, h);
    if !c.out.Ok? then c
    else if !IsTrue(c.out.obj) then Evaluated(Ok(Some(Null)), c.heap)
    else
      var b := EvalBlockF(f, body, env, c.heap);
      if !b.out.Ok? then b
      else if f == 0 then Evaluated(Exhausted, b.heap)
      else
        var r := ForRoundsF(f - 1, cond, body, env, b.heap);
        KeepsTrans(c.heap, b, r);
        r
  }

  /** The callee, then the arguments; an Error among the arguments is the call's result. */
  function EvalCallF(f: nat, callee: Expr, args: seq<Expr>, env: nat, h: Heap): (r: Evaluated)
    requires HeapOk(h) && env < |h.frames|
    ensures Keeps(h, r)
    decreases f, 3
  {
    var c := EvalExprF(f, callee, env, h);
    if Stops(c.out) then c
    else
      var a := EvalArgsF(f, args, 0, [], env, c.heap);
      if a.args.Unwound? then Evaluated(a.args.out, a.heap)
      else if |a.args.objs| == 1 && IsError(a.args.objs[0]) then Evaluated(Ok(a.args.objs[0]), a.heap)
      else
        ObjOkMono(c.out.obj, |c.heap.frames|, |a.heap.frames|);
        ApplyF(f, c.out.obj, a.args.objs, a.heap)
  }

  /** evalExpressions from argument `i` on, `acc` holding the objects so far: at the
      first Error the list is just that Error. */
  function EvalArgsF(f: nat, args: seq<Expr>, i: nat, acc: seq<Option<Value>>, env: nat, h: Heap): (r: Collected)
    requires i <= |args| && HeapOk(h) && env < |h.frames| && AllOk(acc, |h.frames|)
    ensures KeepsArgs(h, r)
    decreases f, 2, |args| - i
  {
    if i == |args| then Collected(Objects(acc), h)
    else
      var x := EvalExprF(f, args[i], env, h);
      if !x.out.Ok? then Collected(Unwound(x.out), x.heap)
      else if IsError(x.out.obj) then Collected(Objects([x.out.obj]), x.heap)
      else
        AllOkMono(acc, |h.frames|, |x.heap.frames|);
        EvalArgsF(f, args, i + 1, acc + [x.out.obj], env, x.heap)
  }

  /** applyFunction: a closure's body runs in a new frame enclosing the frame it was
      created in, with its parameters bound, and one return signal is unwrapped; a builtin
      is called directly; anything else cannot be called. */
  function ApplyF(f: nat, fn: Option<Value>, objs: seq<Option<Value>>, h: Heap): (r: Evaluated)
    requires HeapOk(h) && ObjOk(fn, |h.frames|) && AllOk(objs, |h.frames|)
    ensures Keeps(h, r)
    decreases f, 1
  {
    if fn.None? then Evaluated(Panic(NilDereference), h)
    else if fn.value.Closure? then
      var (e, ok, h2) := ExtendEnvF(h, fn.value.env, fn.value.params, objs);
      if !ok then Evaluated(Panic(IndexOutOfRange), h2)
      else
        var b := EvalBlockF(f, fn.value.body, e, h2);
        Evaluated(UnwrapReturnValue(b.out), b.heap)
    else if fn.value.Builtin? then Evaluated(CallBuiltin(fn.value.fn, objs), h)
    else Evaluated(ErrorOf(NotCallableMessage(TypeName(fn.value))), h)
  }

  /** Eval on a statement. */
  function EvalStmtF(fuel: nat, s: Stmt, env: nat, h: Heap): (r: Evaluated)
    requires HeapOk(h) && env < |h.frames|
    ensures Keeps(h, r)
    decreases fuel, 0
  {
    if fuel == 0 then Evaluated(Exhausted, h)
    else
      match s
      case ExpressionStmt(_, e) => EvalExprF(fuel - 1, e, env, h)
      case ReturnStmt(_, value) => EvalReturnF(fuel - 1, value, env, h)
      case VariableStmt(_, name, dataType, value) => EvalDeclarationF(fuel - 1, name.value, dataType, value, env, h)
  }

  /** A return statement wraps its value in a new return signal. */
  function EvalReturnF(f: nat, value: Expr, env: nat, h: Heap): (r: Evaluated)
    requires HeapOk(h) && env < |h.frames|
    ensures Keeps(h, r)
    decreases f, 3
  {
    var x := EvalExprF(f, value, env, h);
    if Stops(x.out) then x
    else Evaluated(Ok(Some(ReturnValue(x.out.obj, x.heap.allocs))), AllocateF(x.heap).1)
  }

  /** A declaration: the initializer, then its type against the declared one, then the
      name against the whole chain; a nil initializer panics. */
  function EvalDeclarationF(f: nat, name: string, dataType: Kind, value: Expr, env: nat, h: Heap): (r: Evaluated)
    requires HeapOk(h) && env < |h.frames|
    ensures Keeps(h, r)
    decreases f, 3
  {
    var x := EvalExprF(f, value, env, h);
    if Stops(x.out) then x
    else
      var r := InitializeF(x.heap, env, name, dataType, x.out.obj);
      KeepsTrans(h, x, r);
      r
  }

  /** A declaration once its initializer has yielded `obj`: nil panics, a type that does
      not match is an Error, and otherwise DeclareF. */
  function InitializeF(h: Heap, env: nat, name: string, dataType: Kind, obj: Option<Value>): (r: Evaluated)
    requires HeapOk(h) && env < |h.frames| && ObjOk(obj, |h.frames|)
    ensures Keeps(h, r)
  {
    if obj.None? then Evaluated(Panic(NilDereference), h)
    else if !CheckDataType(dataType, obj.value) then Evaluated(ErrorOf(BadInitMessage(dataType, TypeName(obj.value))), h)
    else DeclareF(h, env, name, obj.value)
  }

  /** Eval on a block. */
  function EvalBlockF(fuel: nat, b: Block, env: nat, h: Heap): (r: Evaluated)
    requires HeapOk(h) && env < |h.frames|
    ensures Keeps(h, r)
    decreases fuel, 0
  {
    if fuel == 0 then Evaluated(Exhausted, h) else BlockLoopF(fuel - 1, b.stmts, 0, None, env, h)
  }

  /** evalBlockStatement's loop from statement `i` on, `last` holding the previous
      statement's object. */
  function BlockLoopF(f: nat, stmts: seq<Stmt>, i: nat, last: Option<Value>, env: nat, h: Heap): (r: Evaluated)
    requires i <= |stmts| && HeapOk(h) && env < |h.frames| && ObjOk(last, |h.frames|)
    ensures Keeps(h, r)
    decreases f, 2, |stmts| - i
  {
    if i == |stmts| then Evaluated(Ok(last), h)
    else
      var x := EvalStmtF(f, stmts[i], env, h);
      if !x.out.Ok? || IsSignal(x.out.obj) then x
      else
        var r := BlockLoopF(f, stmts, i + 1, x.out.obj, env, x.heap);
        KeepsTrans(h, x, r);
        r
  }

  /** Eval on a program. */
  function EvalProgramF(fuel: nat, p: Program, env: nat, h: Heap): (r: Evaluated)
    requires HeapOk(h) && env < |h.frames|
    ensures Keeps(h, r)
    decreases fuel, 0
  {
    if fuel == 0 then Evaluated(Exhausted, h) else ProgramLoopF(fuel - 1, p.stmts, 0, None, env, h)
  }

  /** evalProgram's loop from statement `i` on: a return signal ends the program with
      the object it carries, an Error ends it with the Error. */
  function ProgramLoopF(f: nat, stmts: seq<Stmt>, i: nat, last: Option<Value>, env: nat, h: Heap): (r: Evaluated)
    requires i <= |stmts| && HeapOk(h) && env < |h.frames| && ObjOk(last, |h.frames|)
    ensures Keeps(h, r)
    decreases f, 2, |stmts| - i
  {
    if i == |stmts| then Evaluated(Ok(last), h)
    else
      var x := EvalStmtF(f, stmts[i], env, h);
      if !x.out.Ok? || IsError(x.out.obj) then x
      else if x.out.obj.Some? && x.out.obj.value.ReturnValue? then Evaluated(Ok(x.out.obj.value.inner), x.heap)
      else
        var r := ProgramLoopF(f, stmts, i + 1, x.out.obj, env, x.heap);
        KeepsTrans(h, x, r);
        r
  }

  /** A run as the interpreter starts one: a fresh top-level environment, then Eval on
      the whole program. */
  function RunF(fuel: nat, p: Program): Evaluated
  {
    var (e, h) := NewEnvironmentF(Heap([], 0));
    EvalProgramF(fuel, p, e, h)
  }
}
