/** What the evaluator promises, proved of the functions of EvaluatorSpec (and so of the
    methods of Evaluation, which compute them). */
module EvaluatorProperties {
  import opened Base
  import opened Tokens
  import opened Ast
  import opened Objects
  import opened Environments
  import opened Builtins
  import opened EvaluatorSpec

  // ----- integer operators -----

  /** `+`, `-` and `*` on two Integers yield the int64 result: the mathematical one when
      it fits, otherwise the one congruent to it modulo 2^64. */
  lemma IntegerArithmetic(op: string, a: Int64, b: Int64, exact: int)
    requires (op == "+" && exact == a + b) || (op == "-" && exact == a - b) || (op == "*" && exact == a * b)
    ensures var r := EvalIntegerInfix(op, a, b);
            r.Ok? && r.obj.Some? && r.obj.value.Integer? && (r.obj.value.intValue - exact) % TwoTo64 == 0
    ensures MinInt64 <= exact <= MaxInt64 ==> EvalIntegerInfix(op, a, b) == Ok(Some(Integer(exact)))
  {
    var w := Wrap(exact);
    assert EvalIntegerInfix(op, a, b) == Ok(Some(Integer(w)));
  }

  /** `/` panics exactly on a zero divisor; otherwise its quotient truncates toward
      zero, leaving a remainder smaller than the divisor with the dividend's sign, and
      the one overflowing quotient MinInt64 / -1 wraps back to MinInt64. */
  lemma IntegerDivision(a: Int64, b: Int64)
    ensures EvalIntegerInfix("/", a, b).Panic? <==> b == 0
    ensures b != 0 && !(a == MinInt64 && b == -1) ==>
              exists q: Int64 :: EvalIntegerInfix("/", a, b) == Ok(Some(Integer(q)))
                && Abs(a - q * b) < Abs(b) && (a - q * b == 0 || (a - q * b < 0) == (a < 0))
    ensures b == -1 ==> EvalIntegerInfix("/", MinInt64, b) == Ok(Some(Integer(MinInt64)))
  {
    if b != 0 && !(a == MinInt64 && b == -1) {
      var q := TruncDiv(a, b);
      TruncDivRemainder(a, b);
      assert MinInt64 <= q <= MaxInt64 by {
        TruncDivBound(a, b);
      }
      assert EvalIntegerInfix("/", a, b) == Ok(Some(Integer(q)));
    }
    if b == -1 {
      MinInt64DivMinusOne();
    }
  }

  lemma TruncDivBound(a: Int64, b: Int64)
    requires b != 0 && !(a == MinInt64 && b == -1)
    ensures MinInt64 <= TruncDiv(a, b) <= MaxInt64
  {
    if b == 1 {
      assert TruncDiv(a, b) == a;
    } else if b == -1 {
      assert TruncDiv(a, b) == -a;
    } else {
      QuotientAtMostHalf(Abs(a), Abs(b));
    }
  }

  /** Dividing by two or more at least halves a natural number. */
  lemma QuotientAtMostHalf(x: nat, d: nat)
    requires d >= 2
    ensures x / d * 2 <= x
  {
    var q := x / d;
    assert q * d + x % d == x;
    assert q * 2 <= q * d;
  }

  /** Whether an integer comparison yields TRUE. */
  predicate Holds(op: string, a: Int64, b: Int64)
  {
    EvalIntegerInfix(op, a, b) == Ok(Some(Boolean(true)))
  }

  /** The six comparisons yield a shared boolean and agree with one another: `>` is `<`
      with the operands swapped, `>=` and `<=` negate `<` and `>`, `!=` negates `==`,
      and exactly one of `<`, `==`, `>` holds. */
  lemma IntegerComparisons(a: Int64, b: Int64)
    ensures forall op :: op in {">", "<", ">=", "<=", "==", "!="} ==>
              EvalIntegerInfix(op, a, b).Ok? && EvalIntegerInfix(op, a, b).obj.Some?
              && EvalIntegerInfix(op, a, b).obj.value.Boolean?
    ensures Holds(">", a, b) == Holds("<", b, a)
    ensures Holds(">=", a, b) == !Holds("<", a, b) && Holds("<=", a, b) == !Holds(">", a, b)
    ensures Holds("==", a, b) == (a == b) && Holds("!=", a, b) == !Holds("==", a, b)
    ensures (Holds("<", a, b) && !Holds("==", a, b) && !Holds(">", a, b))
         || (!Holds("<", a, b) && Holds("==", a, b) && !Holds(">", a, b))
         || (!Holds("<", a, b) && !Holds("==", a, b) && Holds(">", a, b))
  {
  }

  /** Any other operator on two Integers is an unknown-operator Error naming both types. */
  lemma UnknownIntegerOperator(op: string, a: Int64, b: Int64)
    requires op !in {"+", "-", "*", "/", ">", "<", ">=", "<=", "==", "!="}
    ensures EvalIntegerInfix(op, a, b) == ErrorOf("неизвестный оператор: INTEGER " + op + " INTEGER")
  {
    assert UnknownInfixMessage("INTEGER", op, "INTEGER") == "неизвестный оператор: INTEGER " + op + " INTEGER";
  }

  // ----- string operators -----

  /** `+` on two Strings concatenates them: the result starts with the left string and
      ends with the right one. Every other operator is an unknown-operator Error. */
  lemma StringOperators(op: string, a: string, b: string)
    ensures var v := EvalInfixValues(op, Some(Str(a)), Some(Str(b)));
            op == "+" ==>
              (v.Ok? && v.obj.Some? && v.obj.value.Str? && |v.obj.value.strValue| == |a| + |b|
               && v.obj.value.strValue[..|a|] == a && v.obj.value.strValue[|a|..] == b)
    ensures op != "+" ==>
              (EvalInfixValues(op, Some(Str(a)), Some(Str(b))) == ErrorOf("неизвестный оператор: STRING " + op + " STRING"))
  {
    if op == "+" {
      assert (a + b)[..|a|] == a;
      assert (a + b)[|a|..] == b;
    } else {
      assert UnknownInfixMessage("STRING", op, "STRING") == "неизвестный оператор: STRING " + op + " STRING";
    }
  }

  // ----- the order of infix cases -----

  /** With neither two Integers nor two Strings, `==` compares object identity and `!=`
      is its negation, even when the types differ. */
  lemma EqualityIsIdentity(l: Value, r: Option<Value>)
    requires !(l.Integer? && r.Some? && r.value.Integer?) && !(l.Str? && r.Some? && r.value.Str?)
    requires (l.Integer? || l.Str?) ==> r.Some?
    ensures EvalInfixValues("==", Some(l), r) == Ok(Some(Boolean(r == Some(l))))
    ensures EvalInfixValues("!=", Some(l), r) == Ok(Some(Boolean(r != Some(l))))
  {
  }

  /** Two objects outside the arithmetic and string cases, under any operator but `==`
      and `!=`: an Error saying the types differ when they do, and an unknown-operator
      Error when they are the same. */
  lemma OtherOperandErrors(op: string, l: Value, r: Value)
    requires op != "==" && op != "!="
    requires !(l.Integer? && r.Integer?) && !(l.Str? && r.Str?)
    ensures !SameVariant(l, r) ==>
              EvalInfixValues(op, Some(l), Some(r)) == ErrorOf(TypeMismatchMessage(TypeName(l), op, TypeName(r)))
    ensures SameVariant(l, r) ==>
              EvalInfixValues(op, Some(l), Some(r)) == ErrorOf(UnknownInfixMessage(TypeName(l), op, TypeName(r)))
  {
    TypeNameIdentifiesVariant(l, r);
  }

  /** The infix operators panic only on a nil operand the source asks for its type, or on
      an Integer division by zero; on any two objects they yield an object. */
  lemma InfixPanics(op: string, l: Option<Value>, r: Option<Value>)
    ensures EvalInfixValues(op, l, r).Panic? <==>
              l.None?
              || (r.None? && (l.value.Integer? || l.value.Str? || (op != "==" && op != "!=")))
              || (l.value.Integer? && r.Some? && r.value.Integer? && op == "/" && r.value.intValue == 0)
    ensures l.Some? && r.Some? && !EvalInfixValues(op, l, r).Panic? ==>
              EvalInfixValues(op, l, r).Ok? && EvalInfixValues(op, l, r).obj.Some?
  {
  }

  /** The error cases of the evaluator's tests. */
  lemma InfixErrorExamples()
    ensures EvalInfixValues("+", Some(Integer(5)), Some(Boolean(true))) == ErrorOf("разные типы: INTEGER + BOOLEAN")
    ensures EvalInfixValues("+", Some(Boolean(true)), Some(Boolean(false)))
         == ErrorOf("неизвестный оператор: BOOLEAN + BOOLEAN")
    ensures EvalInfixValues("-", Some(Str("Hello")), Some(Str("World")))
         == ErrorOf("неизвестный оператор: STRING - STRING")
    ensures EvalPrefix("-", Some(Boolean(true))) == ErrorOf("неизвестный оператор: -BOOLEAN")
  {
    assert TypeMismatchMessage("INTEGER", "+", "BOOLEAN") == "разные типы: INTEGER + BOOLEAN";
    assert UnknownInfixMessage("BOOLEAN", "+", "BOOLEAN") == "неизвестный оператор: BOOLEAN + BOOLEAN";
    assert UnknownInfixMessage("STRING", "-", "STRING") == "неизвестный оператор: STRING - STRING";
    assert UnknownPrefixMessage("-", "BOOLEAN") == "неизвестный оператор: -BOOLEAN";
  }

  // ----- prefix operators and truthiness -----

  /** `!` yields TRUE exactly for FALSE and NULL, and FALSE for everything else, so a
      double `!` is TRUE for every object but FALSE and NULL: `!` counts Integers as
      true while `если` and `цикл` count only TRUE. */
  lemma BangTable(x: Option<Value>)
    ensures EvalBang(x).Boolean?
    ensures EvalBang(x).boolValue <==> x == Some(Boolean(false)) || x == Some(Null)
    ensures EvalBang(Some(EvalBang(x))).boolValue <==> !(x == Some(Boolean(false)) || x == Some(Null))
    ensures x == Some(Integer(1)) ==> EvalBang(Some(EvalBang(x))) == Boolean(true) && !IsTrue(x)
  {
  }

  /** `-` twice gives back every Integer, MinInt64 included (its negation wraps to itself). */
  lemma MinusInvolution(v: Int64)
    ensures var once := EvalMinus(Some(Integer(v)));
            once.Ok? && once.obj.Some? && once.obj.value.Integer?
            && EvalMinus(once.obj) == Ok(Some(Integer(v)))
  {
    if v == MinInt64 {
      assert Wrap(-(v as int)) == MinInt64;
    } else {
      assert Wrap(-(v as int)) == -v;
    }
  }

  /** `-` on anything but an Integer is an unknown-operator Error naming its type. */
  lemma MinusNonInteger(v: Value)
    requires !v.Integer?
    ensures EvalPrefix("-", Some(v)) == ErrorOf("неизвестный оператор: -" + TypeName(v))
  {
    assert UnknownPrefixMessage("-", TypeName(v)) == "неизвестный оператор: -" + TypeName(v);
  }

  // ----- declarations -----

  /** The declarable types: INT takes an Integer, STRING a String, BOOL a Boolean and
      FUNCTION a closure; every other type word takes nothing. */
  lemma DataTypes(k: Kind, v: Value)
    ensures CheckDataType(k, v) <==>
              (k == IntType && v.Integer?) || (k == StringType && v.Str?)
              || (k == BoolType && v.Boolean?) || (k == Function && v.Closure?)
  {
    if CheckDataType(k, v) {
      assert DataTypeTag(k).Some?;
    }
  }

  /** A declaration's checks come in the source's order. Once the initializer has
      yielded an object: a type that does not match is an Error and nothing is bound; a
      name already visible on the chain (declared in this frame or any outer one) is an
      Error and nothing is bound; otherwise the name is bound in the current frame, the
      statement yields nil, lookups of the name now find the object, and lookups of other
      names and from older frames are unchanged. */
  lemma DeclarationOrder(h: Heap, env: nat, name: string, dataType: Kind, v: Value, other: string, j: nat)
    requires HeapOk(h) && env < |h.frames| && ValueOk(v, |h.frames|) && other != name && j < |h.frames|
    ensures var r := InitializeF(h, env, name, dataType, Some(v));
            !CheckDataType(dataType, v) ==>
              r == Evaluated(ErrorOf(BadInitMessage(dataType, TypeName(v))), h)
    ensures var r := InitializeF(h, env, name, dataType, Some(v));
            CheckDataType(dataType, v) && (exists i :: OnChain(h.frames, env, i) && name in h.frames[i].store) ==>
              r.heap == h && (r.out.Panic? || (r.out.Ok? && IsError(r.out.obj)))
    ensures var r := InitializeF(h, env, name, dataType, Some(v));
            CheckDataType(dataType, v) && (forall i :: OnChain(h.frames, env, i) ==> name !in h.frames[i].store) ==>
              r.out == Ok(None) && ChainOk(r.heap.frames) && |r.heap.frames| == |h.frames|
              && Get(r.heap.frames, env, name) == Bound(Some(v))
              && Get(r.heap.frames, j, other) == Get(h.frames, j, other)
              && (j < env ==> Get(r.heap.frames, j, name) == Get(h.frames, j, name))
  {
    GetIsInnermost(h.frames, env, name);
    if CheckDataType(dataType, v) && Get(h.frames, env, name).Unbound? {
      SetThenGet(h, env, name, Some(v));
      SetKeepsOtherNames(h, env, name, Some(v), j, other);
      if j < env {
        SetKeepsOlderFrames(h, env, name, Some(v), j, name);
      }
    }
  }

  /** A redeclared name's Error shows the object it already holds. */
  lemma RedeclarationMessage(h: Heap, env: nat, name: string, v: Value, old_: Value)
    requires HeapOk(h) && env < |h.frames| && ValueOk(v, |h.frames|)
    requires Get(h.frames, env, name) == Bound(Some(old_)) && Inspectable(old_)
    ensures DeclareF(h, env, name, v) == Evaluated(ErrorOf(RedeclaredMessage(name, Inspect(old_))), h)
  {
  }

  // ----- identifiers and assignment -----

  /** An identifier resolves to the innermost binding on its chain; a name bound nowhere
      on the chain is the builtin of that name if there is one, and an Error otherwise.
      A variable therefore shadows the builtin `длина`. */
  lemma IdentifierResolution(h: Heap, env: nat, name: string)
    requires HeapOk(h) && env < |h.frames|
    ensures (exists j :: OnChain(h.frames, env, j) && name in h.frames[j].store) ==>
              exists j :: OnChain(h.frames, env, j) && name in h.frames[j].store
                && EvalIdentifierF(h, env, name) == Ok(h.frames[j].store[name])
                && forall i :: OnChain(h.frames, env, i) && i > j ==> name !in h.frames[i].store
    ensures (forall j :: OnChain(h.frames, env, j) ==> name !in h.frames[j].store) ==>
              EvalIdentifierF(h, env, name)
              == (if name == LengthName then Ok(Some(Builtin(Length))) else ErrorOf(UnboundMessage(name)))
  {
    GetIsInnermost(h.frames, env, name);
  }

  /** Assignment to a name bound nowhere on the chain (and not a builtin) is the
      identifier's Error, and nothing is evaluated or bound. */
  lemma AssignToUnbound(f: nat, x: Identifier, right: Expr, env: nat, h: Heap)
    requires HeapOk(h) && env < |h.frames| && f > 0 && x.value != LengthName
    requires forall j :: OnChain(h.frames, env, j) ==> x.value !in h.frames[j].store
    ensures EvalInfixF(f, Id(x), "=", right, env, h) == Evaluated(ErrorOf(UnboundMessage(x.value)), h)
  {
    GetIsInnermost(h.frames, env, x.value);
  }

  /** Assignment to a bound name evaluates the right side and binds the name's token text
      in the current (innermost) frame, not in the frame that declared it: it yields the
      object, the name now finds it from the current frame, and every older frame,
      including the declaring one when it is outer, keeps its binding. */
  lemma AssignBindsCurrentFrame(f: nat, x: Identifier, right: Expr, env: nat, h: Heap, j: nat, n: string)
    requires HeapOk(h) && env < |h.frames| && f > 0 && j < env
    requires Get(h.frames, env, x.value).Bound? && !IsError(Get(h.frames, env, x.value).obj)
    requires var y := EvalExprF(f, right, env, h); y.out.Ok? && !IsError(y.out.obj)
    ensures var y := EvalExprF(f, right, env, h);
            var r := EvalInfixF(f, Id(x), "=", right, env, h);
            r.out == y.out && ChainOk(r.heap.frames)
            && Get(r.heap.frames, env, x.token.literal) == Bound(y.out.obj)
            && Get(r.heap.frames, j, n) == Get(y.heap.frames, j, n)
  {
    var y := EvalExprF(f, right, env, h);
    assert EvalExprF(f, Id(x), env, h) == Evaluated(Ok(Get(h.frames, env, x.value).obj), h);
    SetThenGet(y.heap, env, x.token.literal, y.out.obj);
    SetKeepsOlderFrames(y.heap, env, x.token.literal, y.out.obj, j, n);
  }

  // ----- calls -----

  /** extendFunctionEnv: the arguments suffice exactly when there are at least as many as
      parameters (extra ones are ignored). Then the new frame binds each parameter to the
      argument at its position (the last of repeated names wins), every other name
      resolves as in the closure's frame, and no existing frame changes. */
  lemma ParametersBound(h: Heap, outer: nat, params: seq<Identifier>, objs: seq<Option<Value>>)
    requires HeapOk(h) && outer < |h.frames| && AllOk(objs, |h.frames|)
    ensures var (e, ok, h2) := ExtendEnvF(h, outer, params, objs);
            (ok <==> |params| <= |objs|)
            && h2.frames[..|h.frames|] == h.frames && h2.frames[e].outer == Some(outer)
    ensures var (e, ok, h2) := ExtendEnvF(h, outer, params, objs);
            ok ==> forall k :: 0 <= k < |params| && LastOccurrence(params, k) ==>
                     Get(h2.frames, e, params[k].value) == Bound(objs[k])
    ensures var (e, ok, h2) := ExtendEnvF(h, outer, params, objs);
            forall name :: NotAParameter(params, name) ==> Get(h2.frames, e, name) == Get(h.frames, outer, name)
  {
    var (e, h1) := NewEnclosedF(h, outer);
    NewEnclosedOk(h, outer);
    AllOkMono(objs, |h.frames|, |h1.frames|);
    assert h1.frames[e] == Frame(map[], Some(outer));
    ExtendStore(h1, e, params, objs, 0);
    var h2 := ExtendF(h1, e, params, objs, 0).1;
    assert h2.frames[..|h.frames|] == h.frames by {
      assert h1.frames[..|h.frames|] == h.frames;
    }
    forall name | NotAParameter(params, name)
      ensures Get(h2.frames, e, name) == Get(h.frames, outer, name)
    {
      assert name !in h2.frames[e].store;
      assert Get(h2.frames, e, name) == Get(h2.frames, outer, name);
      AppendKeepsGet(h.frames, Frame(map[], Some(outer)), outer, name);
      PrefixKeepsGet(h2.frames, h1.frames, outer, name, |h.frames|);
    }
  }

  /** Position `k` holds the last parameter with its name. */
  predicate LastOccurrence(params: seq<Identifier>, k: int)
    requires 0 <= k < |params|
  {
    forall m :: k < m < |params| ==> params[m].value != params[k].value
  }

  predicate NotAParameter(params: seq<Identifier>, name: string)
  {
    NotAParameterFrom(params, 0, name)
  }

  /** No parameter from position `i` on has this name. */
  predicate NotAParameterFrom(params: seq<Identifier>, i: nat, name: string)
  {
    forall k :: i <= k < |params| ==> params[k].value != name
  }

  /** ExtendF from parameter `i` on writes only frame `e`: its store gains the names of
      parameters `i..` (bound to the last argument at each name's positions) and keeps
      the rest, and the frame's outer link and every other frame stay as they were. */
  lemma {:induction false} ExtendStore(h: Heap, e: nat, params: seq<Identifier>, objs: seq<Option<Value>>, i: nat)
    requires HeapOk(h) && e < |h.frames| && AllOk(objs, |h.frames|) && i <= |params|
    ensures var (ok, h2) := ExtendF(h, e, params, objs, i);
            |h2.frames| == |h.frames| && h2.frames[e].outer == h.frames[e].outer
            && (forall j :: 0 <= j < |h.frames| && j != e ==> h2.frames[j] == h.frames[j])
            && (forall name :: name !in h.frames[e].store && NotAParameterFrom(params, i, name) ==> name !in h2.frames[e].store)
            && (forall name :: name in h.frames[e].store && NotAParameterFrom(params, i, name) ==>
                  name in h2.frames[e].store && h2.frames[e].store[name] == h.frames[e].store[name])
            && (ok ==> forall k :: i <= k < |params| && LastOccurrence(params, k) ==>
                  params[k].value in h2.frames[e].store && h2.frames[e].store[params[k].value] == objs[k])
    decreases |params| - i
  {
    if i < |params| && i < |objs| {
      var h1 := SetF(h, e, params[i].value, objs[i]);
      SetOk(h, e, params[i].value, objs[i]);
      ExtendStore(h1, e, params, objs, i + 1);
      var (ok, h2) := ExtendF(h, e, params, objs, i);
      assert (ok, h2) == ExtendF(h1, e, params, objs, i + 1);
      if ok {
        forall k | i <= k < |params| && LastOccurrence(params, k)
          ensures params[k].value in h2.frames[e].store && h2.frames[e].store[params[k].value] == objs[k]
        {
          if k == i {
            assert NotAParameterFrom(params, i + 1, params[i].value);
          }
        }
      }
    }
  }

  /** Two frame lists that agree on their first `n` frames answer alike from any of them. */
  lemma {:induction false} PrefixKeepsGet(a: seq<Frame>, b: seq<Frame>, e: nat, name: string, n: nat)
    requires ChainOk(a) && ChainOk(b) && e < n <= |a| && n <= |b| && a[..n] == b[..n]
    ensures Get(a, e, name) == Get(b, e, name)
    decreases e
  {
    assert a[e] == a[..n][e] == b[..n][e] == b[e];
    if name !in a[e].store && a[e].outer.Some? {
      PrefixKeepsGet(a, b, a[e].outer.value, name, n);
    }
  }

  /** unwrapReturnValue removes exactly one return signal and changes nothing else. */
  lemma UnwrapOnce(o: Outcome, inner: Option<Value>, id: nat)
    ensures UnwrapReturnValue(Ok(Some(ReturnValue(inner, id)))) == Ok(inner)
    ensures !(o.Ok? && o.obj.Some? && o.obj.value.ReturnValue?) ==> UnwrapReturnValue(o) == o
  {
  }

  // ----- errors come first -----

  /** A prefix operand that yields an Error, panics or exhausts the budget is the whole
      result; otherwise the operator is applied to the operand's object. */
  lemma PrefixOperandFirst(f: nat, op: string, right: Expr, env: nat, h: Heap)
    requires HeapOk(h) && env < |h.frames|
    ensures var x := EvalExprF(f, right, env, h);
            Stops(x.out) ==> EvalPrefixF(f, op, right, env, h) == x
    ensures var x := EvalExprF(f, right, env, h);
            !Stops(x.out) ==> EvalPrefixF(f, op, right, env, h) == Evaluated(EvalPrefix(op, x.out.obj), x.heap)
  {
  }

  /** The left operand is evaluated first and its Error is the result, with the right
      operand never evaluated; then the right operand's Error is the result. */
  lemma InfixOperandsFirst(f: nat, left: Expr, op: string, right: Expr, env: nat, h: Heap)
    requires HeapOk(h) && env < |h.frames|
    ensures var x := EvalExprF(f, left, env, h);
            Stops(x.out) ==> EvalInfixF(f, left, op, right, env, h) == x
    ensures var x := EvalExprF(f, left, env, h);
            !Stops(x.out) ==>
              var y := EvalExprF(f, right, env, x.heap);
              Stops(y.out) ==> EvalInfixF(f, left, op, right, env, h) == y
  {
  }

  /** A return statement passes its value's Error on unwrapped; any other object is
      wrapped, once, in a newly allocated return signal. */
  lemma ReturnWrapsValue(f: nat, value: Expr, env: nat, h: Heap)
    requires HeapOk(h) && env < |h.frames|
    ensures var x := EvalExprF(f, value, env, h);
            Stops(x.out) ==> EvalReturnF(f, value, env, h) == x
    ensures var x := EvalExprF(f, value, env, h);
            var r := EvalReturnF(f, value, env, h);
            !Stops(x.out) ==>
              r.out.Ok? && r.out.obj.Some? && r.out.obj.value.ReturnValue?
              && r.out.obj.value.inner == x.out.obj
              && r.out.obj.value.id == x.heap.allocs && r.heap == x.heap.(allocs := x.heap.allocs + 1)
  {
  }

  /** A declaration whose initializer yields an Error (or panics) is that outcome, and
      nothing is bound; otherwise the initializer's object is checked and declared. */
  lemma InitializerFirst(f: nat, name: string, dataType: Kind, value: Expr, env: nat, h: Heap)
    requires HeapOk(h) && env < |h.frames|
    ensures var x := EvalExprF(f, value, env, h);
            Stops(x.out) ==> EvalDeclarationF(f, name, dataType, value, env, h) == x
    ensures var x := EvalExprF(f, value, env, h);
            !Stops(x.out) ==> EvalDeclarationF(f, name, dataType, value, env, h) == InitializeF(x.heap, env, name, dataType, x.out.obj)
  {
  }

  /** evalExpressions from argument `i` on: the first argument that yields an Error
      makes the list exactly that Error, dropping what was collected and evaluating no
      later argument. */
  lemma ArgumentErrorFirst(f: nat, args: seq<Expr>, i: nat, acc: seq<Option<Value>>, env: nat, h: Heap)
    requires i < |args| && HeapOk(h) && env < |h.frames| && AllOk(acc, |h.frames|)
    ensures var x := EvalExprF(f, args[i], env, h);
            x.out.Ok? && IsError(x.out.obj) ==>
              EvalArgsF(f, args, i, acc, env, h) == Collected(Objects([x.out.obj]), x.heap)
  {
  }

  /** The argument list comes out as one Error alone, or as the collected objects
      followed by one object per remaining argument, in order, none of them an Error. */
  lemma {:induction false} ArgumentsCollected(f: nat, args: seq<Expr>, i: nat, acc: seq<Option<Value>>, env: nat, h: Heap)
    requires i <= |args| && HeapOk(h) && env < |h.frames| && AllOk(acc, |h.frames|)
    requires forall k :: 0 <= k < |acc| ==> !IsError(acc[k])
    ensures var r := EvalArgsF(f, args, i, acc, env, h);
            r.args.Objects? ==>
              (|r.args.objs| == 1 && IsError(r.args.objs[0]))
              || (|r.args.objs| == |acc| + |args| - i && r.args.objs[..|acc|] == acc
                  && forall k :: 0 <= k < |r.args.objs| ==> !IsError(r.args.objs[k]))
    decreases |args| - i
  {
    if i < |args| {
      var x := EvalExprF(f, args[i], env, h);
      if x.out.Ok? && !IsError(x.out.obj) {
        AllOkMono(acc, |h.frames|, |x.heap.frames|);
        var acc' := acc + [x.out.obj];
        ArgumentsCollected(f, args, i + 1, acc', env, x.heap);
        var r := EvalArgsF(f, args, i + 1, acc', env, x.heap);
        if r.args.Objects? && |r.args.objs| == |acc'| + |args| - (i + 1) && r.args.objs[..|acc'|] == acc' {
          assert r.args.objs[..|acc|] == r.args.objs[..|acc'|][..|acc|];
        }
      }
    }
  }

  /** A callee that yields an Error is the call's result; then an argument list that
      unwound or came out as one Error is the result, and the function is not applied. */
  lemma CallShortCircuits(f: nat, callee: Expr, args: seq<Expr>, env: nat, h: Heap)
    requires HeapOk(h) && env < |h.frames|
    ensures var c := EvalExprF(f, callee, env, h);
            Stops(c.out) ==> EvalCallF(f, callee, args, env, h) == c
    ensures var c := EvalExprF(f, callee, env, h);
            !Stops(c.out) ==>
              var a := EvalArgsF(f, args, 0, [], env, c.heap);
              (a.args.Unwound? ==> EvalCallF(f, callee, args, env, h) == Evaluated(a.args.out, a.heap))
              && (a.args.Objects? && |a.args.objs| == 1 && IsError(a.args.objs[0]) ==>
                    EvalCallF(f, callee, args, env, h) == Evaluated(Ok(a.args.objs[0]), a.heap))
  {
  }

  // ----- loops, blocks and programs -----

  /** evalIfExpression: after the condition, exactly one branch runs. The consequence
      runs only when the condition yields the TRUE object; any other object that is not
      an Error (an Integer, a String, NULL, a function) takes the alternative, or yields
      NULL when there is none. */
  lemma IfSelectsBranch(f: nat, cond: Expr, cons: Block, alt: Option<Block>, env: nat, h: Heap)
    requires HeapOk(h) && env < |h.frames|
    ensures var c := EvalExprF(f, cond, env, h);
            c.out == Ok(Some(Boolean(true))) ==> EvalIfF(f, cond, cons, alt, env, h) == EvalBlockF(f, cons, env, c.heap)
    ensures var c := EvalExprF(f, cond, env, h);
            c.out.Ok? && !IsError(c.out.obj) && c.out.obj != Some(Boolean(true)) ==>
              EvalIfF(f, cond, cons, alt, env, h)
              == if alt.Some? then EvalBlockF(f, alt.value, env, c.heap) else Evaluated(Ok(Some(Null)), c.heap)
    ensures var c := EvalExprF(f, cond, env, h);
            Stops(c.out) ==> EvalIfF(f, cond, cons, alt, env, h) == c
  {
  }

  /** The rounds of a `цикл` loop that end normally yield NULL, whatever the body yields;
      every other end is a panic or an exhausted budget. */
  lemma {:induction false} ForRoundsYieldNull(f: nat, cond: Expr, body: Block, env: nat, h: Heap)
    requires HeapOk(h) && env < |h.frames|
    ensures var r := ForRoundsF(f, cond, body, env, h);
            r.out.Ok? ==> r.out.obj == Some(Null)
  {
    var c := EvalExprF(f, cond, env, h);
    if c.out.Ok? && IsTrue(c.out.obj) {
      var b := EvalBlockF(f, body, env, c.heap);
      if b.out.Ok? && f > 0 {
        ForRoundsYieldNull(f - 1, cond, body, env, b.heap);
      }
    }
  }

  /** evalForLoopExpression: a loop yields NULL, or the Error of its condition; a first
      condition that is not a Boolean yields the condition-type Error. */
  lemma ForLoopOutcome(f: nat, cond: Expr, body: Block, env: nat, h: Heap)
    requires HeapOk(h) && env < |h.frames|
    ensures var r := EvalForF(f, cond, body, env, h);
            r.out.Ok? ==> r.out.obj == Some(Null) || IsError(r.out.obj)
    ensures var c := EvalExprF(f, cond, env, h);
            c.out.Ok? && c.out.obj.Some? && !c.out.obj.value.Boolean? && !c.out.obj.value.Error? ==>
              EvalForF(f, cond, body, env, h).out == ErrorOf("условие должно быть булевого типа, получено " + TypeName(c.out.obj.value))
  {
    var c := EvalExprF(f, cond, env, h);
    if !Stops(c.out) && c.out.obj.Some? {
      ForRoundsYieldNull(f, cond, body, env, c.heap);
    }
  }

  /** evalProgram is evalBlockStatement followed by unwrapReturnValue: the two loops run
      the same statements, stop at the same place and leave the same environments; the
      program only removes the return signal a block would hand up. */
  lemma {:induction false} ProgramIsUnwrappedBlock(f: nat, stmts: seq<Stmt>, i: nat, last: Option<Value>, env: nat, h: Heap)
    requires i <= |stmts| && HeapOk(h) && env < |h.frames| && ObjOk(last, |h.frames|)
    requires !(last.Some? && last.value.ReturnValue?)
    ensures var b := BlockLoopF(f, stmts, i, last, env, h);
            ProgramLoopF(f, stmts, i, last, env, h) == Evaluated(UnwrapReturnValue(b.out), b.heap)
    decreases |stmts| - i
  {
    if i < |stmts| {
      var x := EvalStmtF(f, stmts[i], env, h);
      if x.out.Ok? && !IsSignal(x.out.obj) {
        ProgramIsUnwrappedBlock(f, stmts, i + 1, x.out.obj, env, x.heap);
      }
    }
  }

  /** Statements run in order: a block of `a + b` runs `a`, and unless that stops at a
      panic, an exhausted budget, a return or an Error, goes on with `b` from what `a`
      left. */
  lemma {:induction false} BlockSequencing(f: nat, a: seq<Stmt>, b: seq<Stmt>, i: nat, last: Option<Value>, env: nat, h: Heap)
    requires i <= |a| && HeapOk(h) && env < |h.frames| && ObjOk(last, |h.frames|) && !IsSignal(last)
    ensures var r := BlockLoopF(f, a, i, last, env, h);
            BlockLoopF(f, a + b, i, last, env, h) ==
              if !r.out.Ok? || IsSignal(r.out.obj) then r else BlockLoopF(f, b, 0, r.out.obj, env, r.heap)
    decreases |a| - i
  {
    if i < |a| {
      assert (a + b)[i] == a[i];
      var x := EvalStmtF(f, a[i], env, h);
      if x.out.Ok? && !IsSignal(x.out.obj) {
        BlockSequencing(f, a, b, i + 1, x.out.obj, env, x.heap);
      }
    } else {
      BlockSuffix(f, a, b, 0, last, env, h);
    }
  }

  /** The loop over `a + b` from position `|a| + j` is the loop over `b` from `j`. */
  lemma {:induction false} BlockSuffix(f: nat, a: seq<Stmt>, b: seq<Stmt>, j: nat, last: Option<Value>, env: nat, h: Heap)
    requires j <= |b| && HeapOk(h) && env < |h.frames| && ObjOk(last, |h.frames|)
    ensures BlockLoopF(f, a + b, |a| + j, last, env, h) == BlockLoopF(f, b, j, last, env, h)
    decreases |b| - j
  {
    if j < |b| {
      assert (a + b)[|a| + j] == b[j];
      var x := EvalStmtF(f, b[j], env, h);
      if x.out.Ok? && !IsSignal(x.out.obj) {
        BlockSuffix(f, a, b, j + 1, x.out.obj, env, x.heap);
      }
    }
  }

  // ----- whole runs -----

  /** A top-level `вернуть 10; 9;` ends the program with 10, unwrapped. */
  lemma ReturnEndsProgram()
    ensures var t := Token(Return, "вернуть");
            var n := Token(IntVal, "10");
            RunF(5, Program([ReturnStmt(t, IntegerLiteral(n, 10)), ExpressionStmt(n, IntegerLiteral(n, 9))])).out
              == Ok(Some(Integer(10)))
  {
  }

  /** `если (1) { 10 }`: only the TRUE object counts as true, so an Integer condition
      takes the missing alternative and the expression yields NULL. */
  lemma IntegerConditionIsNotTrue()
    ensures var t := Token(If, "если");
            var n := Token(IntVal, "1");
            var cons := Block(t, [ExpressionStmt(n, IntegerLiteral(n, 10))]);
            RunF(6, Program([ExpressionStmt(t, IfExpr(t, IntegerLiteral(n, 1), cons, None))])).out
              == Ok(Some(Null))
  {
  }

  /** Calling `функция(x) { x; }` with 5 binds 5 to `x` in a new frame and yields it. */
  lemma CallBindsArgument()
    ensures var t := Token(Function, "функция");
            var n := Token(IntVal, "5");
            var x := Identifier(Token(Ident, "x"), "x");
            var fn := FunctionLiteral(t, [x], Block(t, [ExpressionStmt(x.token, Id(x))]));
            RunF(10, Program([ExpressionStmt(t, CallExpr(t, fn, [IntegerLiteral(n, 5)]))])).out
              == Ok(Some(Integer(5)))
  {
  }

  /** Calling `функция(x) { x; }` with no argument indexes past the end of the
      argument list. */
  lemma MissingArgumentPanics()
    ensures var t := Token(Function, "функция");
            var x := Identifier(Token(Ident, "x"), "x");
            var fn := FunctionLiteral(t, [x], Block(t, [ExpressionStmt(x.token, Id(x))]));
            RunF(10, Program([ExpressionStmt(t, CallExpr(t, fn, []))])).out == Panic(IndexOutOfRange)
  {
  }
}
