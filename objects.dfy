/** Runtime values: a closed set of variants, Go's int64 arithmetic, the type tag of
    each value and the text each value displays as. */
module Objects {
  import opened Base
  import opened Ast

  // ----- Go int64 -----

  const MinInt64: int := -0x8000_0000_0000_0000
  const MaxInt64: int := 0x7FFF_FFFF_FFFF_FFFF
  const TwoTo64: int := 0x1_0000_0000_0000_0000

  type Int64 = x: int | MinInt64 <= x <= MaxInt64

  /** Two's-complement wrap-around: the int64 congruent to `x` modulo 2^64. */
  function Wrap(x: int): (r: Int64)
    ensures (r - x) % TwoTo64 == 0
    ensures MinInt64 <= x <= MaxInt64 ==> r == x
  {
    var m := (x - MinInt64) % TwoTo64;
    assert (m + MinInt64 - x) % TwoTo64 == 0;
    m + MinInt64
  }

  /** Go's `/` on integers: the quotient truncated toward zero. */
  function TruncDiv(a: int, b: int): (q: int)
    requires b != 0
  {
    if (a >= 0) == (b > 0) then Abs(a) / Abs(b) else -(Abs(a) / Abs(b))
  }

  function Abs(x: int): nat
  {
    if x < 0 then -x else x
  }

  /** Truncated division leaves a remainder smaller than the divisor that takes the
      sign of the dividend (or is zero), which characterises it among all quotients. */
  lemma TruncDivRemainder(a: int, b: int)
    requires b != 0
    ensures var r := a - TruncDiv(a, b) * b;
            Abs(r) < Abs(b) && (r == 0 || (r < 0) == (a < 0))
  {
    var q0 := Abs(a) / Abs(b);
    var r0 := Abs(a) % Abs(b);
    assert Abs(a) == q0 * Abs(b) + r0;
    if a >= 0 && b > 0 {
      assert a - TruncDiv(a, b) * b == r0;
    } else if a >= 0 {
      assert Abs(b) == -b;
      assert TruncDiv(a, b) * b == q0 * Abs(b);
      assert a - TruncDiv(a, b) * b == r0;
    } else if b > 0 {
      assert TruncDiv(a, b) * b == -(q0 * Abs(b));
      assert a - TruncDiv(a, b) * b == -r0;
    } else {
      assert Abs(b) == -b;
      assert TruncDiv(a, b) * b == -(q0 * Abs(b));
      assert a - TruncDiv(a, b) * b == -r0;
    }
  }

  /** Truncation differs from Dafny's Euclidean division on a negative dividend:
      -7 / 2 is -3 in Go. */
  lemma TruncDivExamples()
    ensures TruncDiv(-7, 2) == -3 && -7 / 2 == -4
    ensures TruncDiv(7, -2) == -3
    ensures TruncDiv(-7, -2) == 3
  {
  }

  /** The one overflowing quotient, MinInt64 / -1, wraps back to MinInt64. */
  lemma MinInt64DivMinusOne()
    ensures Wrap(TruncDiv(MinInt64, -1)) == MinInt64
  {
  }

  // ----- values -----

  /** An object of the interpreter. Closures and return signals are heap objects whose
      identity matters to `==`; each carries the allocation number it was created with. */
  datatype Value =
    | Integer(intValue: Int64)
    | Str(strValue: string)
    | Boolean(boolValue: bool)
    | Null
    | Array(elements: seq<Value>)
    | Closure(params: seq<Identifier>, body: Block, env: nat, id: nat)
    | Builtin(fn: BuiltinFn)
    | ReturnValue(inner: Option<Value>, id: nat)
    | Error(message: string)

  /** The native functions of the builtin registry. */
  datatype BuiltinFn = Length

  /** What running a piece of code comes to: an object (Go's nil when None), a Go runtime
      panic, or running out of the step budget that stands in for non-termination. */
  datatype Outcome = Ok(obj: Option<Value>) | Panic(reason: PanicReason) | Exhausted

  /** The Go runtime errors a run can end in. */
  datatype PanicReason = NilDereference | DivideByZero | IndexOutOfRange

  /** The shared TRUE and FALSE objects. */
  function NativeBool(b: bool): (v: Value)
    ensures v.Boolean? && v.boolValue == b
  {
    Boolean(b)
  }

  /** The type tag of a value. */
  function TypeName(v: Value): string
  {
    match v
    case Integer(_) => "INTEGER"
    case Str(_) => "STRING"
    case Boolean(_) => "BOOLEAN"
    case Null => "NULL"
    case Array(_) => "ARRAY"
    case Closure(_, _, _, _) => "FUNCTION"
    case Builtin(_) => "BUILTIN"
    case ReturnValue(_, _) => "RETURN_VALUE"
    case Error(_) => "ERROR"
  }

  predicate SameVariant(a: Value, b: Value)
  {
    (a.Integer? && b.Integer?) || (a.Str? && b.Str?) || (a.Boolean? && b.Boolean?)
    || (a.Null? && b.Null?) || (a.Array? && b.Array?) || (a.Closure? && b.Closure?)
    || (a.Builtin? && b.Builtin?) || (a.ReturnValue? && b.ReturnValue?) || (a.Error? && b.Error?)
  }

  /** Type tags tell the variants apart: two values share a tag exactly when they are
      of the same variant, so comparing tags is comparing variants. */
  lemma TypeNameIdentifiesVariant(a: Value, b: Value)
    ensures TypeName(a) == TypeName(b) <==> SameVariant(a, b)
  {
  }

  /** Go's `==` on two interface values holding objects: the same object. Booleans and
      NULL are shared singletons and builtins live once in the registry, so for them the
      same object is the same value; closures and return signals differ by allocation. */
  predicate SameObject(a: Value, b: Option<Value>)
    ensures SameObject(a, b) ==> b.Some? && TypeName(b.value) == TypeName(a)
  {
    b == Some(a)
  }

  /** Two closures built by separate evaluations of the same literal are different objects. */
  lemma DistinctAllocations(ps: seq<Identifier>, body: Block, env: nat, i: nat, j: nat)
    requires i != j
    ensures !SameObject(Closure(ps, body, env, i), Some(Closure(ps, body, env, j)))
  {
  }

  // ----- Inspect -----

  /** A value Inspect can render without following a nil: a return signal must wrap a
      value, at any depth. */
  predicate Inspectable(v: Value)
  {
    match v
    case ReturnValue(inner, _) => inner.Some? && Inspectable(inner.value)
    case Array(es) => forall i :: 0 <= i < |es| ==> Inspectable(es[i])
    case _ => true
  }

  /** The display text of a value. The integer, string and error renderings have no
      source file in the model and are assumed: decimal text, the text, the message. */
  function Inspect(v: Value): string
    requires Inspectable(v)
  {
    match v
    case Integer(i) => IntToDecimal(i)
    case Str(s) => s
    case Boolean(b) => if b then "истина" else "ложь"
    case Null => ""
    case Array(es) => "[" + Join(InspectAll(es), ", ") + "]"
    case Closure(ps, body, _, _) =>
      "функция" + "(" + Join(ParamStrings(ps), ", ") + ") {\n" + BlockString(body) + "\n}"
    case Builtin(_) => "встроенная функция"
    case ReturnValue(inner, _) => Inspect(inner.value)
    case Error(msg) => msg
  }

  function InspectAll(es: seq<Value>): (r: seq<string>)
    requires forall i :: 0 <= i < |es| ==> Inspectable(es[i])
    ensures |r| == |es| && forall i :: 0 <= i < |es| ==> r[i] == Inspect(es[i])
    decreases es, 0
  {
    if |es| == 0 then [] else InspectAll(es[..|es| - 1]) + [Inspect(es[|es| - 1])]
  }

  /** An empty array displays as "[]". */
  lemma ArrayInspectEmpty()
    ensures Inspect(Array([])) == "[]"
  {
  }

  /** Array elements display in stored order: the first right after "[", then ", " and
      the rest. */
  lemma ArrayInspectOrder(x: Value, rest: seq<Value>)
    requires Inspectable(x) && |rest| > 0
    requires forall i :: 0 <= i < |rest| ==> Inspectable(rest[i])
    ensures Inspectable(Array([x] + rest))
    ensures Inspect(Array([x] + rest)) == "[" + Inspect(x) + ", " + Join(InspectAll(rest), ", ") + "]"
  {
    var a, r := Inspect(x), InspectAll(rest);
    var j := Join(r, ", ");
    InspectAllCons(x, rest);
    InspectArray([x] + rest);
    JoinCons(a, r, ", ");
    Regroup("[", a, ", ", j, "]");
  }

  lemma InspectArray(es: seq<Value>)
    requires forall i :: 0 <= i < |es| ==> Inspectable(es[i])
    ensures Inspectable(Array(es)) && Inspect(Array(es)) == "[" + Join(InspectAll(es), ", ") + "]"
  {
  }

  lemma InspectAllCons(x: Value, rest: seq<Value>)
    requires Inspectable(x)
    requires forall i :: 0 <= i < |rest| ==> Inspectable(rest[i])
    ensures forall i :: 0 <= i < |[x] + rest| ==> Inspectable(([x] + rest)[i])
    ensures InspectAll([x] + rest) == [Inspect(x)] + InspectAll(rest)
  {
    var es := [x] + rest;
    assert forall i :: 0 <= i < |es| ==> Inspectable(es[i]) by {
      forall i | 0 <= i < |es| ensures Inspectable(es[i]) {
        if i > 0 { assert es[i] == rest[i - 1]; }
      }
    }
    var all := InspectAll(es);
    forall i | 0 <= i < |es| ensures all[i] == ([Inspect(x)] + InspectAll(rest))[i] {
      if i > 0 { assert es[i] == rest[i - 1]; }
    }
  }

  /** A one-element array displays as its element in brackets. */
  lemma ArrayInspectSingle(x: Value)
    requires Inspectable(x)
    ensures Inspectable(Array([x])) && Inspect(Array([x])) == "[" + Inspect(x) + "]"
  {
    assert InspectAll([x]) == [Inspect(x)];
  }

  /** A closure without parameters displays as `функция() {`, a line break, its body and
      a closing brace on its own line. */
  lemma ClosureInspectNoParams(body: Block, env: nat, id: nat)
    ensures Inspect(Closure([], body, env, id)) == "функция() {\n" + BlockString(body) + "\n}"
  {
    assert ParamStrings([]) == [];
  }

  /** Parameters display in declaration order, separated by ", ". */
  lemma ClosureInspectParamOrder(x: Identifier, rest: seq<Identifier>, body: Block, env: nat, id: nat)
    requires |rest| > 0
    ensures Inspect(Closure([x] + rest, body, env, id))
         == "функция(" + x.value + ", " + Join(ParamStrings(rest), ", ") + ") {\n" + BlockString(body) + "\n}"
  {
    assert ParamStrings([x] + rest) == [x.value] + ParamStrings(rest);
    JoinCons(x.value, ParamStrings(rest), ", ");
  }

  /** A closure's display depends neither on its captured environment nor on its identity. */
  lemma ClosureInspectIgnoresEnv(ps: seq<Identifier>, body: Block, e1: nat, e2: nat, i1: nat, i2: nat)
    ensures Inspect(Closure(ps, body, e1, i1)) == Inspect(Closure(ps, body, e2, i2))
  {
  }

  /** A return signal displays as the value it carries. */
  lemma ReturnValueInspect(x: Value, id: nat)
    requires Inspectable(x)
    ensures Inspectable(ReturnValue(Some(x), id)) && Inspect(ReturnValue(Some(x), id)) == Inspect(x)
  {
  }

  /** Booleans display as the two keywords, and the two differ. */
  lemma BooleanInspect()
    ensures Inspect(Boolean(true)) == "истина" && Inspect(Boolean(false)) == "ложь"
    ensures Inspect(Boolean(true)) != Inspect(Boolean(false))
  {
  }
}
