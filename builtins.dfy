/** The builtin registry: one native function, `длина`, the length of a string. */
module Builtins {
  import opened Base
  import opened Objects

  /** The name the builtin is reachable by. */
  const LengthName: string := "длина"

  /** The registry: name to builtin object. */
  function LookupBuiltin(name: string): (r: Option<Value>)
    ensures r.Some? <==> name == LengthName
    ensures r.Some? ==> r.value == Builtin(Length)
  {
    if name == LengthName then Some(Builtin(Length)) else None
  }

  /** Calls a builtin's native function. */
  function CallBuiltin(fn: BuiltinFn, args: seq<Option<Value>>): Outcome
  {
    match fn
    case Length => StringLength(args)
  }

  /** `длина`: the number of code points of its one string argument. Any other argument
      count, or an argument of another type, is an Error value; a nil argument makes the
      type switch's default branch call Type() on nil. */
  function StringLength(args: seq<Option<Value>>): Outcome
  {
    if |args| != 1 then
      Ok(Some(Error("неверное количество аргументов " + NatToDecimal(|args|) + ", должен быть 1")))
    else if args[0].Some? && args[0].value.Str? then
      Ok(Some(Integer(Wrap(|args[0].value.strValue|))))
    else if args[0].None? then
      Panic(NilDereference)
    else
      Ok(Some(Error("не подходящий тип данных " + TypeName(args[0].value))))
  }

  /** `длина` as written: Go's len on a string, which counts UTF-8 bytes. */
  function StringLengthAsWritten(args: seq<Option<Value>>): Outcome
  {
    if |args| != 1 then
      Ok(Some(Error("неверное количество аргументов " + NatToDecimal(|args|) + ", должен быть 1")))
    else if args[0].Some? && args[0].value.Str? then
      Ok(Some(Integer(Wrap(Utf8Length(args[0].value.strValue)))))
    else if args[0].None? then
      Panic(NilDereference)
    else
      Ok(Some(Error("не подходящий тип данных " + TypeName(args[0].value))))
  }

  /** The builtin panics only on a nil argument; on objects it always yields an object. */
  lemma StringLengthTotalOnObjects(args: seq<Option<Value>>)
    ensures StringLength(args).Panic? <==> (|args| == 1 && args[0].None?)
    ensures !StringLength(args).Panic? ==> StringLength(args).Ok? && StringLength(args).obj.Some?
  {
  }

  /** It yields an Error exactly when it is not given one string, and an Integer otherwise. */
  lemma StringLengthErrors(args: seq<Option<Value>>)
    requires |args| != 1 || args[0].Some?
    ensures StringLength(args).Ok? && StringLength(args).obj.Some?
    ensures StringLength(args).obj.value.Error? <==> !(|args| == 1 && args[0].value.Str?)
    ensures StringLength(args).obj.value.Integer? <==> (|args| == 1 && args[0].value.Str?)
  {
  }

  /** For any string shorter than 2^63 the result is its number of code points, so never
      negative, and it grows by one with each appended code point. */
  lemma StringLengthCounts(s: string, c: char)
    requires |s| < MaxInt64
    ensures StringLength([Some(Str(s))]) == Ok(Some(Integer(|s|)))
    ensures StringLength([Some(Str(s + [c]))]).obj.value.intValue
         == StringLength([Some(Str(s))]).obj.value.intValue + 1
  {
  }

  /** The examples of the builtin's tests. */
  lemma StringLengthExamples()
    ensures StringLength([Some(Str(""))]) == Ok(Some(Integer(0)))
    ensures StringLength([Some(Str("four"))]) == Ok(Some(Integer(4)))
    ensures StringLength([Some(Str("йй"))]) == Ok(Some(Integer(2)))
    ensures StringLength([Some(Integer(1))]) == Ok(Some(Error("не подходящий тип данных INTEGER")))
    ensures StringLength([Some(Str("one")), Some(Str("two"))])
         == Ok(Some(Error("неверное количество аргументов 2, должен быть 1")))
  {
    assert NatToDecimal(2) == "2";
    assert "не подходящий тип данных " + TypeName(Integer(1)) == "не подходящий тип данных INTEGER";
    assert "неверное количество аргументов " + "2" + ", должен быть 1"
        == "неверное количество аргументов 2, должен быть 1";
  }

  /** As written, `длина("йй")` is 4, not the 2 its test expects: each of the two
      Cyrillic letters takes two bytes. */
  lemma StringLengthAsWrittenCountsBytes()
    ensures StringLengthAsWritten([Some(Str("йй"))]) == Ok(Some(Integer(4)))
    ensures StringLengthAsWritten([Some(Str("йй"))]) != StringLength([Some(Str("йй"))])
  {
    assert "йй"[..1] == "й";
    assert "й"[..0] == "";
  }

  /** The two definitions agree on every ASCII string and on every non-string call. */
  lemma StringLengthAgreesOnAscii(args: seq<Option<Value>>)
    requires |args| == 1 && args[0].Some? && args[0].value.Str? ==>
             forall i :: 0 <= i < |args[0].value.strValue| ==> (args[0].value.strValue[i] as int) < 0x80
    ensures StringLengthAsWritten(args) == StringLength(args)
  {
    if |args| == 1 && args[0].Some? && args[0].value.Str? {
      Utf8LengthBounds(args[0].value.strValue);
    }
  }
}
