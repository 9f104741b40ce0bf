/** Small helpers shared by every component: an optional value, joining of
    text pieces, decimal digits, fmt.Sprintf with `%s` verbs and the UTF-8 width of text. */
module Base {

  /** A value that may be absent; for the interpreter's objects, `None` is Go's nil. */
  datatype Option<+T> = None | Some(value: T)

  /** strings.Join: the pieces in order, with `sep` between neighbours. */
  function Join(parts: seq<string>, sep: string): string
  {
    if |parts| == 0 then ""
    else if |parts| == 1 then parts[0]
    else Join(parts[..|parts| - 1], sep) + sep + parts[|parts| - 1]
  }

  /** Writing the pieces one after the other into a buffer, with no separator. */
  function Concat(parts: seq<string>): string
  {
    if |parts| == 0 then "" else Concat(parts[..|parts| - 1]) + parts[|parts| - 1]
  }

  lemma JoinEmpty(sep: string)
    ensures Join([], sep) == ""
  {
  }

  lemma JoinSingle(x: string, sep: string)
    ensures Join([x], sep) == x
  {
  }

  /** Adding a piece at the end adds the separator and the piece, and nothing else. */
  lemma JoinSnoc(parts: seq<string>, x: string, sep: string)
    requires |parts| > 0
    ensures Join(parts + [x], sep) == Join(parts, sep) + sep + x
  {
    assert (parts + [x])[..|parts|] == parts;
  }

  /** A join is the first piece followed by a separator before every later piece. */
  lemma {:induction false} JoinCons(x: string, rest: seq<string>, sep: string)
    requires |rest| > 0
    ensures Join([x] + rest, sep) == x + sep + Join(rest, sep)
    decreases |rest|
  {
    if |rest| == 1 {
      assert ([x] + rest)[..1] == [x];
    } else {
      var init := rest[..|rest| - 1];
      var last := rest[|rest| - 1];
      assert [x] + rest == ([x] + init) + [last];
      assert rest == init + [last];
      JoinCons(x, init, sep);
      JoinSnoc([x] + init, last, sep);
      JoinSnoc(init, last, sep);
    }
  }

  /** The joined text is exactly as long as the pieces plus one separator between each pair. */
  lemma {:induction false} JoinLength(parts: seq<string>, sep: string)
    requires |parts| > 0
    ensures |Join(parts, sep)| == TotalLength(parts) + (|parts| - 1) * |sep|
    decreases |parts|
  {
    if |parts| > 1 {
      JoinLength(parts[..|parts| - 1], sep);
      assert parts[..|parts| - 1] + [parts[|parts| - 1]] == parts;
      TotalLengthSnoc(parts[..|parts| - 1], parts[|parts| - 1]);
    }
  }

  function TotalLength(parts: seq<string>): nat
  {
    if |parts| == 0 then 0 else TotalLength(parts[..|parts| - 1]) + |parts[|parts| - 1]|
  }

  lemma TotalLengthSnoc(parts: seq<string>, x: string)
    ensures TotalLength(parts + [x]) == TotalLength(parts) + |x|
  {
    assert (parts + [x])[..|parts|] == parts;
  }

  /** Concatenating appends every piece in order: the text of one more piece follows the rest. */
  lemma ConcatSnoc(parts: seq<string>, x: string)
    ensures Concat(parts + [x]) == Concat(parts) + x
  {
    assert (parts + [x])[..|parts|] == parts;
  }

  /** Concatenation distributes over splitting the piece list, so order is preserved. */
  lemma {:induction false} ConcatAppend(a: seq<string>, b: seq<string>)
    ensures Concat(a + b) == Concat(a) + Concat(b)
    decreases |b|
  {
    if |b| == 0 {
      assert a + b == a;
    } else {
      var init := b[..|b| - 1];
      assert a + b == (a + init) + [b[|b| - 1]];
      assert b == init + [b[|b| - 1]];
      ConcatAppend(a, init);
      ConcatSnoc(a + init, b[|b| - 1]);
      ConcatSnoc(init, b[|b| - 1]);
    }
  }

  /** Concatenation regroups freely; stated on variables, so no literal text is taken
      apart to prove it. */
  lemma Regroup(p: string, a: string, c: string, j: string, q: string)
    ensures p + (a + c + j) + q == p + a + c + j + q
  {
  }

  lemma Regroup3(a: string, b: string, c: string)
    ensures (a + b) + (c + "") == a + (b + c)
  {
  }

  // ----- decimal text -----

  predicate IsAsciiDigit(c: char)
  {
    '0' <= c <= '9'
  }

  function DigitChar(d: nat): (c: char)
    requires d < 10
    ensures IsAsciiDigit(c) && (c as int) - ('0' as int) == d
  {
    (('0' as int) + d) as char
  }

  /** Decimal text of a natural number, most significant digit first, no leading zeros. */
  function NatToDecimal(n: nat): (s: string)
    ensures |s| > 0
    ensures forall i :: 0 <= i < |s| ==> IsAsciiDigit(s[i])
    decreases n
  {
    if n < 10 then [DigitChar(n)] else NatToDecimal(n / 10) + [DigitChar(n % 10)]
  }

  /** fmt's %d: a minus sign before the magnitude of a negative number. */
  function IntToDecimal(i: int): (s: string)
    ensures |s| > 0
    ensures (s[0] == '-') <==> i < 0
  {
    if i < 0 then "-" + NatToDecimal(-i) else NatToDecimal(i)
  }

  /** The value of a run of ASCII digits read in the given base. */
  function DigitsValue(s: string, base: nat): nat
    requires forall i :: 0 <= i < |s| ==> IsAsciiDigit(s[i])
  {
    if |s| == 0 then 0
    else
      assert IsAsciiDigit(s[|s| - 1]);
      DigitsValue(s[..|s| - 1], base) * base + ((s[|s| - 1] as int) - ('0' as int))
  }

  /** Reading back the decimal text of `n` gives `n`. */
  lemma {:induction false} DecimalRoundTrip(n: nat)
    ensures DigitsValue(NatToDecimal(n), 10) == n
    decreases n
  {
    if n >= 10 {
      var s := NatToDecimal(n);
      DecimalRoundTrip(n / 10);
      assert s[..|s| - 1] == NatToDecimal(n / 10);
    }
  }

  // ----- fmt.Sprintf -----

  /** fmt.Sprintf for a format whose only verb is `%s`: each `%s` takes the next
      argument in order, and one with no argument left renders as `%!s(MISSING)`, as
      Go's does. Every format of the interpreter has as many verbs as arguments, so
      Go's `%!(EXTRA …)` report of surplus arguments is not modelled. */
  function Sprintf(format: string, args: seq<string>): string
    decreases |format|
  {
    if |format| == 0 then ""
    else if 2 <= |format| && format[0] == '%' && format[1] == 's' then
      if |args| > 0 then args[0] + Sprintf(format[2..], args[1..])
      else "%!s(MISSING)" + Sprintf(format[2..], args)
    else [format[0]] + Sprintf(format[1..], args)
  }

  /** Text without a `%` is copied as it is. */
  lemma {:induction false} SprintfText(text: string, rest: string, args: seq<string>)
    requires '%' !in text
    ensures Sprintf(text + rest, args) == text + Sprintf(rest, args)
    decreases |text|
  {
    if |text| > 0 {
      var f := text + rest;
      assert f[0] == text[0] && text[0] in text;
      assert f[1..] == text[1..] + rest;
      assert Sprintf(f, args) == [text[0]] + Sprintf(f[1..], args);
      SprintfText(text[1..], rest, args);
      assert text == [text[0]] + text[1..];
    } else {
      assert text + rest == rest;
    }
  }

  /** A `%s` takes the next argument. */
  lemma SprintfVerb(rest: string, x: string, args: seq<string>)
    ensures Sprintf("%s" + rest, [x] + args) == x + Sprintf(rest, args)
  {
    assert ("%s" + rest)[2..] == rest;
    assert ([x] + args)[1..] == args;
  }

  /** A format with one verb between two runs of text. */
  lemma Sprintf1(w0: string, a: string, w1: string)
    requires '%' !in w0 && '%' !in w1
    ensures Sprintf(w0 + ("%s" + w1), [a]) == w0 + (a + w1)
  {
    SprintfText(w0, "%s" + w1, [a]);
    SprintfVerb(w1, a, []);
    assert [a] + [] == [a];
    SprintfText(w1, "", []);
    assert w1 + "" == w1;
  }

  /** A format with two verbs. */
  lemma Sprintf2(w0: string, a: string, w1: string, b: string, w2: string)
    requires '%' !in w0 && '%' !in w1 && '%' !in w2
    ensures Sprintf(w0 + ("%s" + (w1 + ("%s" + w2))), [a, b]) == w0 + (a + (w1 + (b + w2)))
  {
    SprintfText(w0, "%s" + (w1 + ("%s" + w2)), [a, b]);
    assert [a, b] == [a] + [b];
    SprintfVerb(w1 + ("%s" + w2), a, [b]);
    Sprintf1(w1, b, w2);
  }

  /** A format with three verbs. */
  lemma Sprintf3(w0: string, a: string, w1: string, b: string, w2: string, c: string, w3: string)
    requires '%' !in w0 && '%' !in w1 && '%' !in w2 && '%' !in w3
    ensures Sprintf(w0 + ("%s" + (w1 + ("%s" + (w2 + ("%s" + w3))))), [a, b, c])
         == w0 + (a + (w1 + (b + (w2 + (c + w3)))))
  {
    SprintfText(w0, "%s" + (w1 + ("%s" + (w2 + ("%s" + w3)))), [a, b, c]);
    assert [a, b, c] == [a] + [b, c];
    SprintfVerb(w1 + ("%s" + (w2 + ("%s" + w3))), a, [b, c]);
    Sprintf2(w1, b, w2, c, w3);
  }

  // ----- UTF-8 width -----

  /** Bytes that UTF-8 needs for one code point. */
  function Utf8Width(c: char): (w: nat)
    ensures 1 <= w <= 4
  {
    if (c as int) < 0x80 then 1
    else if (c as int) < 0x800 then 2
    else if (c as int) < 0x10000 then 3
    else 4
  }

  /** Go's len on a string: its length in UTF-8 bytes. */
  function Utf8Length(s: string): (n: nat)
    ensures |s| <= n <= 4 * |s|
  {
    if |s| == 0 then 0 else Utf8Length(s[..|s| - 1]) + Utf8Width(s[|s| - 1])
  }

  /** Text is never shorter in bytes than in code points, and the two agree exactly on ASCII text. */
  lemma {:induction false} Utf8LengthBounds(s: string)
    ensures |s| <= Utf8Length(s) <= 4 * |s|
    ensures (forall i :: 0 <= i < |s| ==> (s[i] as int) < 0x80) <==> Utf8Length(s) == |s|
    decreases |s|
  {
    if |s| > 0 {
      var init := s[..|s| - 1];
      Utf8LengthBounds(init);
      if forall i :: 0 <= i < |s| ==> (s[i] as int) < 0x80 {
        assert forall i :: 0 <= i < |init| ==> init[i] == s[i];
      } else {
        var k :| 0 <= k < |s| && (s[k] as int) >= 0x80;
        if k < |s| - 1 {
          assert init[k] == s[k];
        }
      }
    }
  }
}
