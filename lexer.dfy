/** The lexer: a cursor over the code points of the source text that hands out one
    token per call. `Scan` states, as a function of the cursor position, what one
    call of NextToken yields; the class `Lexer` is the cursor itself, and its
    methods are proved to do what `Scan` says. */
module Lexing {
  import opened Base
  import opened Tokens

  // ----- character classes -----

  /** unicode.Is(Cyrillic) || unicode.Is(Latin), on the script ranges of the
      Basic Multilingual Plane listed below. */
  predicate IsLetter(c: char)
    ensures (c as int) < 0x80 ==> (IsLetter(c) <==> 'a' <= c <= 'z' || 'A' <= c <= 'Z')
    ensures ('а' <= c <= 'я' || 'А' <= c <= 'Я' || c == 'ё' || c == 'Ё') ==> IsLetter(c)
  {
    var n := c as int;
    // Latin
    (0x41 <= n <= 0x5A) || (0x61 <= n <= 0x7A) || n == 0xAA || n == 0xBA
    || (0xC0 <= n <= 0xD6) || (0xD8 <= n <= 0xF6) || (0xF8 <= n <= 0x2B8)
    || (0x1E00 <= n <= 0x1EFF) || (0xFF21 <= n <= 0xFF3A) || (0xFF41 <= n <= 0xFF5A)
    // Cyrillic
    || (0x400 <= n <= 0x484) || (0x487 <= n <= 0x52F) || (0x1C80 <= n <= 0x1C88)
    || n == 0x1D2B || n == 0x1D78 || (0x2DE0 <= n <= 0x2DFF) || (0xA640 <= n <= 0xA69F)
    || (0xFE2E <= n <= 0xFE2F)
  }

  /** unicode.IsDigit, on the decimal-digit ranges listed below. */
  predicate IsDigit(c: char)
    ensures (c as int) < 0x80 ==> (IsDigit(c) <==> '0' <= c <= '9')
  {
    var n := c as int;
    (0x30 <= n <= 0x39) || (0x660 <= n <= 0x669) || (0x6F0 <= n <= 0x6F9)
    || (0x966 <= n <= 0x96F) || (0xFF10 <= n <= 0xFF19)
  }

  /** The four characters skipWhitespace passes over: space and three ASCII controls. */
  predicate IsWhitespace(c: char)
    ensures IsWhitespace(c) ==> (c as int) <= 0x20 && !IsLetter(c) && !IsDigit(c)
  {
    c == ' ' || c == '\t' || c == '\r' || c == '\n'
  }

  /** Letters, digits and whitespace are disjoint, and none of them is an operator,
      a delimiter, the quote or NUL. */
  lemma ClassesDisjoint(c: char)
    ensures !(IsLetter(c) && IsDigit(c))
    ensures IsWhitespace(c) ==> !IsLetter(c) && !IsDigit(c)
    ensures c in ":!=;,(){}+-*/><\"[]\0" ==> !IsLetter(c) && !IsDigit(c) && !IsWhitespace(c)
  {
  }

  /** The code point under a cursor: the input's, or 0 past its end. */
  function At(input: seq<char>, i: nat): (c: char)
    ensures i < |input| ==> c == input[i]
    ensures i >= |input| ==> c == '\0'
  {
    if i < |input| then input[i] else '\0'
  }

  /** peekRune: the low 8 bits of the code point after the cursor (Go's byte
      conversion truncates), or 0 past the end. */
  function PeekByte(input: seq<char>, p: nat): (b: int)
    ensures 0 <= b < 256
  {
    if p + 1 < |input| then (input[p + 1] as int) % 256 else 0
  }

  // ----- the cursor movements, as functions of the position -----

  /** skipWhitespace: the first position at or after `p` that is not whitespace. */
  function SkipWs(input: seq<char>, p: nat): (q: nat)
    ensures p <= q && !IsWhitespace(At(input, q))
    ensures forall i :: p <= i < q ==> IsWhitespace(At(input, i))
    ensures p <= |input| ==> q <= |input|
    ensures p >= |input| ==> q == p
    decreases |input| - p
  {
    if IsWhitespace(At(input, p)) then SkipWs(input, p + 1) else p
  }

  /** readIdentifier: where the run of letters starting at `p` ends. */
  function LetterRunEnd(input: seq<char>, p: nat): (q: nat)
    ensures p <= q && !IsLetter(At(input, q))
    ensures forall i :: p <= i < q ==> IsLetter(At(input, i))
    ensures p < q ==> q <= |input|
    decreases |input| - p
  {
    if IsLetter(At(input, p)) then LetterRunEnd(input, p + 1) else p
  }

  /** readDigit: where the run of digits starting at `p` ends. */
  function DigitRunEnd(input: seq<char>, p: nat): (q: nat)
    ensures p <= q && !IsDigit(At(input, q))
    ensures forall i :: p <= i < q ==> IsDigit(At(input, i))
    ensures p < q ==> q <= |input|
    decreases |input| - p
  {
    if IsDigit(At(input, p)) then DigitRunEnd(input, p + 1) else p
  }

  /** readString's stop: the first position at or after `i` holding a quote or a
      0 (the end of input reads as 0). */
  function StringClose(input: seq<char>, i: nat): (q: nat)
    ensures i <= q && (At(input, q) == '"' || At(input, q) == '\0')
    ensures forall k :: i <= k < q ==> At(input, k) != '"' && At(input, k) != '\0'
    ensures i <= |input| ==> q <= |input|
    decreases |input| - i
  {
    if At(input, i) == '"' || At(input, i) == '\0' then i else StringClose(input, i + 1)
  }

  /** What one NextToken call yields from cursor position `p`, and the position
      after it: whitespace is skipped, then one token is read. */
  function Scan(input: seq<char>, p: nat): (Token, nat)
  {
    ReadToken(input, SkipWs(input, p))
  }

  /** The token that starts at position `s`, and the position after it. */
  function ReadToken(input: seq<char>, s: nat): (Token, nat)
  {
    var c := At(input, s);
    match c
    case ':' => (New(Colon, c), s + 1)
    case '!' =>
      if PeekByte(input, s) == '=' as int then (Token(Neq, [c, At(input, s + 1)]), s + 2)
      else (New(Bang, c), s + 1)
    case '=' =>
      if PeekByte(input, s) == '=' as int then (Token(Equals, [c, At(input, s + 1)]), s + 2)
      else (New(Assign, c), s + 1)
    case ';' => (New(Semicolon, c), s + 1)
    case ',' => (New(Comma, c), s + 1)
    case '(' => (New(LParen, c), s + 1)
    case ')' => (New(RParen, c), s + 1)
    case '{' => (New(LBrace, c), s + 1)
    case '}' => (New(RBrace, c), s + 1)
    case '+' => (New(Plus, c), s + 1)
    case '-' => (New(Minus, c), s + 1)
    case '*' => (New(Asterisk, c), s + 1)
    case '/' => (New(Slash, c), s + 1)
    case '>' =>
      if PeekByte(input, s) == '=' as int then (Token(Egt, [c, At(input, s + 1)]), s + 2)
      else (New(Gt, c), s + 1)
    case '<' =>
      if PeekByte(input, s) == '=' as int then (Token(Elt, [c, At(input, s + 1)]), s + 2)
      else (New(Lt, c), s + 1)
    case '"' =>
      var q := StringClose(input, s + 1);
      (Token(StringVal, input[s + 1..q]), q + 1)
    case '\0' => (Token(Eof, ""), s + 1)
    case '[' => (New(LBracket, '['), s + 1)
    case ']' => (New(RBracket, ']'), s + 1)
    case _ =>
      if IsLetter(c) then
        var e := LetterRunEnd(input, s);
        (Token(LookupIdent(input[s..e]), input[s..e]), e)
      else if IsDigit(c) then
        var e := DigitRunEnd(input, s);
        (Token(IntVal, input[s..e]), e)
      else (New(Illegal, c), s + 1)
  }


  // ----- what one call yields -----

  /** Space, tab, CR and LF before a token produce no token: scanning from a
      whitespace position is scanning from the next one. */
  lemma WhitespaceYieldsNothing(input: seq<char>, p: nat)
    requires IsWhitespace(At(input, p))
    ensures Scan(input, p) == Scan(input, p + 1)
  {
  }

  /** The first code point of a two-character operator, and the kinds it yields
      with and without a following `=`. */
  function OperatorKinds(c: char): (ks: Option<(Kind, Kind)>)
  {
    match c
    case '=' => Some((Equals, Assign))
    case '!' => Some((Neq, Bang))
    case '>' => Some((Egt, Gt))
    case '<' => Some((Elt, Lt))
    case _ => None
  }

  /** `=`, `!`, `>` or `<` followed by `=` is one two-character token whose literal
      is both code points; otherwise it is the one-character token. */
  lemma {:induction false} TwoCharOperators(input: seq<char>, s: nat)
    requires OperatorKinds(At(input, s)).Some?
    ensures var (pair, c) := (OperatorKinds(At(input, s)).value, At(input, s));
      if s + 1 < |input| && input[s + 1] == '=' then
        ReadToken(input, s) == (Token(pair.0, [c, '=']), s + 2)
      else if s + 1 < |input| && (input[s + 1] as int) % 256 == '=' as int then
        ReadToken(input, s) == (Token(pair.0, [c, input[s + 1]]), s + 2)
      else
        ReadToken(input, s) == (Token(pair.1, [c]), s + 1)
  {
    var c := At(input, s);
    assert c == '=' || c == '!' || c == '>' || c == '<';
  }

  /** The lookahead sees only the low byte of the next code point: U+013D after `=`
      makes a two-character EQUALS token. */
  lemma LookaheadTruncates()
    ensures ReadToken("=\U{13D}", 0) == (Token(Equals, "=\U{13D}"), 2)
  {
    assert PeekByte("=\U{13D}", 0) == '=' as int;
  }

  /** A string token's literal is the code points strictly between the opening quote
      and the next quote, or up to the end of input when there is none; it never holds
      a quote or a NUL, and the cursor ends just past the closing quote. */
  lemma {:induction false} StringLiterals(input: seq<char>, s: nat)
    requires At(input, s) == '"'
    ensures var (t, q) := ReadToken(input, s);
      && t.kind == StringVal
      && s < q - 1 <= |input|
      && t.literal == input[s + 1..q - 1]
      && (q - 1 == |input| || input[q - 1] == '"' || input[q - 1] == '\0')
      && (forall i :: 0 <= i < |t.literal| ==> t.literal[i] != '"' && t.literal[i] != '\0')
      && ((forall i :: s < i < |input| ==> input[i] != '"' && input[i] != '\0') ==> t.literal == input[s + 1..])
  {
    var q := StringClose(input, s + 1);
    var lit := input[s + 1..q];
    forall i | 0 <= i < |lit|
      ensures lit[i] != '"' && lit[i] != '\0'
    {
      assert lit[i] == At(input, s + 1 + i);
    }
    if forall i :: s < i < |input| ==> input[i] != '"' && input[i] != '\0' {
      if q < |input| {
        assert false;
      }
    }
  }

  /** A letter run is read whole: every code point of the literal is a letter (so no
      digit), the code point after it is not, and the kind is the keyword's or IDENT. */
  lemma {:induction false} IdentifiersAreMaximal(input: seq<char>, s: nat)
    requires IsLetter(At(input, s))
    ensures var (t, e) := ReadToken(input, s);
      && s < e <= |input| && t.literal == input[s..e]
      && t.kind == LookupIdent(t.literal)
      && (forall i :: 0 <= i < |t.literal| ==> IsLetter(t.literal[i]) && !IsDigit(t.literal[i]))
      && !IsLetter(At(input, e))
  {
    var c := At(input, s);
    ClassesDisjoint(c);
    assert !(c in ":!=;,(){}+-*/><\"[]\0");
    var e := LetterRunEnd(input, s);
    assert LetterRunEnd(input, s) == LetterRunEnd(input, s + 1);
    forall i | 0 <= i < e - s
      ensures IsLetter(input[s..e][i]) && !IsDigit(input[s..e][i])
    {
      assert input[s..e][i] == At(input, s + i);
      ClassesDisjoint(At(input, s + i));
    }
  }

  /** A digit run is read whole and yields INT_VAL with exactly that text. */
  lemma {:induction false} DigitRunsAreMaximal(input: seq<char>, s: nat)
    requires IsDigit(At(input, s))
    ensures var (t, e) := ReadToken(input, s);
      && s < e <= |input| && t == Token(IntVal, input[s..e])
      && (forall i :: 0 <= i < |t.literal| ==> IsDigit(t.literal[i]))
      && !IsDigit(At(input, e))
  {
    var c := At(input, s);
    ClassesDisjoint(c);
    assert !(c in ":!=;,(){}+-*/><\"[]\0");
    var e := DigitRunEnd(input, s);
    assert DigitRunEnd(input, s) == DigitRunEnd(input, s + 1);
    forall i | 0 <= i < e - s
      ensures IsDigit(input[s..e][i])
    {
      assert input[s..e][i] == At(input, s + i);
    }
  }

  /** Any other code point is one ILLEGAL token carrying it, and the cursor still
      moves on by one. */
  lemma IllegalCodePoints(input: seq<char>, s: nat)
    requires var c := At(input, s); !(c in ":!=;,(){}+-*/><\"[]\0") && !IsLetter(c) && !IsDigit(c)
    ensures ReadToken(input, s) == (Token(Illegal, [At(input, s)]), s + 1)
  {
  }

  /** At the end of input, and at a NUL code point, every call yields EOF with an
      empty literal. */
  lemma EndOfInput(input: seq<char>, p: nat)
    ensures p >= |input| ==> Scan(input, p) == (Token(Eof, ""), p + 1)
    ensures At(input, SkipWs(input, p)) == '\0' ==> Scan(input, p) == (Token(Eof, ""), SkipWs(input, p) + 1)
  {
  }

  /** Every call moves the cursor forward; a call that starts inside the input ends
      at most one past its end. */
  lemma {:induction false} ReadTokenProgress(input: seq<char>, s: nat)
    ensures ReadToken(input, s).1 > s
    ensures s < |input| ==> ReadToken(input, s).1 <= |input| + 1
  {
    var c := At(input, s);
    if IsLetter(c) && !(c in ":!=;,(){}+-*/><\"[]\0") {
      assert LetterRunEnd(input, s) == LetterRunEnd(input, s + 1);
    } else if IsDigit(c) && !(c in ":!=;,(){}+-*/><\"[]\0") {
      assert DigitRunEnd(input, s) == DigitRunEnd(input, s + 1);
    }
  }

  // ----- the whole stream -----

  /** The tokens successive NextToken calls yield from cursor position `p`, up to and
      including the EOF produced at the end of the input (a NUL code point inside the
      input yields an EOF too, and the stream goes on after it). */
  function TokenStream(input: seq<char>, p: nat): (toks: seq<Token>)
    requires p <= |input| + 1
    ensures |toks| > 0 && toks[|toks| - 1] == Token(Eof, "")
    decreases |input| + 2 - p
  {
    var s := SkipWs(input, p);
    var (t, q) := ReadToken(input, s);
    if s >= |input| then [t]
    else
      ReadTokenProgress(input, s);
      [t] + TokenStream(input, q)
  }

  /** One step of the stream: a token that is not the EOF at the end of the input is
      followed by the rest of the stream; that EOF ends it, past the end of the input. */
  lemma {:induction false} StreamStep(input: seq<char>, p: nat, t: Token, q: nat)
    requires p <= |input| + 1 && (t, q) == Scan(input, p)
    ensures t.kind == Eof && q > |input| ==> TokenStream(input, p) == [t]
    ensures !(t.kind == Eof && q > |input|) ==> q <= |input| + 1 && TokenStream(input, p) == [t] + TokenStream(input, q)
  {
    var s := SkipWs(input, p);
    ReadTokenProgress(input, s);
    if s < |input| && At(input, s) == '\0' {
      assert ReadToken(input, s).1 == s + 1;
    }
  }

  /** The cursor positions the stream passes through: where each token's scan starts,
      then the position after the last token. */
  ghost function StreamPositions(input: seq<char>, p: nat): (ps: seq<nat>)
    requires p <= |input| + 1
    ensures |ps| == |TokenStream(input, p)| + 1 && ps[0] == p && ps[|ps| - 1] > |input|
    decreases |input| + 2 - p
  {
    var s := SkipWs(input, p);
    var (t, q) := ReadToken(input, s);
    ReadTokenProgress(input, s);
    if s >= |input| then [p, q]
    else [p] + StreamPositions(input, q)
  }

  /** Scanning from the i-th position yields the i-th token of the stream and moves to
      the next position. */
  lemma {:induction false} StreamScans(input: seq<char>, p: nat)
    requires p <= |input| + 1
    ensures forall i :: 0 <= i < |TokenStream(input, p)| ==>
              Scan(input, StreamPositions(input, p)[i]) == (TokenStream(input, p)[i], StreamPositions(input, p)[i + 1])
    decreases |input| + 2 - p
  {
    var s := SkipWs(input, p);
    var (t, q) := ReadToken(input, s);
    ReadTokenProgress(input, s);
    if s < |input| {
      StreamScans(input, q);
      var toks, ps := TokenStream(input, p), StreamPositions(input, p);
      forall i | 0 <= i < |toks| ensures Scan(input, ps[i]) == (toks[i], ps[i + 1]) {
        if i > 0 {
          assert toks[i] == TokenStream(input, q)[i - 1];
          assert ps[i] == StreamPositions(input, q)[i - 1];
          assert ps[i + 1] == StreamPositions(input, q)[i];
        }
      }
    }
  }

  // ----- the cursor -----

  class Lexer {
    const input: seq<char>
    var position: nat
    var readPosition: nat
    var ch: char

    /** The cursor invariant kept by every readChar. */
    ghost predicate Valid()
      reads this
    {
      readPosition == position + 1 && ch == At(input, position)
    }

    /** lexer.New: the cursor on the first code point. */
    constructor (input: seq<char>)
      ensures Valid() && this.input == input && position == 0
    {
      this.input := input;
      position := 0;
      readPosition := 0;
      ch := '\0';
      new;
      ReadChar();
    }

    /** readChar: advance the cursor by one code point. */
    method ReadChar()
      modifies this
      ensures position == old(readPosition) && readPosition == position + 1
      ensures ch == At(input, position)
    {
      if readPosition >= |input| {
        ch := '\0';
      } else {
        ch := input[readPosition];
      }
      position := readPosition;
      readPosition := readPosition + 1;
    }

    /** peekRune: look at the next code point's low byte without moving. */
    method PeekRune() returns (b: int)
      requires Valid()
      ensures b == PeekByte(input, position)
    {
      if readPosition >= |input| {
        b := 0;
      } else {
        b := (input[readPosition] as int) % 256;
      }
    }

    method SkipWhitespace()
      requires Valid()
      modifies this
      ensures Valid() && position == SkipWs(input, old(position))
    {
      while IsWhitespace(ch)
        invariant Valid()
        invariant SkipWs(input, position) == SkipWs(input, old(position))
        decreases |input| - position
      {
        ReadChar();
      }
    }

    method ReadIdentifier() returns (word: string)
      requires Valid()
      modifies this
      ensures Valid() && position == LetterRunEnd(input, old(position))
      ensures position <= |input| ==> word == input[old(position)..position]
    {
      var start := position;
      while IsLetter(ch)
        invariant Valid() && start <= position
        invariant LetterRunEnd(input, position) == LetterRunEnd(input, start)
        invariant start < position ==> position <= |input|
        decreases |input| - position
      {
        ReadChar();
      }
      word := if position <= |input| then input[start..position] else [];
    }

    method ReadDigit() returns (digits: string)
      requires Valid()
      modifies this
      ensures Valid() && position == DigitRunEnd(input, old(position))
      ensures position <= |input| ==> digits == input[old(position)..position]
    {
      var start := position;
      while IsDigit(ch)
        invariant Valid() && start <= position
        invariant DigitRunEnd(input, position) == DigitRunEnd(input, start)
        invariant start < position ==> position <= |input|
        decreases |input| - position
      {
        ReadChar();
      }
      digits := if position <= |input| then input[start..position] else [];
    }

    /** readString: from an opening quote, the text up to the next quote or the end
        of input; the cursor is left on the closing quote (or the end). */
    method ReadString() returns (text: string)
      requires Valid() && position < |input|
      modifies this
      ensures Valid() && position == StringClose(input, old(position) + 1)
      ensures text == input[old(position) + 1..position]
    {
      var start := position + 1;
      ReadChar();
      while ch != '"' && ch != '\0'
        invariant Valid() && start <= position <= |input|
        invariant StringClose(input, position) == StringClose(input, start)
        decreases |input| - position
      {
        ReadChar();
      }
      text := input[start..position];
    }

    /** NextToken: skip whitespace, then read one token. */
    method NextToken() returns (tok: Token)
      requires Valid()
      modifies this
      ensures Valid()
      ensures (tok, position) == Scan(input, old(position))
    {
      SkipWhitespace();
      ghost var s := position;
      match ch {
      case ':' => tok := New(Colon, ch);
      case '!' =>
        var b := PeekRune();
        if b == '=' as int {
          var first := ch;
          ReadChar();
          tok := Token(Neq, [first, ch]);
        } else {
          tok := New(Bang, ch);
        }
      case '=' =>
        var b := PeekRune();
        if b == '=' as int {
          var first := ch;
          ReadChar();
          tok := Token(Equals, [first, ch]);
        } else {
          tok := New(Assign, ch);
        }
      case ';' => tok := New(Semicolon, ch);
      case ',' => tok := New(Comma, ch);
      case '(' => tok := New(LParen, ch);
      case ')' => tok := New(RParen, ch);
      case '{' => tok := New(LBrace, ch);
      case '}' => tok := New(RBrace, ch);
      case '+' => tok := New(Plus, ch);
      case '-' => tok := New(Minus, ch);
      case '*' => tok := New(Asterisk, ch);
      case '/' => tok := New(Slash, ch);
      case '>' =>
        var b := PeekRune();
        if b == '=' as int {
          var first := ch;
          ReadChar();
          tok := Token(Egt, [first, ch]);
        } else {
          tok := New(Gt, ch);
        }
      case '<' =>
        var b := PeekRune();
        if b == '=' as int {
          var first := ch;
          ReadChar();
          tok := Token(Elt, [first, ch]);
        } else {
          tok := New(Lt, ch);
        }
      case '"' =>
        var text := ReadString();
        tok := Token(StringVal, text);
      case '\0' => tok := Token(Eof, "");
      case '[' => tok := New(LBracket, '[');
      case ']' => tok := New(RBracket, ']');
      case _ =>
        if IsLetter(ch) {
          assert LetterRunEnd(input, s) == LetterRunEnd(input, s + 1);
          var word := ReadIdentifier();
          tok := Token(LookupIdent(word), word);
          return;
        } else if IsDigit(ch) {
          assert DigitRunEnd(input, s) == DigitRunEnd(input, s + 1);
          var digits := ReadDigit();
          tok := Token(IntVal, digits);
          return;
        } else {
          tok := New(Illegal, ch);
        }
      }
      ReadChar();
    }
  }
}
