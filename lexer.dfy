/**
 * The `yurtc` lexer's own logic: unescaping string literals, splitting the
 * lexer's item stream into tokens and errors, and printing tokens back.
 */
module Lexer {
  import opened Util

  datatype Span = Span(start: nat, end: nat)

  datatype Token =
    | Colon | Eq | Gt | Lt | Semi | Star
    | Real | Int | True | False
    | Let | Constraint | Maximize | Minimize | Solve | Satisfy
    | Ident(ident: string)
    | RealNumber(realText: string)
    | Integer(intText: string)
    | String(contents: string)
    | Comment

  datatype LexError = InvalidToken

  /** `CompileError::Lex`. */
  datatype CompileError = LexErr(span: Span, error: LexError)

  // ---------------------------------------------------------------------
  // String literals

  /** Rust's `char::is_whitespace`: the Unicode White_Space property. */
  predicate IsWhitespace(c: char)
  {
    var n := c as int;
    (9 <= n <= 13) || n == 0x20 || n == 0x85 || n == 0xA0 || n == 0x1680
    || (0x2000 <= n <= 0x200A) || n == 0x2028 || n == 0x2029 || n == 0x202F
    || n == 0x205F || n == 0x3000
  }

  /** The number of whitespace characters `r` starts with. */
  function LeadingWhitespace(r: string): (n: nat)
    ensures n <= |r|
    ensures forall k :: 0 <= k < n ==> IsWhitespace(r[k])
    ensures n == |r| || !IsWhitespace(r[n])
  {
    if r != [] && IsWhitespace(r[0]) then 1 + LeadingWhitespace(r[1..]) else 0
  }

  /** A whitespace run followed by a non-whitespace character (or the end) is the leading run. */
  lemma {:induction false} LeadingWhitespaceIs(r: string, m: nat)
    requires m <= |r|
    requires forall k :: 0 <= k < m ==> IsWhitespace(r[k])
    requires m == |r| || !IsWhitespace(r[m])
    ensures LeadingWhitespace(r) == m
  {
    if m > 0 {
      LeadingWhitespaceIs(r[1..], m - 1);
    }
  }

  /**
   * The text produced by the front of a non-empty raw literal and the number
   * of characters that produce it: `\n`, `\t`, `\\` and `\"` stand for
   * newline, tab, backslash and quote; a backslash before a newline produces
   * nothing and takes the newline and all whitespace after it; a backslash
   * before any other character is kept on its own, and the next character is
   * read afresh; a backslash at the very end produces nothing.
   */
  function ReadFront(r: string): (res: (string, nat))
    requires r != []
    ensures 1 <= res.1 <= |r| && |res.0| <= 1
  {
    if r[0] != '\\' then ([r[0]], 1)
    else if |r| == 1 then ([], 1)
    else if r[1] == 'n' then (['\n'], 2)
    else if r[1] == 't' then (['\t'], 2)
    else if r[1] == '\\' then (['\\'], 2)
    else if r[1] == '"' then (['"'], 2)
    else if r[1] == '\n' then ([], 2 + LeadingWhitespace(r[2..]))
    else (['\\'], 1)
  }

  /** The text a raw literal stands for, read front to back. */
  function Unescape(r: string): string
    decreases |r|
  {
    if r == [] then [] else ReadFront(r).0 + Unescape(r[ReadFront(r).1..])
  }

  /**
   * `process_string_literal`: walks the raw literal (quotes included) once,
   * peeking one character after each backslash.
   */
  method ProcessStringLiteral(raw: string) returns (final: string)
    ensures final == Unescape(raw)
  {
    final := "";
    var i := 0;
    while i < |raw|
      invariant 0 <= i <= |raw|
      invariant final + Unescape(raw[i..]) == Unescape(raw)
      decreases |raw| - i
    {
      var out, j := ReadOne(raw, i);
      UnescapeAt(raw, i, out, j);
      final, i := final + out, j;
    }
  }

  /** The text from `i` on is what the front produces, then the text from where reading resumes. */
  lemma UnescapeAt(raw: string, i: nat, out: string, j: nat)
    requires i < j <= |raw| && (out, j - i) == ReadFront(raw[i..])
    ensures Unescape(raw[i..]) == out + Unescape(raw[j..])
  {
    assert raw[i..][j - i..] == raw[j..];
  }

  /**
   * One turn of the literal loop: reads the character at `i` (and, after a
   * backslash, what follows it), returning the text produced and where
   * reading resumes.
   */
  method ReadOne(raw: string, i: nat) returns (out: string, j: nat)
    requires i < |raw|
    ensures i < j <= |raw|
    ensures (out, j - i) == ReadFront(raw[i..])
  {
    var c := raw[i];
    j := i + 1;
    if c == '\\' && j < |raw| {
      var next := raw[j];
      if next == 'n' {
        out, j := ['\n'], j + 1;
      } else if next == 't' {
        out, j := ['\t'], j + 1;
      } else if next == '\\' {
        out, j := ['\\'], j + 1;
      } else if next == '"' {
        out, j := ['"'], j + 1;
      } else if next == '\n' {
        j := j + 1;
        while j < |raw| && IsWhitespace(raw[j])
          invariant i + 2 <= j <= |raw|
          invariant forall k :: i + 2 <= k < j ==> IsWhitespace(raw[k])
          decreases |raw| - j
        {
          j := j + 1;
        }
        out := [];
        LeadingWhitespaceIs(raw[i + 2..], j - (i + 2));
      } else {
        out := [c];
      }
    } else if c == '\\' {
      out := [];
    } else {
      out := [c];
    }
  }

  /** The inverse direction: how a string is written as a literal body. */
  function EscapeChar(c: char): string
  {
    if c == '\n' then "\\n"
    else if c == '\t' then "\\t"
    else if c == '\\' then "\\\\"
    else if c == '"' then "\\\""
    else [c]
  }

  function Escape(s: string): string
  {
    if s == [] then [] else EscapeChar(s[0]) + Escape(s[1..])
  }

  /** Unescaping undoes escaping: every string survives the round trip. */
  lemma {:induction false} UnescapeEscape(s: string)
    ensures Unescape(Escape(s)) == s
  {
    if s != [] {
      var e := EscapeChar(s[0]);
      var rest := Escape(s[1..]);
      UnescapeEscape(s[1..]);
      EscapeCharFront(s[0], rest);
      UnescapeRead(e + rest, [s[0]], |e|);
      assert (e + rest)[|e|..] == rest;
    }
  }

  /** An escaped character at the front is read back as that character, consuming exactly its escape. */
  lemma EscapeCharFront(c: char, rest: string)
    ensures ReadFront(EscapeChar(c) + rest) == ([c], |EscapeChar(c)|)
  {
    var e := EscapeChar(c);
    assert (e + rest)[0] == e[0];
    if |e| == 2 {
      assert (e + rest)[1] == e[1];
    }
  }

  /** Unescaping never lengthens the text. */
  lemma {:induction false} UnescapeShorter(r: string)
    ensures |Unescape(r)| <= |r|
    decreases |r|
  {
    if r != [] {
      UnescapeShorter(r[ReadFront(r).1..]);
    }
  }

  /** Text without backslashes is copied unchanged. */
  lemma {:induction false} UnescapePlain(r: string)
    requires forall i :: 0 <= i < |r| ==> r[i] != '\\'
    ensures Unescape(r) == r
  {
    if r != [] {
      UnescapePlain(r[1..]);
    }
  }

  /** Characters before the first backslash are copied as they are, ahead of the rest. */
  lemma {:induction false} UnescapePrefix(p: string, r: string)
    requires forall i :: 0 <= i < |p| ==> p[i] != '\\'
    ensures Unescape(p + r) == p + Unescape(r)
  {
    if p != [] {
      assert (p + r)[0] == p[0];
      assert (p + r)[1..] == p[1..] + r;
      UnescapePrefix(p[1..], r);
    } else {
      assert p + r == r;
    }
  }

  /** A backslash-newline continuation disappears together with the indentation after it. */
  lemma LineContinuation(indent: string, after: string)
    requires forall i :: 0 <= i < |indent| ==> IsWhitespace(indent[i])
    requires after == [] || !IsWhitespace(after[0])
    ensures Unescape("\\\n" + indent + after) == Unescape(after)
  {
    var tail := indent + after;
    var r := "\\\n" + indent + after;
    assert r == "\\\n" + tail;
    assert r[2..] == tail;
    ContinuationFront(r, indent, after);
    UnescapeRead(r, [], 2 + |indent|);
    assert tail[|indent|..] == after;
  }

  /** The front of a continuation is the backslash, the newline and the indentation. */
  lemma ContinuationFront(r: string, indent: string, after: string)
    requires |r| >= 2 && r[0] == '\\' && r[1] == '\n' && r[2..] == indent + after
    requires forall i :: 0 <= i < |indent| ==> IsWhitespace(indent[i])
    requires after == [] || !IsWhitespace(after[0])
    ensures ReadFront(r) == ([], 2 + |indent|)
  {
    var tail := indent + after;
    assert forall k :: 0 <= k < |indent| ==> tail[k] == indent[k];
    LeadingWhitespaceIs(tail, |indent|);
    ReadFrontContinuation(r);
  }

  /** The text is what the front produces, then the text after the front. */
  lemma UnescapeRead(r: string, out: string, n: nat)
    requires r != [] && ReadFront(r) == (out, n)
    ensures Unescape(r) == out + Unescape(r[n..])
  {
  }

  /** A backslash before a newline takes the newline and the whitespace after it, and produces nothing. */
  lemma ReadFrontContinuation(r: string)
    requires |r| >= 2 && r[0] == '\\' && r[1] == '\n'
    ensures ReadFront(r) == ([], 2 + LeadingWhitespace(r[2..]))
  {
  }

  // ---------------------------------------------------------------------
  // Splitting the item stream

  /** One item of the lexer's stream: a token or a failure, with its span. */
  datatype Item = Lexed(token: Token, span: Span) | Failed(error: LexError, span: Span)

  /**
   * `lex`: tokens (with spans) to the left, errors to the right, each list
   * in stream order.
   */
  function Lex(items: seq<Item>): (r: (seq<(Token, Span)>, seq<CompileError>))
    ensures |r.0| + |r.1| == |items|
  {
    if items == [] then ([], [])
    else
      var rest := Lex(items[1..]);
      match items[0]
      case Lexed(t, sp) => ([(t, sp)] + rest.0, rest.1)
      case Failed(e, sp) => (rest.0, [LexErr(sp, e)] + rest.1)
  }

  /** Splitting a concatenated stream splits each part and concatenates: source order is kept. */
  lemma {:induction false} LexAppend(a: seq<Item>, b: seq<Item>)
    ensures Lex(a + b) == (Lex(a).0 + Lex(b).0, Lex(a).1 + Lex(b).1)
  {
    if a == [] {
      assert a + b == b;
      assert [] + Lex(b).0 == Lex(b).0 && [] + Lex(b).1 == Lex(b).1;
    } else {
      assert (a + b)[0] == a[0];
      assert (a + b)[1..] == a[1..] + b;
      LexAppend(a[1..], b);
      var ra, rb := Lex(a[1..]), Lex(b);
      match a[0]
      case Lexed(t, sp) =>
        assert [(t, sp)] + (ra.0 + rb.0) == ([(t, sp)] + ra.0) + rb.0;
      case Failed(e, sp) =>
        assert [LexErr(sp, e)] + (ra.1 + rb.1) == ([LexErr(sp, e)] + ra.1) + rb.1;
    }
  }

  /** Every token of the stream lands in the token list, and nothing else does. */
  lemma {:induction false} LexTokens(items: seq<Item>, t: Token, sp: Span)
    ensures (t, sp) in Lex(items).0 <==> Lexed(t, sp) in items
  {
    if items != [] {
      LexTokens(items[1..], t, sp);
    }
  }

  /** Every failure of the stream lands in the error list, and nothing else does. */
  lemma {:induction false} LexErrors(items: seq<Item>, e: LexError, sp: Span)
    ensures LexErr(sp, e) in Lex(items).1 <==> Failed(e, sp) in items
  {
    if items != [] {
      LexErrors(items[1..], e, sp);
    }
  }

  // ---------------------------------------------------------------------
  // Printing tokens

  /** `Display for Token`. */
  function TokenText(t: Token): string
  {
    match t
    case Colon => ":"
    case Eq => "="
    case Gt => ">"
    case Lt => "<"
    case Semi => ";"
    case Star => "*"
    case Real => "real"
    case Int => "int"
    case True => "true"
    case False => "false"
    case Let => "let"
    case Constraint => "constraint"
    case Maximize => "maximize"
    case Minimize => "minimize"
    case Solve => "solve"
    case Satisfy => "satisfy"
    case Ident(s) => s
    case RealNumber(s) => s
    case Integer(s) => s
    case String(s) => s
    case Comment => "comment"
  }

  /** The fixed spellings the lexer recognises, as declared on each token variant. */
  function FixedToken(s: string): Option<Token>
  {
    if s == ":" then Some(Colon)
    else if s == "=" then Some(Eq)
    else if s == ">" then Some(Gt)
    else if s == "<" then Some(Lt)
    else if s == ";" then Some(Semi)
    else if s == "*" then Some(Star)
    else if s == "real" then Some(Real)
    else if s == "int" then Some(Int)
    else if s == "true" then Some(True)
    else if s == "false" then Some(False)
    else if s == "let" then Some(Let)
    else if s == "constraint" then Some(Constraint)
    else if s == "maximize" then Some(Maximize)
    else if s == "minimize" then Some(Minimize)
    else if s == "solve" then Some(Solve)
    else if s == "satisfy" then Some(Satisfy)
    else None
  }

  predicate IsFixed(t: Token)
  {
    !(t.Ident? || t.RealNumber? || t.Integer? || t.String? || t.Comment?)
  }

  /**
   * Printing a fixed token gives exactly the spelling the lexer reads as
   * that token; tokens that carry text print that text.
   */
  lemma TokenTextRoundTrip(t: Token)
    ensures IsFixed(t) ==> FixedToken(TokenText(t)) == Some(t)
    ensures t.Ident? ==> TokenText(t) == t.ident
    ensures t.RealNumber? ==> TokenText(t) == t.realText
    ensures t.Integer? ==> TokenText(t) == t.intText
  {
  }

  /** Distinct fixed tokens print differently. */
  lemma FixedTokenTextInjective(a: Token, b: Token)
    requires IsFixed(a) && IsFixed(b) && TokenText(a) == TokenText(b)
    ensures a == b
  {
    TokenTextRoundTrip(a);
    TokenTextRoundTrip(b);
  }
}
