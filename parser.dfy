/**
 * `yurtc`'s parser, as a deterministic recursive descent over the token
 * sequence. Every combinator of the grammar becomes a function that
 * either consumes tokens from a position and returns a value, the next
 * position and the errors its `validate` steps emitted, or fails; a
 * `choice` or a `repeated` backtracks over an alternative that fails.
 * The binary levels, loosest first, are comparison, additive and
 * multiplicative; below them come tuple indices and atoms.
 */
module Parser {
  import opened Util
  import Lexer

  type Span = Lexer.Span

  /** The tokens the parser reads. */
  datatype Token =
    | Colon | Eq | Semi | Comma | Dot | Arrow
    | ParenOpen | ParenClose | BraceOpen | BraceClose
    | Plus | Minus | Bang | Star | Div | Mod
    | Lt | Gt | LtEq | GtEq | EqEq | NotEq
    | Real | Int | Bool | String | True | False
    | Var | Let | Constraint | Solve | Satisfy | Minimize | Maximize | Fn | If | Else
    | Ident(name: string)
    | IntLiteral(intText: string)
    | RealLiteral(realText: string)
    | StringLiteral(contents: string)

  /** The tokens spelled as reserved words. */
  predicate IsKeyword(t: Token)
  {
    t.Real? || t.Int? || t.Bool? || t.String? || t.True? || t.False? ||
    t.Var? || t.Let? || t.Constraint? || t.Solve? || t.Satisfy? || t.Minimize? || t.Maximize? ||
    t.Fn? || t.If? || t.Else?
  }

  // ---------------------------------------------------------------------
  // The syntax tree

  datatype UnaryOp = Pos | Neg | Not

  datatype BinaryOp =
    | Mul | Div | Mod | Add | Sub
    | LessThan | GreaterThan | LessThanOrEqual | GreaterThanOrEqual | Equal | NotEqual

  /** Real literals keep their text: floating point is not modelled. */
  datatype Immediate = RealImm(realText: string) | IntImm(value: int) | BigIntImm(value: int) | BoolImm(b: bool) | StringImm(s: string)

  datatype Type = RealType | IntType | BoolType | StringType | TupleType(tys: seq<Type>)

  datatype Expr =
    | ImmediateExpr(imm: Immediate)
    | IdentExpr(ident: string)
    | UnaryOpExpr(uop: UnaryOp, operand: Expr)
    | BinaryOpExpr(op: BinaryOp, lhs: Expr, rhs: Expr)
    | CallExpr(callee: string, args: seq<Expr>)
    | TupleExpr(elems: seq<Expr>)
    | TupleIndexExpr(tuple: Expr, index: nat)
    | BlockExpr(block: Block)
    | IfExpr(condition: Expr, thenBlock: Block, elseBlock: Block)

  datatype Block = Block(statements: seq<Decl>, finalExpr: Expr)

  datatype SolveFunc = SolveSatisfy | SolveMinimize(minimized: string) | SolveMaximize(maximized: string)

  datatype Decl =
    | VarDecl(varName: string, varTy: Option<Type>, varInit: Option<Expr>)
    | LetDecl(letName: string, letTy: Option<Type>, letInit: Expr)
    | ConstraintDecl(constraint: Expr)
    | SolveDecl(directive: SolveFunc)
    | FnDecl(fnName: string, params: seq<(string, Type)>, returnType: Type, body: Block)

  datatype ParseError =
    | UntypedDecisionVar(span: Span, varName: string)
    | EmptyTupleExpr(span: Span)
    | EmptyTupleType(span: Span)
    | KeywordAsIdent(span: Span, keyword: Token)
    | ExpectedFound(span: Span, found: Option<Token>)
    | InvalidTupleIndex(span: Span, index: Token)
    | InvalidIntegerTupleIndex(span: Span, indexText: string)

  datatype Result<T, E> = Ok(value: T) | Err(error: E)

  /** A parser's outcome at one position: a value, where parsing goes on and the errors emitted on the way; or a failure. */
  datatype PResult<T> = Parsed(value: T, next: nat, emitted: seq<ParseError>) | Failed(error: ParseError)

  // ---------------------------------------------------------------------
  // Numbers

  const I64Max: nat := 0x7FFF_FFFF_FFFF_FFFF
  const UsizeMax: nat := 0xFFFF_FFFF_FFFF_FFFF

  predicate AllDigits(s: string)
  {
    forall i :: 0 <= i < |s| ==> IsDigit(s[i])
  }

  /** Rust's `str::parse::<usize>`: an optional `+`, then decimal digits whose value fits. */
  function ParseUsize(s: string): Option<nat>
  {
    var ds := if |s| > 0 && s[0] == '+' then s[1..] else s;
    if ds == [] || !AllDigits(ds) || DecimalValue(ds) > UsizeMax then None
    else Some(DecimalValue(ds))
  }

  /** Rust's `str::parse::<i64>`: an optional sign, then decimal digits whose value fits. */
  function ParseI64(s: string): Option<int>
  {
    var ds := if |s| > 0 && (s[0] == '+' || s[0] == '-') then s[1..] else s;
    if ds == [] || !AllDigits(ds) then None
    else
      var v: int := if s[0] == '-' then -(DecimalValue(ds) as int) else DecimalValue(ds);
      if -(I64Max as int) - 1 <= v <= I64Max then Some(v) else None
  }

  /** A digit in radices up to 36: `0`-`9`, then letters of either case. */
  function RadixDigit(c: char): Option<nat>
  {
    var n := c as int;
    if 48 <= n <= 57 then Some(n - 48)            // '0'..'9'
    else if 97 <= n <= 122 then Some(n - 97 + 10)  // 'a'..'z'
    else if 65 <= n <= 90 then Some(n - 65 + 10)   // 'A'..'Z'
    else None
  }

  predicate RadixDigits(s: string, radix: nat)
  {
    forall i :: 0 <= i < |s| ==> RadixDigit(s[i]).Some? && RadixDigit(s[i]).value < radix
  }

  /** The value of the digits `s` in base `radix`. */
  function RadixValue(s: string, radix: nat): nat
    requires RadixDigits(s, radix)
  {
    if s == [] then 0 else RadixValue(s[..|s| - 1], radix) * radix + RadixDigit(s[|s| - 1]).value
  }

  /** `BigInt::from_str_radix` on plain digits. */
  function FromStrRadix(s: string, radix: nat): Option<nat>
  {
    if s == [] || !RadixDigits(s, radix) then None else Some(RadixValue(s, radix))
  }

  /**
   * `immediate`'s integer parser: a decimal `i64` if the text is one;
   * otherwise a big integer in the radix the second character selects
   * (`b` binary, `x` hexadecimal, else decimal) read after the prefix.
   * `None` where the source unwraps a failed parse.
   */
  function IntegerImmediate(s: string): Option<Immediate>
  {
    match ParseI64(s)
    case Some(v) => Some(IntImm(v))
    case None =>
      var radix, offs := if |s| > 1 && s[1] == 'b' then 2 else if |s| > 1 && s[1] == 'x' then 16 else 10,
                         if |s| > 1 && (s[1] == 'b' || s[1] == 'x') then 2 else 0;
      match FromStrRadix(s[offs..], radix)
      case Some(v) => Some(BigIntImm(v))
      case None => None
  }

  /** The lexer's integer syntax: `0x` and hex digits, `0b` and binary digits, or decimal digits. */
  predicate IntegerLiteralText(s: string)
  {
    || (|s| > 2 && s[..2] == "0x" && RadixDigits(s[2..], 16))
    || (|s| > 2 && s[..2] == "0b" && RadixDigits(s[2..], 2))
    || (|s| > 0 && AllDigits(s))
  }

  lemma {:induction false} RadixDecimal(s: string)
    requires AllDigits(s)
    ensures RadixDigits(s, 10) && RadixValue(s, 10) == DecimalValue(s)
    decreases |s|
  {
    if s != [] {
      RadixDecimal(s[..|s| - 1]);
    }
  }

  /** Every integer literal the lexer produces parses: the `unwrap` never panics on them. */
  lemma IntegerLiteralParses(s: string)
    requires IntegerLiteralText(s)
    ensures IntegerImmediate(s).Some?
  {
    if ParseI64(s).None? && |s| > 0 && AllDigits(s) {
      RadixDecimal(s);
      assert s[0..] == s;
    }
  }

  /** A decimal literal is an `i64` immediate when it fits and a big integer of the same value when it does not. */
  lemma IntegerDecimal(n: nat)
    ensures n <= I64Max ==> IntegerImmediate(NatToString(n)) == Some(IntImm(n))
    ensures n > I64Max ==> IntegerImmediate(NatToString(n)) == Some(BigIntImm(n))
  {
    var s := NatToString(n);
    DecimalOfNatToString(n);
    RadixDecimal(s);
    assert s[0..] == s;
  }

  /**
   * A hexadecimal or binary literal is always a big integer, whatever its
   * size, holding the value of the digits after the prefix.
   */
  lemma IntegerRadix(prefix: char, ds: string)
    requires prefix == 'x' || prefix == 'b'
    requires ds != [] && RadixDigits(ds, if prefix == 'x' then 16 else 2)
    ensures IntegerImmediate(['0', prefix] + ds) == Some(BigIntImm(RadixValue(ds, if prefix == 'x' then 16 else 2)))
  {
    var s := ['0', prefix] + ds;
    assert !IsDigit(s[1]);
    assert s[2..] == ds;
  }

  // ---------------------------------------------------------------------
  // Tuple indices

  /** Where the regular expression `[0-9]+\.[0-9]+` finds a match: a `.` with a digit on each side. */
  predicate HasIndexPair(s: string)
  {
    exists i :: 0 < i < |s| - 1 && s[i] == '.' && IsDigit(s[i - 1]) && IsDigit(s[i + 1])
  }

  /** The first position of `c` in `s`. */
  function FindChar(s: string, c: char): (r: Option<nat>)
    ensures r.None? <==> c !in s
    ensures r.Some? ==> r.value < |s| && s[r.value] == c && c !in s[..r.value]
  {
    if s == [] then None
    else if s[0] == c then Some(0)
    else match FindChar(s[1..], c)
      case None => None
      case Some(i) => assert s[..i + 1] == [s[0]] + s[1..][..i]; Some(i + 1)
  }

  /**
   * `tuple_index`'s token filter: an integer literal is one index; a real
   * literal such as `1.2` is split at its first `.` into two indices with
   * their own spans; anything else is not a tuple index.
   */
  function TupleIndices(t: Token, span: Span): Result<seq<nat>, ParseError>
  {
    match t
    case IntLiteral(s) =>
      (match ParseUsize(s)
       case Some(n) => Ok([n])
       case None => Err(InvalidIntegerTupleIndex(span, s)))
    case RealLiteral(s) => if HasIndexPair(s) then SplitIndexPair(s, span, t) else Err(InvalidTupleIndex(span, t))
    case _ => Err(InvalidTupleIndex(span, t))
  }

  /**
   * A real literal read as two indices: the text before its first `.`
   * and the text from there up to the next `.`, each with its own span.
   */
  function SplitIndexPair(s: string, span: Span, t: Token): Result<seq<nat>, ParseError>
  {
    match FindChar(s, '.')
    case None => Err(InvalidTupleIndex(span, t))
    case Some(d) =>
      var first, rest := s[..d], s[d + 1..];
      var second := match FindChar(rest, '.') case Some(e) => rest[..e] case None => rest;
      match ParseUsize(first)
      case None => Err(InvalidIntegerTupleIndex(Lexer.Span(span.start, span.start + d), first))
      case Some(a) =>
        match ParseUsize(second)
        case None => Err(InvalidIntegerTupleIndex(Lexer.Span(span.start + d + 1, span.end), second))
        case Some(b) => Ok([a, b])
  }

  lemma NatToStringHasNoDot(n: nat)
    ensures '.' !in NatToString(n) && ParseUsize(NatToString(n)) == (if n <= UsizeMax then Some(n) else None)
  {
    var s := NatToString(n);
    DecimalOfNatToString(n);
  }

  /** An integer literal that fits a `usize` is that one index. */
  lemma TupleIndexSingle(n: nat, span: Span)
    requires n <= UsizeMax
    ensures TupleIndices(IntLiteral(NatToString(n)), span) == Ok([n])
  {
    NatToStringHasNoDot(n);
  }

  lemma {:induction false} FindCharAfter(a: string, c: char, b: string)
    requires c !in a
    ensures FindChar(a + [c] + b, c) == Some(|a|)
    decreases |a|
  {
    if a != [] {
      assert (a + [c] + b)[1..] == a[1..] + [c] + b;
      FindCharAfter(a[1..], c, b);
    }
  }

  /** The literal `a.b` is the two indices `a` and `b`, in order. */
  lemma TupleIndexPair(a: nat, b: nat, span: Span)
    requires a <= UsizeMax && b <= UsizeMax
    ensures TupleIndices(RealLiteral(NatToString(a) + "." + NatToString(b)), span) == Ok([a, b])
  {
    var sa, sb := NatToString(a), NatToString(b);
    var s := sa + "." + sb;
    NatToStringHasNoDot(a);
    NatToStringHasNoDot(b);
    assert s[|sa| - 1] == sa[|sa| - 1] && s[|sa|] == '.' && s[|sa| + 1] == sb[0];
    assert HasIndexPair(s);
    SplitPlainPair(sa, sb, a, b, span, RealLiteral(s));
  }

  lemma SplitPlainPair(sa: string, sb: string, a: nat, b: nat, span: Span, t: Token)
    requires '.' !in sa && '.' !in sb && ParseUsize(sa) == Some(a) && ParseUsize(sb) == Some(b)
    ensures SplitIndexPair(sa + "." + sb, span, t) == Ok([a, b])
  {
    var s := sa + "." + sb;
    FindCharAfter(sa, '.', sb);
    assert s[..|sa|] == sa;
    assert s[|sa| + 1..] == sb;
  }

  /** A token other than a number literal is never a tuple index. */
  lemma TupleIndexInvalid(t: Token, span: Span)
    requires !t.IntLiteral? && !t.RealLiteral?
    ensures TupleIndices(t, span) == Err(InvalidTupleIndex(span, t))
  {
  }

  /** `foldl` of the indices: each one wraps everything before it. */
  function FoldIndices(e: Expr, ixs: seq<nat>): Expr
    decreases |ixs|
  {
    if ixs == [] then e else FoldIndices(TupleIndexExpr(e, ixs[0]), ixs[1..])
  }

  /** Indices nest leftwards: the last index is applied outermost. */
  lemma {:induction false} FoldIndicesSnoc(e: Expr, ixs: seq<nat>, i: nat)
    ensures FoldIndices(e, ixs + [i]) == TupleIndexExpr(FoldIndices(e, ixs), i)
    decreases |ixs|
  {
    if ixs == [] {
      assert [] + [i] == [i];
    } else {
      assert (ixs + [i])[1..] == ixs[1..] + [i];
      FoldIndicesSnoc(TupleIndexExpr(e, ixs[0]), ixs[1..], i);
    }
  }

  // ---------------------------------------------------------------------
  // Binary levels

  /** Comparison is level 0, additive 1, multiplicative 2. */
  function LevelOf(op: BinaryOp): nat
  {
    match op
    case Mul => 2
    case Div => 2
    case Mod => 2
    case Add => 1
    case Sub => 1
    case _ => 0
  }

  /** The operator token `t` stands for at binary level `level`, if any. */
  function LevelOp(level: nat, t: Option<Token>): (r: Option<BinaryOp>)
    ensures r.Some? ==> t.Some? && LevelOf(r.value) == level
  {
    if t.None? then None
    else if level == 0 then
      (match t.value
       case Lt => Some(LessThan)
       case Gt => Some(GreaterThan)
       case LtEq => Some(LessThanOrEqual)
       case GtEq => Some(GreaterThanOrEqual)
       case EqEq => Some(Equal)
       case NotEq => Some(NotEqual)
       case _ => None)
    else if level == 1 then
      (match t.value
       case Plus => Some(Add)
       case Minus => Some(Sub)
       case _ => None)
    else if level == 2 then
      (match t.value
       case Star => Some(Mul)
       case Div => Some(BinaryOp.Div)
       case Mod => Some(BinaryOp.Mod)
       case _ => None)
    else None
  }

  /** `foldl` of the operator/operand pairs onto the first operand. */
  function FoldBinary(lhs: Expr, items: seq<(BinaryOp, Expr)>): Expr
    decreases |items|
  {
    if items == [] then lhs else FoldBinary(BinaryOpExpr(items[0].0, lhs, items[0].1), items[1..])
  }

  /** Each level is left-associative: the last operator is applied outermost. */
  lemma {:induction false} FoldBinarySnoc(lhs: Expr, items: seq<(BinaryOp, Expr)>, op: BinaryOp, rhs: Expr)
    ensures FoldBinary(lhs, items + [(op, rhs)]) == BinaryOpExpr(op, FoldBinary(lhs, items), rhs)
    decreases |items|
  {
    if items == [] {
      assert [] + [(op, rhs)] == [(op, rhs)];
    } else {
      assert (items + [(op, rhs)])[1..] == items[1..] + [(op, rhs)];
      FoldBinarySnoc(BinaryOpExpr(items[0].0, lhs, items[0].1), items[1..], op, rhs);
    }
  }

  /**
   * The shape the precedence ladder gives a tree: every binary node is at
   * level `l` or tighter, its left operand at its own level or tighter and
   * its right operand strictly tighter.
   */
  predicate Ladder(e: Expr, l: nat)
  {
    match e
    case BinaryOpExpr(op, lhs, rhs) => LevelOf(op) >= l && Ladder(lhs, LevelOf(op)) && Ladder(rhs, LevelOf(op) + 1)
    case _ => true
  }

  /** The operators and operands of one level, as its parser collects them. */
  predicate LevelItems(items: seq<(BinaryOp, Expr)>, l: nat)
  {
    forall i :: 0 <= i < |items| ==> LevelOf(items[i].0) == l && Ladder(items[i].1, l + 1)
  }

  lemma {:induction false} LadderWeaken(e: Expr, l: nat)
    requires Ladder(e, l + 1)
    ensures Ladder(e, l)
  {
  }

  /** Folding one level's items onto a tighter operand gives a tree of the ladder's shape. */
  lemma {:induction false} FoldLadder(lhs: Expr, items: seq<(BinaryOp, Expr)>, l: nat)
    requires Ladder(lhs, l) && LevelItems(items, l)
    ensures Ladder(FoldBinary(lhs, items), l)
    decreases |items|
  {
    if items != [] {
      FoldLadder(BinaryOpExpr(items[0].0, lhs, items[0].1), items[1..], l);
    }
  }

  /** The left spine of level `l` operators: the first operand and the operator/operand pairs after it. */
  function Spine(e: Expr, l: nat): (r: (Expr, seq<(BinaryOp, Expr)>))
  {
    if e.BinaryOpExpr? && LevelOf(e.op) == l then
      var inner := Spine(e.lhs, l);
      (inner.0, inner.1 + [(e.op, e.rhs)])
    else (e, [])
  }

  /** Every tree is the fold of its own spine. */
  lemma {:induction false} FoldSpine(e: Expr, l: nat)
    ensures FoldBinary(Spine(e, l).0, Spine(e, l).1) == e
  {
    if e.BinaryOpExpr? && LevelOf(e.op) == l {
      FoldSpine(e.lhs, l);
      FoldBinarySnoc(Spine(e.lhs, l).0, Spine(e.lhs, l).1, e.op, e.rhs);
    }
  }

  /** A level's parse can be read back: the spine of the fold is the operand and items the parser collected. */
  lemma {:induction false} SpineFold(lhs: Expr, items: seq<(BinaryOp, Expr)>, l: nat)
    requires Ladder(lhs, l + 1) && LevelItems(items, l)
    ensures Spine(FoldBinary(lhs, items), l) == (lhs, items)
    decreases |items|
  {
    if items == [] {
      assert !(lhs.BinaryOpExpr? && LevelOf(lhs.op) == l);
    } else {
      var front, last := items[..|items| - 1], items[|items| - 1];
      assert items == front + [last];
      FoldBinarySnoc(lhs, front, last.0, last.1);
      SpineFold(lhs, front, l);
    }
  }

  // ---------------------------------------------------------------------
  // The token stream

  /** The tokens with their spans, and the span that stands for the end of input. */
  datatype Input = Input(toks: seq<(Token, Span)>, eoi: Span)

  function At(inp: Input, pos: nat): Option<Token>
  {
    if pos < |inp.toks| then Some(inp.toks[pos].0) else None
  }

  function SpanAt(inp: Input, pos: nat): Span
  {
    if pos < |inp.toks| then inp.toks[pos].1 else inp.eoi
  }

  /** A parser that expected something else at `pos` (or no more input) reports what it found there. */
  function Unexpected(inp: Input, pos: nat): ParseError
  {
    ExpectedFound(SpanAt(inp, pos), At(inp, pos))
  }

  /** The span of the tokens from `from` up to, not including, `to`. */
  function Covering(inp: Input, from: nat, to: nat): Span
    requires from < to <= |inp.toks|
  {
    Lexer.Span(inp.toks[from].1.start, inp.toks[to - 1].1.end)
  }

  /** Every integer literal has the lexer's integer syntax. */
  predicate WellLexed(inp: Input)
  {
    forall i :: 0 <= i < |inp.toks| && inp.toks[i].0.IntLiteral? ==> IntegerLiteralText(inp.toks[i].0.intText)
  }

  /** The tokens an atom can start with. */
  predicate StartsAtom(t: Option<Token>)
  {
    t.Some? &&
    match t.value
    case RealLiteral(_) => true
    case IntLiteral(_) => true
    case True => true
    case False => true
    case StringLiteral(_) => true
    case Plus => true
    case Minus => true
    case Bang => true
    case BraceOpen => true
    case If => true
    case Ident(_) => true
    case ParenOpen => true
    case _ => false
  }

  /**
   * `ident`: an identifier token is a name; a keyword is reported as a
   * keyword used as a name, and any other token as unexpected.
   */
  function ParseIdent(inp: Input, pos: nat): (r: PResult<string>)
    ensures r.Parsed? <==> At(inp, pos).Some? && At(inp, pos).value.Ident?
    ensures r.Parsed? ==> r == Parsed(At(inp, pos).value.name, pos + 1, [])
    ensures r.Failed? ==> (r.error.KeywordAsIdent? <==> At(inp, pos).Some? && IsKeyword(At(inp, pos).value))
  {
    match At(inp, pos)
    case Some(Ident(id)) => Parsed(id, pos + 1, [])
    case Some(t) => if IsKeyword(t) then Failed(KeywordAsIdent(SpanAt(inp, pos), t)) else Failed(Unexpected(inp, pos))
    case None => Failed(Unexpected(inp, pos))
  }

  // ---------------------------------------------------------------------
  // Types

  /** `type_`: a primitive type, or a parenthesised list of types (an empty one is reported). */
  function ParseType(inp: Input, pos: nat): (r: PResult<Type>)
    requires pos <= |inp.toks|
    ensures r.Parsed? ==> pos < r.next <= |inp.toks| && forall e :: e in r.emitted ==> e.EmptyTupleType?
    decreases |inp.toks| - pos, 0
  {
    match At(inp, pos)
    case Some(Real) => Parsed(RealType, pos + 1, [])
    case Some(Int) => Parsed(IntType, pos + 1, [])
    case Some(Bool) => Parsed(BoolType, pos + 1, [])
    case Some(String) => Parsed(StringType, pos + 1, [])
    case Some(ParenOpen) =>
      (match TypeList(inp, pos + 1)
       case Failed(e) => Failed(e)
       case Parsed(tys, p, em) =>
         if At(inp, p) != Some(ParenClose) then Failed(Unexpected(inp, p))
         else Parsed(TupleType(tys), p + 1, if tys == [] then em + [EmptyTupleType(Covering(inp, pos, p + 1))] else em))
    case _ => Failed(Unexpected(inp, pos))
  }

  /** Types separated by commas, a trailing comma allowed; never fails. */
  function TypeList(inp: Input, pos: nat): (r: PResult<seq<Type>>)
    requires pos <= |inp.toks|
    ensures r.Parsed? && pos <= r.next <= |inp.toks| && forall e :: e in r.emitted ==> e.EmptyTupleType?
    ensures r.Parsed? && r.value == [] ==> r.emitted == []
    decreases |inp.toks| - pos, 1
  {
    match ParseType(inp, pos)
    case Failed(_) => Parsed([], pos, [])
    case Parsed(t, p, em) =>
      (match TypeListMore(inp, p)
       case Failed(e) => Failed(e)
       case Parsed(ts, p2, em2) => Parsed([t] + ts, p2, em + em2))
  }

  function TypeListMore(inp: Input, pos: nat): (r: PResult<seq<Type>>)
    requires pos <= |inp.toks|
    ensures r.Parsed? && pos <= r.next <= |inp.toks| && forall e :: e in r.emitted ==> e.EmptyTupleType?
    decreases |inp.toks| - pos, 2
  {
    if At(inp, pos) != Some(Comma) then Parsed([], pos, [])
    else match ParseType(inp, pos + 1)
      case Failed(_) => Parsed([], pos + 1, [])
      case Parsed(t, p, em) =>
        (match TypeListMore(inp, p)
         case Failed(e) => Failed(e)
         case Parsed(ts, p2, em2) => Parsed([t] + ts, p2, em + em2))
  }

  /** `: type`, if it is there. */
  function OptionalTypeSpec(inp: Input, pos: nat): (r: PResult<Option<Type>>)
    requires pos <= |inp.toks|
    ensures r.Parsed? && pos <= r.next <= |inp.toks| && forall e :: e in r.emitted ==> e.EmptyTupleType?
    ensures r.Parsed? && r.value.None? ==> r.next == pos && r.emitted == []
  {
    if At(inp, pos) != Some(Colon) then Parsed(None, pos, [])
    else match ParseType(inp, pos + 1)
      case Failed(_) => Parsed(None, pos, [])
      case Parsed(t, p, em) => Parsed(Some(t), p, em)
  }

  /** One `name: type` parameter. */
  function ParseParam(inp: Input, pos: nat): (r: PResult<(string, Type)>)
    requires pos <= |inp.toks|
    ensures r.Parsed? ==> pos < r.next <= |inp.toks|
  {
    match ParseIdent(inp, pos)
    case Failed(e) => Failed(e)
    case Parsed(name, p, _) =>
      if At(inp, p) != Some(Colon) then Failed(Unexpected(inp, p))
      else match ParseType(inp, p + 1)
        case Failed(e) => Failed(e)
        case Parsed(t, p2, em) => Parsed((name, t), p2, em)
  }

  /** Parameters separated by commas, a trailing comma allowed; never fails. */
  function ParamList(inp: Input, pos: nat): (r: PResult<seq<(string, Type)>>)
    requires pos <= |inp.toks|
    ensures r.Parsed? && pos <= r.next <= |inp.toks|
    decreases |inp.toks| - pos, 1
  {
    match ParseParam(inp, pos)
    case Failed(_) => Parsed([], pos, [])
    case Parsed(x, p, em) =>
      (match ParamListMore(inp, p)
       case Failed(e) => Failed(e)
       case Parsed(xs, p2, em2) => Parsed([x] + xs, p2, em + em2))
  }

  function ParamListMore(inp: Input, pos: nat): (r: PResult<seq<(string, Type)>>)
    requires pos <= |inp.toks|
    ensures r.Parsed? && pos <= r.next <= |inp.toks|
    decreases |inp.toks| - pos, 0
  {
    if At(inp, pos) != Some(Comma) then Parsed([], pos, [])
    else match ParseParam(inp, pos + 1)
      case Failed(_) => Parsed([], pos + 1, [])
      case Parsed(x, p, em) =>
        (match ParamListMore(inp, p)
         case Failed(e) => Failed(e)
         case Parsed(xs, p2, em2) => Parsed([x] + xs, p2, em + em2))
  }

  /** The `.`-prefixed tuple indices after an atom; stops before the first `.` not followed by an index. */
  function IndexTail(inp: Input, pos: nat): (r: PResult<seq<nat>>)
    requires pos <= |inp.toks|
    ensures r.Parsed? && pos <= r.next <= |inp.toks| && r.emitted == []
    decreases |inp.toks| - pos
  {
    if At(inp, pos) == Some(Dot) && pos + 1 < |inp.toks| then
      match TupleIndices(inp.toks[pos + 1].0, inp.toks[pos + 1].1)
      case Ok(ixs) =>
        var rest := IndexTail(inp, pos + 2);
        Parsed(ixs + rest.value, rest.next, [])
      case Err(_) => Parsed([], pos, [])
    else Parsed([], pos, [])
  }

  // ---------------------------------------------------------------------
  // Expressions, blocks and declarations

  /** `expr`: the loosest binary level. */
  function ParseExpr(inp: Input, pos: nat): (r: PResult<Expr>)
    requires WellLexed(inp) && pos <= |inp.toks|
    ensures r.Parsed? ==> pos < r.next <= |inp.toks| && StartsAtom(At(inp, pos))
    decreases |inp.toks| - pos, 30
  {
    BinaryLevel(inp, pos, 0)
  }

  /**
   * `comparison_op`, `additive_op` and `multiplicative_op`: an operand of
   * the next tighter level, then this level's operators with their
   * operands, folded to the left.
   */
  function BinaryLevel(inp: Input, pos: nat, level: nat): (r: PResult<Expr>)
    requires WellLexed(inp) && pos <= |inp.toks| && level <= 2
    ensures r.Parsed? ==> pos < r.next <= |inp.toks| && StartsAtom(At(inp, pos))
    decreases |inp.toks| - pos, 20 - 2 * level
  {
    var lhs := if level < 2 then BinaryLevel(inp, pos, level + 1) else TupleIndexLevel(inp, pos);
    match lhs
    case Failed(e) => Failed(e)
    case Parsed(l, p, em) =>
      match BinaryTail(inp, p, level)
      case Failed(e) => Failed(e)
      case Parsed(items, p2, em2) => Parsed(FoldBinary(l, items), p2, em + em2)
  }

  /** This level's operator/operand pairs; stops before an operator whose operand does not parse. */
  function BinaryTail(inp: Input, pos: nat, level: nat): (r: PResult<seq<(BinaryOp, Expr)>>)
    requires WellLexed(inp) && pos <= |inp.toks| && level <= 2
    ensures r.Parsed? && pos <= r.next <= |inp.toks|
    decreases |inp.toks| - pos, 19 - 2 * level
  {
    match LevelOp(level, At(inp, pos))
    case None => Parsed([], pos, [])
    case Some(op) =>
      var rhs := if level < 2 then BinaryLevel(inp, pos + 1, level + 1) else TupleIndexLevel(inp, pos + 1);
      match rhs
      case Failed(_) => Parsed([], pos, [])
      case Parsed(r, p, em) =>
        match BinaryTail(inp, p, level)
        case Failed(e) => Failed(e)
        case Parsed(items, p2, em2) => Parsed([(op, r)] + items, p2, em + em2)
  }

  /** `tuple_index`: an atom followed by its indices, each wrapping what comes before it. */
  function TupleIndexLevel(inp: Input, pos: nat): (r: PResult<Expr>)
    requires WellLexed(inp) && pos <= |inp.toks|
    ensures r.Parsed? ==> pos < r.next <= |inp.toks| && StartsAtom(At(inp, pos)) && !r.value.BinaryOpExpr?
    decreases |inp.toks| - pos, 10
  {
    match Atom(inp, pos)
    case Failed(e) => Failed(e)
    case Parsed(a, p, em) =>
      var ixs := IndexTail(inp, p);
      FoldIndicesNotBinary(a, ixs.value);
      Parsed(FoldIndices(a, ixs.value), ixs.next, em)
  }

  lemma {:induction false} FoldIndicesNotBinary(e: Expr, ixs: seq<nat>)
    requires !e.BinaryOpExpr?
    ensures !FoldIndices(e, ixs).BinaryOpExpr?
    decreases |ixs|
  {
    if ixs != [] {
      FoldIndicesNotBinary(TupleIndexExpr(e, ixs[0]), ixs[1..]);
    }
  }

  function UnaryOf(t: Token): Option<UnaryOp>
  {
    match t
    case Plus => Some(Pos)
    case Minus => Some(Neg)
    case Bang => Some(Not)
    case _ => None
  }

  /**
   * The atoms, tried in the source's order: an immediate, a unary
   * operation, a block, an `if`, a call, a tuple, a name. Only a name can
   * start a call or a name, so the first token picks the alternative.
   */
  function Atom(inp: Input, pos: nat): (r: PResult<Expr>)
    requires WellLexed(inp) && pos <= |inp.toks|
    ensures r.Parsed? ==> pos < r.next <= |inp.toks| && StartsAtom(At(inp, pos)) && !r.value.BinaryOpExpr?
    decreases |inp.toks| - pos, 8
  {
    if pos == |inp.toks| then Failed(Unexpected(inp, pos))
    else
      var t := inp.toks[pos].0;
      match t
      case RealLiteral(s) => Parsed(ImmediateExpr(RealImm(s)), pos + 1, [])
      case IntLiteral(s) =>
        IntegerLiteralParses(s);
        Parsed(ImmediateExpr(IntegerImmediate(s).value), pos + 1, [])
      case True => Parsed(ImmediateExpr(BoolImm(true)), pos + 1, [])
      case False => Parsed(ImmediateExpr(BoolImm(false)), pos + 1, [])
      case StringLiteral(s) => Parsed(ImmediateExpr(StringImm(s)), pos + 1, [])
      case Plus => UnaryAtom(inp, pos, Pos)
      case Minus => UnaryAtom(inp, pos, Neg)
      case Bang => UnaryAtom(inp, pos, Not)
      case BraceOpen =>
        (match ParseBlock(inp, pos)
         case Failed(e) => Failed(e)
         case Parsed(b, p, em) => Parsed(BlockExpr(b), p, em))
      case If => IfAtom(inp, pos)
      case Ident(name) =>
        (match Args(inp, pos + 1)
         case Parsed(args, p, em) => Parsed(CallExpr(name, args), p, em)
         case Failed(_) => Parsed(IdentExpr(name), pos + 1, []))
      case ParenOpen =>
        (match Args(inp, pos)
         case Failed(e) => Failed(e)
         case Parsed(args, p, em) =>
           Parsed(TupleExpr(args), p, if args == [] then em + [EmptyTupleExpr(Covering(inp, pos, p))] else em))
      case _ => Failed(if IsKeyword(t) then KeywordAsIdent(inp.toks[pos].1, t) else Unexpected(inp, pos))
  }

  /** `unary_op`: the operator, then a whole expression. */
  function UnaryAtom(inp: Input, pos: nat, uop: UnaryOp): (r: PResult<Expr>)
    requires WellLexed(inp) && pos < |inp.toks|
    ensures r.Parsed? ==> pos < r.next <= |inp.toks| && r.value.UnaryOpExpr?
    decreases |inp.toks| - pos, 7
  {
    match ParseExpr(inp, pos + 1)
    case Failed(e) => Failed(e)
    case Parsed(e, p, em) => Parsed(UnaryOpExpr(uop, e), p, em)
  }

  /** `if_expr`: `if`, the condition, a block, `else` and a block. */
  function IfAtom(inp: Input, pos: nat): (r: PResult<Expr>)
    requires WellLexed(inp) && pos < |inp.toks|
    ensures r.Parsed? ==> pos < r.next <= |inp.toks| && r.value.IfExpr?
    decreases |inp.toks| - pos, 7
  {
    match ParseExpr(inp, pos + 1)
    case Failed(e) => Failed(e)
    case Parsed(c, p1, em1) =>
      match ParseBlock(inp, p1)
      case Failed(e) => Failed(e)
      case Parsed(tb, p2, em2) =>
        if At(inp, p2) != Some(Else) then Failed(Unexpected(inp, p2))
        else match ParseBlock(inp, p2 + 1)
          case Failed(e) => Failed(e)
          case Parsed(eb, p3, em3) => Parsed(IfExpr(c, tb, eb), p3, em1 + em2 + em3)
  }

  /** `code_block_expr`: `{`, declarations, a final expression, `}`. */
  function ParseBlock(inp: Input, pos: nat): (r: PResult<Block>)
    requires WellLexed(inp) && pos <= |inp.toks|
    ensures r.Parsed? ==> pos < r.next <= |inp.toks|
    decreases |inp.toks| - pos, 6
  {
    if At(inp, pos) != Some(BraceOpen) then Failed(Unexpected(inp, pos))
    else match BlockBody(inp, pos + 1)
      case Failed(e) => Failed(e)
      case Parsed(b, p, em) =>
        if At(inp, p) != Some(BraceClose) then Failed(Unexpected(inp, p))
        else Parsed(b, p + 1, em)
  }

  /** As many `var`, `let` and `constraint` declarations as parse, then the final expression. */
  function BlockBody(inp: Input, pos: nat): (r: PResult<Block>)
    requires WellLexed(inp) && pos <= |inp.toks|
    ensures r.Parsed? ==> pos < r.next <= |inp.toks|
    decreases |inp.toks| - pos, 40
  {
    match Declaration(inp, pos, false)
    case Parsed(d, p, em) =>
      (match BlockBody(inp, p)
       case Failed(e) => Failed(e)
       case Parsed(b, p2, em2) => Parsed(Block([d] + b.statements, b.finalExpr), p2, em + em2))
    case Failed(_) =>
      (match ParseExpr(inp, pos)
       case Failed(e) => Failed(e)
       case Parsed(e, p, em) => Parsed(Block([], e), p, em))
  }

  /** Call arguments or tuple elements: `(`, expressions separated by commas (a trailing one allowed), `)`. */
  function Args(inp: Input, pos: nat): (r: PResult<seq<Expr>>)
    requires WellLexed(inp) && pos <= |inp.toks|
    ensures r.Parsed? ==> pos + 1 < r.next <= |inp.toks|
    ensures r.Parsed? && r.value == [] ==> r.emitted == []
    decreases |inp.toks| - pos, 5
  {
    if At(inp, pos) != Some(ParenOpen) then Failed(Unexpected(inp, pos))
    else
      var xs := ArgList(inp, pos + 1);
      if At(inp, xs.next) != Some(ParenClose) then Failed(Unexpected(inp, xs.next))
      else Parsed(xs.value, xs.next + 1, xs.emitted)
  }

  function ArgList(inp: Input, pos: nat): (r: PResult<seq<Expr>>)
    requires WellLexed(inp) && pos <= |inp.toks|
    ensures r.Parsed? && pos <= r.next <= |inp.toks|
    ensures r.Parsed? && r.value == [] ==> r.emitted == []
    decreases |inp.toks| - pos, 36
  {
    match ParseExpr(inp, pos)
    case Failed(_) => Parsed([], pos, [])
    case Parsed(x, p, em) =>
      (match ArgListMore(inp, p)
       case Failed(e) => Failed(e)
       case Parsed(xs, p2, em2) => Parsed([x] + xs, p2, em + em2))
  }

  function ArgListMore(inp: Input, pos: nat): (r: PResult<seq<Expr>>)
    requires WellLexed(inp) && pos <= |inp.toks|
    ensures r.Parsed? && pos <= r.next <= |inp.toks|
    decreases |inp.toks| - pos, 35
  {
    if At(inp, pos) != Some(Comma) then Parsed([], pos, [])
    else match ParseExpr(inp, pos + 1)
      case Failed(_) => Parsed([], pos + 1, [])
      case Parsed(x, p, em) =>
        (match ArgListMore(inp, p)
         case Failed(e) => Failed(e)
         case Parsed(xs, p2, em2) => Parsed([x] + xs, p2, em + em2))
  }

  /** `= expr`, if it is there. */
  function OptionalInit(inp: Input, pos: nat): (r: PResult<Option<Expr>>)
    requires WellLexed(inp) && pos <= |inp.toks|
    ensures r.Parsed? && pos <= r.next <= |inp.toks|
    ensures r.Parsed? && r.value.None? ==> r.next == pos && r.emitted == []
    decreases |inp.toks| - pos, 37
  {
    if At(inp, pos) != Some(Eq) then Parsed(None, pos, [])
    else match ParseExpr(inp, pos + 1)
      case Failed(_) => Parsed(None, pos, [])
      case Parsed(e, p, em) => Parsed(Some(e), p, em)
  }

  /**
   * The declarations: `var`, `let` and `constraint` anywhere, `solve` and
   * `fn` only at the top level (`top`). A `var` with neither a type nor an
   * initialiser is reported; a `let` needs an initialiser.
   */
  function Declaration(inp: Input, pos: nat, top: bool): (r: PResult<Decl>)
    requires WellLexed(inp) && pos <= |inp.toks|
    ensures r.Parsed? ==> pos < r.next <= |inp.toks|
    decreases |inp.toks| - pos, 38
  {
    match At(inp, pos)
    case Some(Var) => VarDeclaration(inp, pos)
    case Some(Let) => LetDeclaration(inp, pos)
    case Some(Constraint) => ConstraintDeclaration(inp, pos)
    case Some(Solve) => if !top then Failed(Unexpected(inp, pos)) else SolveDeclaration(inp, pos)
    case Some(Fn) => if !top then Failed(Unexpected(inp, pos)) else FnDeclaration(inp, pos)
    case _ => Failed(Unexpected(inp, pos))
  }

  /** `var name [: type] [= init];`, reporting a variable with neither a type nor an initialiser. */
  function VarDeclaration(inp: Input, pos: nat): (r: PResult<Decl>)
    requires WellLexed(inp) && pos < |inp.toks|
    ensures r.Parsed? ==> pos < r.next <= |inp.toks|
    decreases |inp.toks| - pos, 37
  {
    match ParseIdent(inp, pos + 1)
    case Failed(e) => Failed(e)
    case Parsed(name, p1, _) =>
      var ty := OptionalTypeSpec(inp, p1);
      var init := OptionalInit(inp, ty.next);
      if At(inp, init.next) != Some(Semi) then Failed(Unexpected(inp, init.next))
      else
        var untyped := if ty.value.None? && init.value.None? then [UntypedDecisionVar(Covering(inp, pos, init.next + 1), name)] else [];
        Parsed(VarDecl(name, ty.value, init.value), init.next + 1, ty.emitted + init.emitted + untyped)
  }

  /** `let name [: type] = init;`. */
  function LetDeclaration(inp: Input, pos: nat): (r: PResult<Decl>)
    requires WellLexed(inp) && pos < |inp.toks|
    ensures r.Parsed? ==> pos < r.next <= |inp.toks|
    decreases |inp.toks| - pos, 37
  {
    match ParseIdent(inp, pos + 1)
    case Failed(e) => Failed(e)
    case Parsed(name, p1, _) =>
      var ty := OptionalTypeSpec(inp, p1);
      if At(inp, ty.next) != Some(Eq) then Failed(Unexpected(inp, ty.next))
      else match ParseExpr(inp, ty.next + 1)
        case Failed(e) => Failed(e)
        case Parsed(init, p2, em) =>
          if At(inp, p2) != Some(Semi) then Failed(Unexpected(inp, p2))
          else Parsed(LetDecl(name, ty.value, init), p2 + 1, ty.emitted + em)
  }

  /** `constraint expr;`. */
  function ConstraintDeclaration(inp: Input, pos: nat): (r: PResult<Decl>)
    requires WellLexed(inp) && pos < |inp.toks|
    ensures r.Parsed? ==> pos < r.next <= |inp.toks|
    decreases |inp.toks| - pos, 37
  {
    match ParseExpr(inp, pos + 1)
    case Failed(e) => Failed(e)
    case Parsed(c, p, em) =>
      if At(inp, p) != Some(Semi) then Failed(Unexpected(inp, p))
      else Parsed(ConstraintDecl(c), p + 1, em)
  }

  /** `solve satisfy;`, `solve minimize name;` or `solve maximize name;`. */
  function SolveDeclaration(inp: Input, pos: nat): (r: PResult<Decl>)
    requires WellLexed(inp) && pos < |inp.toks|
    ensures r.Parsed? ==> pos < r.next <= |inp.toks|
  {
    var directive: PResult<SolveFunc> :=
      (match At(inp, pos + 1)
       case Some(Satisfy) => Parsed(SolveSatisfy, pos + 2, [])
       case Some(Minimize) =>
         (match ParseIdent(inp, pos + 2)
          case Failed(e) => Failed(e)
          case Parsed(n, p, _) => Parsed(SolveMinimize(n), p, []))
       case Some(Maximize) =>
         (match ParseIdent(inp, pos + 2)
          case Failed(e) => Failed(e)
          case Parsed(n, p, _) => Parsed(SolveMaximize(n), p, []))
       case _ => Failed(Unexpected(inp, pos + 1)));
    if directive.Failed? then Failed(directive.error)
    else if At(inp, directive.next) != Some(Semi) then Failed(Unexpected(inp, directive.next))
    else Parsed(SolveDecl(directive.value), directive.next + 1, [])
  }

  /** `fn name(params) -> type { body }`. */
  function FnDeclaration(inp: Input, pos: nat): (r: PResult<Decl>)
    requires WellLexed(inp) && pos < |inp.toks|
    ensures r.Parsed? ==> pos < r.next <= |inp.toks|
    decreases |inp.toks| - pos, 37
  {
    match ParseIdent(inp, pos + 1)
    case Failed(e) => Failed(e)
    case Parsed(name, p1, _) =>
      if At(inp, p1) != Some(ParenOpen) then Failed(Unexpected(inp, p1))
      else
        var ps := ParamList(inp, p1 + 1);
        if At(inp, ps.next) != Some(ParenClose) then Failed(Unexpected(inp, ps.next))
        else if At(inp, ps.next + 1) != Some(Arrow) then Failed(Unexpected(inp, ps.next + 1))
        else match ParseType(inp, ps.next + 2)
          case Failed(e) => Failed(e)
          case Parsed(rt, p3, em3) =>
            match ParseBlock(inp, p3)
            case Failed(e) => Failed(e)
            case Parsed(body, p4, em4) => Parsed(FnDecl(name, ps.value, rt, body), p4, ps.emitted + em3 + em4)
  }

  // ---------------------------------------------------------------------
  // Programs

  /** `yurt_program`'s repetition: as many top-level declarations as parse. */
  function ProgramDecls(inp: Input, pos: nat): (r: PResult<seq<Decl>>)
    requires WellLexed(inp) && pos <= |inp.toks|
    ensures r.Parsed? && pos <= r.next <= |inp.toks|
    decreases |inp.toks| - pos
  {
    match Declaration(inp, pos, true)
    case Failed(_) => Parsed([], pos, [])
    case Parsed(d, p, em) =>
      var rest := ProgramDecls(inp, p);
      Parsed([d] + rest.value, rest.next, em + rest.emitted)
  }

  /**
   * `yurt_program().parse(..)`: the declarations, which must reach the end
   * of input with no error emitted on the way; the errors are those emitted
   * on the way, then the one of a token left over.
   */
  function ParseProgram(inp: Input): (r: Result<seq<Decl>, seq<ParseError>>)
    requires WellLexed(inp)
    ensures r.Ok? <==> ProgramDecls(inp, 0).next == |inp.toks| && ProgramDecls(inp, 0).emitted == []
    ensures r.Ok? ==> r.value == ProgramDecls(inp, 0).value
    ensures r.Err? ==> r.error != [] && ProgramDecls(inp, 0).emitted <= r.error
    ensures r.Err? && ProgramDecls(inp, 0).next < |inp.toks| ==> r.error[|r.error| - 1] == Unexpected(inp, ProgramDecls(inp, 0).next)
  {
    var ds := ProgramDecls(inp, 0);
    var errors := ds.emitted + (if ds.next < |inp.toks| then [Unexpected(inp, ds.next)] else []);
    if errors == [] then Ok(ds.value) else Err(errors)
  }

  datatype CompileError = Lex(lexError: Lexer.CompileError) | Parse(parseError: ParseError)

  /** The end-of-input span of a source of `sourceLen` bytes. */
  function SourceInput(toks: seq<(Token, Span)>, sourceLen: nat): Input
  {
    Input(toks, Lexer.Span(sourceLen, sourceLen))
  }

  /**
   * `parse_str_to_ast_inner` after lexing: the syntax tree when there were
   * neither lexing nor parsing errors; otherwise all the lexing errors,
   * followed by the parsing errors when parsing failed too.
   */
  function ParseSource(toks: seq<(Token, Span)>, lexErrors: seq<Lexer.CompileError>, sourceLen: nat): (r: Result<seq<Decl>, seq<CompileError>>)
    requires WellLexed(SourceInput(toks, sourceLen))
    ensures r.Ok? <==> lexErrors == [] && ParseProgram(SourceInput(toks, sourceLen)).Ok?
    ensures r.Ok? ==> r.value == ParseProgram(SourceInput(toks, sourceLen)).value
    ensures r.Err? ==> |lexErrors| <= |r.error| && forall i :: 0 <= i < |lexErrors| ==> r.error[i] == Lex(lexErrors[i])
    ensures r.Err? ==> forall i :: |lexErrors| <= i < |r.error| ==> r.error[i].Parse?
    ensures r.Err? && ParseProgram(SourceInput(toks, sourceLen)).Err? ==>
      |r.error| == |lexErrors| + |ParseProgram(SourceInput(toks, sourceLen)).error|
  {
    var lexed := seq(|lexErrors|, i requires 0 <= i < |lexErrors| => Lex(lexErrors[i]));
    match ParseProgram(SourceInput(toks, sourceLen))
    case Ok(ast) => if lexed != [] then Err(lexed) else Ok(ast)
    case Err(pe) => Err(lexed + seq(|pe|, i requires 0 <= i < |pe| => Parse(pe[i])))
  }

  // ---------------------------------------------------------------------
  // Properties of the parser

  /** Every parse of a binary level has the ladder's shape at that level. */
  lemma {:induction false} LevelLadder(inp: Input, pos: nat, level: nat)
    requires WellLexed(inp) && pos <= |inp.toks| && level <= 2
    ensures BinaryLevel(inp, pos, level).Parsed? ==> Ladder(BinaryLevel(inp, pos, level).value, level)
    decreases |inp.toks| - pos, 20 - 2 * level
  {
    var lhs := if level < 2 then BinaryLevel(inp, pos, level + 1) else TupleIndexLevel(inp, pos);
    if lhs.Parsed? {
      if level < 2 {
        LevelLadder(inp, pos, level + 1);
        LadderWeaken(lhs.value, level);
      }
      TailItems(inp, lhs.next, level);
      FoldLadder(lhs.value, BinaryTail(inp, lhs.next, level).value, level);
    }
  }

  /** A level's tail collects only that level's operators, each with an operand of a tighter level. */
  lemma {:induction false} TailItems(inp: Input, pos: nat, level: nat)
    requires WellLexed(inp) && pos <= |inp.toks| && level <= 2
    ensures LevelItems(BinaryTail(inp, pos, level).value, level)
    decreases |inp.toks| - pos, 19 - 2 * level
  {
    var op := LevelOp(level, At(inp, pos));
    if op.Some? {
      var rhs := if level < 2 then BinaryLevel(inp, pos + 1, level + 1) else TupleIndexLevel(inp, pos + 1);
      if rhs.Parsed? {
        if level < 2 {
          LevelLadder(inp, pos + 1, level + 1);
        }
        TailItems(inp, rhs.next, level);
        var rest := BinaryTail(inp, rhs.next, level).value;
        assert BinaryTail(inp, pos, level).value == [(op.value, rhs.value)] + rest;
        LevelItemsCons(op.value, rhs.value, rest, level);
      }
    }
  }

  lemma LevelItemsCons(op: BinaryOp, e: Expr, items: seq<(BinaryOp, Expr)>, l: nat)
    requires LevelOf(op) == l && Ladder(e, l + 1) && LevelItems(items, l)
    ensures LevelItems([(op, e)] + items, l)
  {
  }

  /**
   * Precedence and associativity of a parsed expression: a looser
   * operator is never the operand of a tighter one, and an operator is
   * never the right operand of one of its own level.
   */
  lemma ExprLadder(inp: Input, pos: nat)
    requires WellLexed(inp) && pos <= |inp.toks|
    ensures ParseExpr(inp, pos).Parsed? ==> Ladder(ParseExpr(inp, pos).value, 0)
  {
    LevelLadder(inp, pos, 0);
  }

  /** An empty tuple expression parses, and is reported with the span of its brackets. */
  lemma EmptyTupleExprReported(inp: Input, pos: nat)
    requires WellLexed(inp) && pos <= |inp.toks|
    ensures Atom(inp, pos).Parsed? && Atom(inp, pos).value == TupleExpr([]) ==>
      Atom(inp, pos).emitted == [EmptyTupleExpr(Covering(inp, pos, Atom(inp, pos).next))]
  {
  }

  /** An empty tuple type parses, and is reported with the span of its brackets. */
  lemma EmptyTupleTypeReported(inp: Input, pos: nat)
    requires pos <= |inp.toks|
    ensures ParseType(inp, pos).Parsed? && ParseType(inp, pos).value == TupleType([]) ==>
      ParseType(inp, pos).emitted == [EmptyTupleType(Covering(inp, pos, ParseType(inp, pos).next))]
  {
  }

  /** A `var` with neither a type nor an initialiser is reported, with the span of the whole declaration. */
  lemma UntypedVarReported(inp: Input, pos: nat, top: bool)
    requires WellLexed(inp) && pos <= |inp.toks|
    ensures var r := Declaration(inp, pos, top);
      r.Parsed? && r.value.VarDecl? && r.value.varTy.None? && r.value.varInit.None? ==>
      r.emitted == [UntypedDecisionVar(Covering(inp, pos, r.next), r.value.varName)]
  {
  }

  /** A `var` with a type and no initialiser reports nothing but empty tuple types inside that type. */
  lemma TypedVarNotReported(inp: Input, pos: nat, top: bool)
    requires WellLexed(inp) && pos <= |inp.toks|
    ensures var r := Declaration(inp, pos, top);
      r.Parsed? && r.value.VarDecl? && r.value.varTy.Some? && r.value.varInit.None? ==>
      forall e :: e in r.emitted ==> e.EmptyTupleType?
  {
  }

  /** `var x;` parses, with its untyped variable reported. */
  lemma UntypedVarExample(s0: Span, s1: Span, s2: Span, eoi: Span)
    ensures Declaration(Input([(Var, s0), (Ident("x"), s1), (Semi, s2)], eoi), 0, true)
      == Parsed(VarDecl("x", None, None), 3, [UntypedDecisionVar(Lexer.Span(s0.start, s2.end), "x")])
  {
    var inp := Input([(Var, s0), (Ident("x"), s1), (Semi, s2)], eoi);
    assert At(inp, 0) == Some(Var);
    assert VarDeclaration(inp, 0) == Parsed(VarDecl("x", None, None), 3, [UntypedDecisionVar(Lexer.Span(s0.start, s2.end), "x")]);
  }

  /**
   * `var x;` is read to the end of input, and the program still fails,
   * with the one error its declaration emitted.
   */
  lemma UntypedVarProgramFails(s0: Span, s1: Span, s2: Span, eoi: Span)
    ensures var inp := Input([(Var, s0), (Ident("x"), s1), (Semi, s2)], eoi);
      && WellLexed(inp)
      && ProgramDecls(inp, 0).next == |inp.toks|
      && ParseProgram(inp) == Err([UntypedDecisionVar(Lexer.Span(s0.start, s2.end), "x")])
  {
    var inp := Input([(Var, s0), (Ident("x"), s1), (Semi, s2)], eoi);
    UntypedVarExample(s0, s1, s2, eoi);
    assert At(inp, 3) == None;
    assert Declaration(inp, 3, true).Failed?;
    assert ProgramDecls(inp, 3) == Parsed([], 3, []);
    var em := [UntypedDecisionVar(Lexer.Span(s0.start, s2.end), "x")];
    assert Declaration(inp, 0, true) == Parsed(VarDecl("x", None, None), 3, em);
    assert [VarDecl("x", None, None)] + [] == [VarDecl("x", None, None)] && em + [] == em;
    assert ProgramDecls(inp, 0) == Parsed([VarDecl("x", None, None)], 3, em);
  }

  /**
   * A `let` needs an initialiser: when the name and the optional type are
   * not followed by `=`, the declaration fails at the token that is there.
   */
  lemma LetWithoutInitFails(inp: Input, pos: nat, top: bool)
    requires WellLexed(inp) && pos < |inp.toks| && At(inp, pos) == Some(Let)
    requires ParseIdent(inp, pos + 1).Parsed?
    requires At(inp, OptionalTypeSpec(inp, ParseIdent(inp, pos + 1).next).next) != Some(Eq)
    ensures Declaration(inp, pos, top) == Failed(Unexpected(inp, OptionalTypeSpec(inp, ParseIdent(inp, pos + 1).next).next))
  {
  }

  /** `solve` and `fn` are top-level declarations only. */
  lemma TopLevelOnly(inp: Input, pos: nat)
    requires WellLexed(inp) && pos <= |inp.toks|
    ensures Declaration(inp, pos, false).Parsed? ==> !Declaration(inp, pos, false).value.SolveDecl? && !Declaration(inp, pos, false).value.FnDecl?
  {
  }

  /** An expression, and so a block's final expression or an argument, starts with a token that starts an atom. */
  lemma ExprStart(inp: Input, pos: nat)
    requires WellLexed(inp) && pos <= |inp.toks|
    requires !StartsAtom(At(inp, pos))
    ensures ParseExpr(inp, pos).Failed?
  {
  }
}
