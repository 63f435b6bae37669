/**
 * The `yurtfmt` pretty-printer: each AST node appends its text to a growing
 * buffer. The text each node produces is specified by a function, and each
 * `Format` implementation is a method proved to append exactly that text and
 * to leave the indentation level as it found it.
 */
module Formatter {
  import opened Util

  datatype UseTree =
    | Name(name: string)
    | UsePath(prefix: string, suffix: UseTree)
    | Group(imports: seq<UseTree>)
    | Alias(original: string, alias: string)

  datatype TupleField = TupleField(fieldName: Option<string>, fieldType: Type)

  datatype Type = Primitive(primitive: string) | Tuple(fields: seq<TupleField>)

  datatype Path = Path(preColon: bool, idents: seq<string>)

  datatype Expr =
    | Immediate(text: string)
    | PathExpr(path: Path)
    | UnaryOp(prefixOp: string, operand: Expr)
    | BinaryOp(op: string, lhs: Expr, rhs: Expr)

  datatype Param = Param(paramName: string, paramType: Type)

  datatype Decl =
    | Use(useTree: UseTree)
    | Value(valueName: string, ty: Option<Type>, init: Option<Expr>)
    | Solve(directive: string, objective: Option<Expr>)
    | NewType(typeName: string, newType: Type)
    | ConstraintDecl(expr: Expr)
    | Fn(fnToken: string, fnName: string, fnSig: Option<seq<Param>>, returnType: Type, body: Block)

  datatype Block = Block(statements: seq<Decl>, finalExpr: Expr)

  /** The whole program: its declarations in order. */
  type Ast = seq<Decl>

  // ---------------------------------------------------------------------
  // The text of each node

  function UseTreeText(u: UseTree): string
    decreases u
  {
    match u
    case Name(n) => n
    case UsePath(prefix, suffix) => prefix + "::" + UseTreeText(suffix)
    case Group(imports) =>
      "{" + Join(UseTreeTexts(imports), ", ") + "}"
    case Alias(n, a) => n + " as " + a
  }

  function UseTreeTexts(us: seq<UseTree>): (r: seq<string>)
    ensures |r| == |us| && forall i :: 0 <= i < |us| ==> r[i] == UseTreeText(us[i])
    decreases us
  {
    seq(|us|, i requires 0 <= i < |us| => UseTreeText(us[i]))
  }

  function TypeText(t: Type): string
    decreases t
  {
    match t
    case Primitive(p) => p
    case Tuple(fields) =>
      "{ " + Join(FieldTexts(fields), ", ") + " }"
  }

  function FieldTexts(fs: seq<TupleField>): (r: seq<string>)
    ensures |r| == |fs| && forall i :: 0 <= i < |fs| ==> r[i] == FieldText(fs[i])
    decreases fs
  {
    seq(|fs|, i requires 0 <= i < |fs| => FieldText(fs[i]))
  }

  /** A tuple field: its name and `: ` when it has one, then its type. */
  function FieldText(f: TupleField): string
    decreases f
  {
    (if f.fieldName.Some? then f.fieldName.value + ": " else "") + TypeText(f.fieldType)
  }

  function PathText(p: Path): string
  {
    (if p.preColon then "::" else "") + Join(p.idents, "::")
  }

  function ExprText(e: Expr): string
  {
    match e
    case Immediate(text) => text
    case PathExpr(p) => PathText(p)
    case UnaryOp(op, operand) => op + ExprText(operand)
    case BinaryOp(op, lhs, rhs) => ExprText(lhs) + " " + op + " " + ExprText(rhs)
  }

  function ParamText(p: Param): string
  {
    p.paramName + ": " + TypeText(p.paramType)
  }

  function ParamTexts(ps: seq<Param>): (r: seq<string>)
    ensures |r| == |ps| && forall i :: 0 <= i < |ps| ==> r[i] == ParamText(ps[i])
  {
    seq(|ps|, i requires 0 <= i < |ps| => ParamText(ps[i]))
  }

  function DeclText(d: Decl): string
    decreases d
  {
    match d
    case Use(u) => "use " + UseTreeText(u) + ";"
    case Value(name, ty, init) =>
      "let " + name
      + (if ty.Some? then ": " + TypeText(ty.value) else "")
      + (if init.Some? then " = " + ExprText(init.value) else "")
      + ";\n"
    case Solve(directive, objective) =>
      "solve " + directive + (if objective.Some? then " " + ExprText(objective.value) else "") + ";\n"
    case NewType(name, ty) => "type " + name + " = " + TypeText(ty) + ";\n"
    case ConstraintDecl(e) => "constraint " + ExprText(e) + ";\n"
    case Fn(fnToken, name, fnSig, ret, body) => FnHeader(fnToken, name, fnSig, ret) + BlockText(body) + "\n}"
  }

  /** A function's first line: token, name, parameters separated by `, `, return type and the opening brace. */
  function FnHeader(fnToken: string, name: string, fnSig: Option<seq<Param>>, ret: Type): string
  {
    fnToken + " " + name + " ("
    + (if fnSig.Some? then Join(ParamTexts(fnSig.value), ", ") else "")
    + ") -> " + TypeText(ret) + " {\n"
  }

  /** The statements, one line break between consecutive ones, then the final expression. */
  function BlockText(b: Block): string
    decreases b
  {
    Join(DeclTexts(b.statements), "\n")
    + ExprText(b.finalExpr)
  }

  function DeclTexts(ds: seq<Decl>): (r: seq<string>)
    decreases ds
    ensures |r| == |ds| && forall i :: 0 <= i < |ds| ==> r[i] == DeclText(ds[i])
  {
    seq(|ds|, i requires 0 <= i < |ds| => DeclText(ds[i]))
  }

  function AstText(ast: Ast): string
  {
    Concat(DeclTexts(ast))
  }

  // ---------------------------------------------------------------------
  // Properties of the text

  /** Formatting a program split in two is formatting each half, in order. */
  lemma AstTextAppend(a: Ast, b: Ast)
    ensures AstText(a + b) == AstText(a) + AstText(b)
  {
    assert DeclTexts(a + b) == DeclTexts(a) + DeclTexts(b);
    ConcatAppend(DeclTexts(a), DeclTexts(b));
  }

  /**
   * A path starts with `::` exactly when it is marked as rooted, as long as
   * its first segment does not itself start with a colon.
   */
  lemma PathTextRooted(p: Path)
    requires p.idents != [] && p.idents[0] != [] && p.idents[0][0] != ':'
    ensures |PathText(p)| >= 2 && PathText(p)[..2] == "::" <==> p.preColon
  {
    var j := Join(p.idents, "::");
    assert j[0] == p.idents[0][0] by {
      if |p.idents| > 1 {
        assert j == p.idents[0] + "::" + Join(p.idents[1..], "::");
      }
    }
    if !p.preColon {
      assert PathText(p) == j;
    }
  }

  /**
   * Value, solve, type and constraint declarations end their line with `;`;
   * a `use` declaration ends in `;` without a line break, and a function in
   * a closing brace on a line of its own.
   */
  lemma DeclTextEnding(d: Decl)
    ensures var t := DeclText(d);
      && (d.Value? || d.Solve? || d.NewType? || d.ConstraintDecl? ==> |t| >= 2 && t[|t| - 2..] == ";\n")
      && (d.Use? ==> |t| >= 1 && t[|t| - 1] == ';')
      && (d.Fn? ==> |t| >= 2 && t[|t| - 2..] == "\n}")
  {
  }

  /**
   * Binary operators are printed without parentheses, so a chain nested to
   * the right prints exactly like the same chain nested to the left.
   */
  lemma BinaryNestingNotPrinted(op: string, a: Expr, b: Expr, c: Expr)
    ensures ExprText(BinaryOp(op, a, BinaryOp(op, b, c))) == ExprText(BinaryOp(op, BinaryOp(op, a, b), c))
  {
    var ta, tb, tc := ExprText(a), ExprText(b), ExprText(c);
    calc {
      ExprText(BinaryOp(op, a, BinaryOp(op, b, c)));
      ta + " " + op + " " + (tb + " " + op + " " + tc);
      { assert ta + " " + op + " " + (tb + " " + op + " " + tc) == (ta + " " + op + " " + tb) + " " + op + " " + tc; }
      (ta + " " + op + " " + tb) + " " + op + " " + tc;
      ExprText(BinaryOp(op, BinaryOp(op, a, b), c));
    }
  }

  // ---------------------------------------------------------------------
  // The buffer and the Format implementations

  /** The output buffer: the text written so far and the current indentation level. */
  class FormattedCode {
    var code: string
    var indent: nat

    constructor ()
      ensures code == "" && indent == 0
    {
      code := "";
      indent := 0;
    }

    method Write(s: string)
      modifies this
      ensures code == old(code) + s && indent == old(indent)
    {
      code := code + s;
    }

    method WriteLine(s: string)
      modifies this
      ensures code == old(code) + s + "\n" && indent == old(indent)
    {
      code := code + s + "\n";
    }

    method IncreaseIndent()
      modifies this
      ensures code == old(code) && indent == old(indent) + 1
    {
      indent := indent + 1;
    }

    method DecreaseIndent()
      modifies this
      ensures code == old(code) && indent == if old(indent) > 0 then old(indent) - 1 else 0
    {
      if indent > 0 {
        indent := indent - 1;
      }
    }
  }

  method FormatUseTree(fc: FormattedCode, u: UseTree)
    modifies fc
    ensures fc.code == old(fc.code) + UseTreeText(u) && fc.indent == old(fc.indent)
    decreases u
  {
    match u
    case Name(n) =>
      fc.Write(n);
    case UsePath(prefix, suffix) =>
      fc.Write(prefix + "::");
      FormatUseTree(fc, suffix);
    case Group(imports) =>
      ghost var start := fc.code;
      ghost var texts := UseTreeTexts(imports);
      fc.Write("{");
      var i := 0;
      while i < |imports|
        invariant 0 <= i <= |imports|
        invariant fc.code == (start + "{") + JoinedPrefix(texts, i, ", ")
        invariant fc.indent == old(fc.indent)
      {
        ghost var before := fc.code;
        FormatUseTree(fc, imports[i]);
        if i < |imports| - 1 {
          fc.Write(", ");
        }
        JoinedPrefixLoop(start + "{", texts, i, ", ", before, fc.code);
        i := i + 1;
      }
      fc.Write("}");
    case Alias(n, a) =>
      fc.Write(n + " as " + a);
  }

  method FormatType(fc: FormattedCode, t: Type)
    modifies fc
    ensures fc.code == old(fc.code) + TypeText(t) && fc.indent == old(fc.indent)
    decreases t
  {
    match t
    case Primitive(p) =>
      fc.Write(p);
    case Tuple(fields) =>
      ghost var start := fc.code;
      ghost var texts := FieldTexts(fields);
      fc.Write("{ ");
      var i := 0;
      while i < |fields|
        invariant 0 <= i <= |fields|
        invariant fc.code == (start + "{ ") + JoinedPrefix(texts, i, ", ")
        invariant fc.indent == old(fc.indent)
      {
        ghost var before := fc.code;
        FormatField(fc, fields[i]);
        if i < |fields| - 1 {
          fc.Write(", ");
        }
        JoinedPrefixLoop(start + "{ ", texts, i, ", ", before, fc.code);
        i := i + 1;
      }
      fc.Write(" }");
  }

  /** A tuple field: its name and `: ` when it has one, then its type. */
  method FormatField(fc: FormattedCode, f: TupleField)
    modifies fc
    ensures fc.code == old(fc.code) + FieldText(f) && fc.indent == old(fc.indent)
    decreases f
  {
    ghost var start := fc.code;
    if f.fieldName.Some? {
      fc.Write(f.fieldName.value + ": ");
    }
    FormatType(fc, f.fieldType);
    assert fc.code == start + (if f.fieldName.Some? then f.fieldName.value + ": " else "") + TypeText(f.fieldType);
  }

  method FormatPath(fc: FormattedCode, p: Path)
    modifies fc
    ensures fc.code == old(fc.code) + PathText(p) && fc.indent == old(fc.indent)
  {
    if p.preColon {
      fc.Write("::");
    }
    fc.Write(Join(p.idents, "::"));
  }

  method FormatExpr(fc: FormattedCode, e: Expr)
    modifies fc
    ensures fc.code == old(fc.code) + ExprText(e) && fc.indent == old(fc.indent)
    decreases e
  {
    match e
    case Immediate(text) =>
      fc.Write(text);
    case PathExpr(p) =>
      FormatPath(fc, p);
    case UnaryOp(op, operand) =>
      fc.Write(op);
      FormatExpr(fc, operand);
    case BinaryOp(op, lhs, rhs) =>
      FormatExpr(fc, lhs);
      fc.Write(" " + op + " ");
      FormatExpr(fc, rhs);
  }

  method FormatDecl(fc: FormattedCode, d: Decl)
    modifies fc
    ensures fc.code == old(fc.code) + DeclText(d) && fc.indent == old(fc.indent)
    decreases d, 1
  {
    match d
    case Use(u) =>
      fc.Write("use ");
      FormatUseTree(fc, u);
      fc.Write(";");
    case Value(name, ty, init) =>
      FormatValue(fc, name, ty, init);
    case Solve(directive, objective) =>
      FormatSolve(fc, directive, objective);
    case NewType(name, ty) =>
      fc.Write("type " + name + " = ");
      FormatType(fc, ty);
      fc.WriteLine(";");
    case ConstraintDecl(e) =>
      fc.Write("constraint ");
      FormatExpr(fc, e);
      fc.WriteLine(";");
    case Fn(fnToken, name, fnSig, ret, body) =>
      FormatFn(fc, fnToken, name, fnSig, ret, body);
  }

  method FormatValue(fc: FormattedCode, name: string, ty: Option<Type>, init: Option<Expr>)
    modifies fc
    ensures fc.code == old(fc.code) + DeclText(Value(name, ty, init)) && fc.indent == old(fc.indent)
  {
    ghost var start := fc.code;
    fc.Write("let " + name);
    ghost var t1 := FormatTypeSpec(fc, ty);
    ghost var t2 := FormatInit(fc, init);
    fc.WriteLine(";");
    assert fc.code == start + ("let " + name + t1 + t2 + ";" + "\n");
    ValueText(name, ty, init, t1, t2);
  }

  /** The optional `: type` of a value declaration; returns the text written. */
  method FormatTypeSpec(fc: FormattedCode, ty: Option<Type>) returns (ghost t: string)
    modifies fc
    ensures t == (if ty.Some? then ": " + TypeText(ty.value) else "")
    ensures fc.code == old(fc.code) + t && fc.indent == old(fc.indent)
  {
    t := if ty.Some? then ": " + TypeText(ty.value) else "";
    if ty.Some? {
      fc.Write(": ");
      FormatType(fc, ty.value);
    }
  }

  /** The optional ` = init` of a value declaration; returns the text written. */
  method FormatInit(fc: FormattedCode, init: Option<Expr>) returns (ghost t: string)
    modifies fc
    ensures t == (if init.Some? then " = " + ExprText(init.value) else "")
    ensures fc.code == old(fc.code) + t && fc.indent == old(fc.indent)
  {
    t := if init.Some? then " = " + ExprText(init.value) else "";
    if init.Some? {
      fc.Write(" = ");
      FormatExpr(fc, init.value);
    }
  }

  /** The text of a value declaration, in the pieces its formatter writes. */
  lemma ValueText(name: string, ty: Option<Type>, init: Option<Expr>, t1: string, t2: string)
    requires t1 == if ty.Some? then ": " + TypeText(ty.value) else ""
    requires t2 == if init.Some? then " = " + ExprText(init.value) else ""
    ensures DeclText(Value(name, ty, init)) == "let " + name + t1 + t2 + ";" + "\n"
  {
    assert ";\n" == ";" + "\n";
  }

  method FormatSolve(fc: FormattedCode, directive: string, objective: Option<Expr>)
    modifies fc
    ensures fc.code == old(fc.code) + DeclText(Solve(directive, objective)) && fc.indent == old(fc.indent)
  {
    fc.Write("solve " + directive);
    if objective.Some? {
      fc.Write(" ");
      FormatExpr(fc, objective.value);
    }
    fc.WriteLine(";");
  }

  method FormatFn(fc: FormattedCode, fnToken: string, name: string, fnSig: Option<seq<Param>>, ret: Type, body: Block)
    modifies fc
    ensures fc.code == old(fc.code) + DeclText(Fn(fnToken, name, fnSig, ret, body)) && fc.indent == old(fc.indent)
    decreases Fn(fnToken, name, fnSig, ret, body), 0
  {
    ghost var start := fc.code;
    ghost var header := FnHeader(fnToken, name, fnSig, ret);
    FormatFnHeader(fc, fnToken, name, fnSig, ret);
    FormatBlock(fc, body);
    AppendAssoc(start, header, BlockText(body));
    fc.Write("\n}");
    AppendAssoc(start, header + BlockText(body), "\n}");
    assert DeclText(Fn(fnToken, name, fnSig, ret, body)) == header + BlockText(body) + "\n}";
  }

  method FormatFnHeader(fc: FormattedCode, fnToken: string, name: string, fnSig: Option<seq<Param>>, ret: Type)
    modifies fc
    ensures fc.code == old(fc.code) + FnHeader(fnToken, name, fnSig, ret) && fc.indent == old(fc.indent)
  {
    ghost var start := fc.code;
    var opening := fnToken + " " + name + " (";
    fc.Write(opening);
    ghost var sig := if fnSig.Some? then Join(ParamTexts(fnSig.value), ", ") else "";
    if fnSig.Some? {
      FormatParams(fc, fnSig.value);
    } else {
      assert fc.code == start + opening + sig;
    }
    ghost var h0 := opening + sig;
    AppendAssoc(start, opening, sig);
    fc.Write(") -> ");
    ghost var h1 := h0 + ") -> ";
    AppendAssoc(start, h0, ") -> ");
    FormatType(fc, ret);
    ghost var h2 := h1 + TypeText(ret);
    AppendAssoc(start, h1, TypeText(ret));
    fc.WriteLine(" {");
    assert FnHeader(fnToken, name, fnSig, ret) == h2 + " {\n";
    AppendAssoc(start + h2, " {", "\n");
    AppendAssoc(start, h2, " {\n");
  }

  lemma AppendAssoc(s: string, a: string, b: string)
    ensures s + a + b == s + (a + b)
  {
  }

  /** The parameter loop of a function declaration: `, ` between parameters, none after the last. */
  method FormatParams(fc: FormattedCode, ps: seq<Param>)
    modifies fc
    ensures fc.code == old(fc.code) + Join(ParamTexts(ps), ", ") && fc.indent == old(fc.indent)
  {
    ghost var start := fc.code;
    ghost var texts := ParamTexts(ps);
    var i := 0;
    while i < |ps|
      invariant 0 <= i <= |ps|
      invariant fc.code == start + JoinedPrefix(texts, i, ", ")
      invariant fc.indent == old(fc.indent)
    {
      ghost var before := fc.code;
      fc.Write(ps[i].paramName + ": ");
      FormatType(fc, ps[i].paramType);
      assert fc.code == before + ParamText(ps[i]);
      if i < |ps| - 1 {
        fc.Write(", ");
      }
      JoinedPrefixLoop(start, texts, i, ", ", before, fc.code);
      i := i + 1;
    }
  }

  /** A block is written one level further in, and the level is restored afterwards. */
  method FormatBlock(fc: FormattedCode, b: Block)
    modifies fc
    ensures fc.code == old(fc.code) + BlockText(b) && fc.indent == old(fc.indent)
    decreases b, 1
  {
    ghost var start := fc.code;
    ghost var texts := DeclTexts(b.statements);
    fc.IncreaseIndent();
    var i := 0;
    while i < |b.statements|
      invariant 0 <= i <= |b.statements|
      invariant fc.code == start + JoinedPrefix(texts, i, "\n")
      invariant fc.indent == old(fc.indent) + 1
    {
      ghost var before := fc.code;
      FormatDecl(fc, b.statements[i]);
      ghost var written := fc.code;
      if i < |b.statements| - 1 {
        fc.WriteLine("");
        assert fc.code == written + "\n";
      }
      JoinedPrefixLoop(start, texts, i, "\n", before, fc.code);
      i := i + 1;
    }
    FormatExpr(fc, b.finalExpr);
    fc.DecreaseIndent();
  }

  method FormatAst(fc: FormattedCode, ast: Ast)
    modifies fc
    ensures fc.code == old(fc.code) + AstText(ast) && fc.indent == old(fc.indent)
  {
    var i := 0;
    while i < |ast|
      invariant 0 <= i <= |ast|
      invariant fc.code == old(fc.code) + AstText(ast[..i])
      invariant fc.indent == old(fc.indent)
    {
      FormatDecl(fc, ast[i]);
      AstTextAppend(ast[..i], [ast[i]]);
      assert DeclTexts([ast[i]]) == [DeclText(ast[i])];
      assert Concat([DeclText(ast[i])]) == DeclText(ast[i]) + Concat([]);
      assert ast[..i + 1] == ast[..i] + [ast[i]];
      i := i + 1;
    }
    assert ast[..|ast|] == ast;
  }
}
