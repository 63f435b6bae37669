/**
 * The intermediate intent of the newer `yurtc` pipeline, as far as its
 * scalarisation and canonicalisation passes use it: arenas of decision
 * variables and expressions (slot maps keyed by fresh keys), the types of
 * both, the constraint list, the solve directives and the declared enums.
 */
module Intermediate {
  import opened Util

  type VarKey = nat
  type ExprKey = nat

  /** The compile-time values an expression can evaluate to (real numbers are not modelled). */
  datatype Immediate = IntImm(intValue: int) | BoolImm(boolValue: bool) | RealImm | StringImm(stringValue: string)

  datatype PrimitiveKind = Bool | Int | Real | String

  datatype BinaryOp =
    | Equal | NotEqual | LogicalAnd | LogicalOr
    | LessThan | LessThanOrEqual | GreaterThan | GreaterThanOrEqual
    | Add | Sub | Mul | Div | Mod

  /** How a tuple field is selected: by position, by name, or an accessor that failed to parse. */
  datatype TupleAccess = Index(index: nat) | Name(name: string) | InvalidAccess

  /**
   * An expression in the arena. Sub-expressions are keys into the same arena.
   * Forms the passes never look inside keep only their sub-expression keys.
   */
  datatype Expr =
    | Immediate(value: Immediate)
    | PathByName(path: string)
    | PathByKey(varKey: VarKey)
    | BinaryOpExpr(op: BinaryOp, lhs: ExprKey, rhs: ExprKey)
    | ArrayElementAccess(indexed: ExprKey, index: ExprKey)
    | TupleFieldAccess(tuple: ExprKey, field: TupleAccess)
    | OtherExpr(children: seq<ExprKey>)

  datatype TupleField = TupleField(name: Option<string>, ty: Type)

  /** Array sizes start unknown (`None`) and are fixed from the range expression before scalarisation. */
  datatype Type =
    | ErrorType
    | Primitive(kind: PrimitiveKind)
    | Array(elem: Type, range: ExprKey, size: Option<int>)
    | Tuple(fields: seq<TupleField>)
    | Custom(customName: string)
    | Alias(aliasName: string, aliased: Type)

  /** No two fields of a tuple type share a name. */
  predicate UniqueNames(fs: seq<TupleField>)
  {
    forall i, j :: 0 <= i < |fs| && 0 <= j < |fs| && i != j && fs[i].name.Some? ==> fs[i].name != fs[j].name
  }

  datatype EnumDecl = EnumDecl(enumName: string, variants: seq<string>)

  datatype SolveFunc = Satisfy | Minimize(objective: ExprKey) | Maximize(objective: ExprKey)

  /**
   * The compile errors these passes produce. `Panic` stands for the places
   * where the compiler aborts (`expect`, `unwrap`, `unreachable!`, `assert!`).
   */
  datatype CompileError =
    | Internal(msg: string)
    | Panic(reason: string)
    | NonConstArrayLength
    | InvalidConstArrayLength
    | NonConstArrayIndex
    | InvalidConstArrayIndex
    | ArrayIndexOutOfBounds
    | CannotIndexIntoValue
    | MismatchedArrayComparisonSizes(op: BinaryOp, lhsSize: int, rhsSize: int)
    | MissingSolveDirective
    | NameClash(sym: string)

  datatype Result<T> = Ok(value: T) | Err(error: CompileError)
  {
    predicate IsFailure() { Err? }

    function PropagateFailure<U>(): Result<U>
      requires Err?
    {
      Err(error)
    }

    function Extract(): T
      requires Ok?
    {
      value
    }
  }

  /**
   * Compile-time evaluation (`Expr::evaluate`): an immediate evaluates to
   * itself; every other expression is handed to `oracle`, which stands for
   * the evaluator and answers `None` when evaluation fails.
   */
  function Evaluate(e: Expr, oracle: Expr -> Option<Immediate>): Option<Immediate>
  {
    if e.Immediate? then Some(e.value) else oracle(e)
  }

  // ---------------------------------------------------------------------
  // Replacing one expression key by another

  function ReplaceKey(k: ExprKey, from: ExprKey, to: ExprKey): ExprKey
  {
    if k == from then to else k
  }

  /** Every sub-expression reference of `e` equal to `from` becomes `to`. */
  function ExprReplace(e: Expr, from: ExprKey, to: ExprKey): (r: Expr)
    ensures r.Immediate? == e.Immediate? && r.PathByName? == e.PathByName? && r.PathByKey? == e.PathByKey?
    ensures r.BinaryOpExpr? == e.BinaryOpExpr? && r.ArrayElementAccess? == e.ArrayElementAccess?
    ensures r.TupleFieldAccess? == e.TupleFieldAccess? && r.OtherExpr? == e.OtherExpr?
  {
    match e
    case BinaryOpExpr(op, lhs, rhs) => BinaryOpExpr(op, ReplaceKey(lhs, from, to), ReplaceKey(rhs, from, to))
    case ArrayElementAccess(indexed, index) => ArrayElementAccess(ReplaceKey(indexed, from, to), ReplaceKey(index, from, to))
    case TupleFieldAccess(tuple, field) => TupleFieldAccess(ReplaceKey(tuple, from, to), field)
    case OtherExpr(children) => OtherExpr(ReplaceKeys(children, from, to))
    case _ => e
  }

  /** `ExprReplace` applied to every expression of an arena. */
  function ReplaceInExprs(m: map<ExprKey, Expr>, from: ExprKey, to: ExprKey): (r: map<ExprKey, Expr>)
    ensures r.Keys == m.Keys && forall k :: k in m ==> r[k] == ExprReplace(m[k], from, to)
  {
    map k | k in m :: ExprReplace(m[k], from, to)
  }

  function SolveReplace(d: SolveFunc, from: ExprKey, to: ExprKey): SolveFunc
  {
    match d
    case Satisfy => Satisfy
    case Minimize(k) => Minimize(ReplaceKey(k, from, to))
    case Maximize(k) => Maximize(ReplaceKey(k, from, to))
  }

  function ReplaceKeys(ks: seq<ExprKey>, from: ExprKey, to: ExprKey): (r: seq<ExprKey>)
    ensures |r| == |ks| && forall i :: 0 <= i < |ks| ==> r[i] == ReplaceKey(ks[i], from, to)
  {
    seq(|ks|, i requires 0 <= i < |ks| => ReplaceKey(ks[i], from, to))
  }

  function ReplaceDirectives(ds: seq<SolveFunc>, from: ExprKey, to: ExprKey): (r: seq<SolveFunc>)
    ensures |r| == |ds| && forall i :: 0 <= i < |ds| ==> r[i] == SolveReplace(ds[i], from, to)
  {
    seq(|ds|, i requires 0 <= i < |ds| => SolveReplace(ds[i], from, to))
  }

  /** The sub-expression keys an expression refers to. */
  function ExprRefs(e: Expr): seq<ExprKey>
  {
    match e
    case BinaryOpExpr(_, lhs, rhs) => [lhs, rhs]
    case ArrayElementAccess(indexed, index) => [indexed, index]
    case TupleFieldAccess(tuple, _) => [tuple]
    case OtherExpr(children) => children
    case _ => []
  }

  /** After replacing `from` by a different key, no reference to `from` is left. */
  lemma ExprReplaceRemovesKey(e: Expr, from: ExprKey, to: ExprKey)
    requires from != to
    ensures from !in ExprRefs(ExprReplace(e, from, to))
  {
  }

  /** Replacing changes the references and nothing else: the references are replaced one by one, in place. */
  lemma ExprReplaceRefs(e: Expr, from: ExprKey, to: ExprKey)
    ensures var r := ExprRefs(ExprReplace(e, from, to));
      |r| == |ExprRefs(e)| && forall i :: 0 <= i < |r| ==> r[i] == ReplaceKey(ExprRefs(e)[i], from, to)
  {
  }

  /** Across a whole arena, replacing `from` by a different key leaves no expression referring to `from`. */
  lemma ReplaceInExprsRemovesKey(m: map<ExprKey, Expr>, from: ExprKey, to: ExprKey)
    requires from != to
    ensures forall k :: k in ReplaceInExprs(m, from, to) ==> from !in ExprRefs(ReplaceInExprs(m, from, to)[k])
  {
    forall k | k in ReplaceInExprs(m, from, to)
      ensures from !in ExprRefs(ReplaceInExprs(m, from, to)[k])
    {
      ExprReplaceRemovesKey(m[k], from, to);
    }
  }

  // ---------------------------------------------------------------------
  // A pass's replacements, made one after the other

  /** `k` after replacing `froms[0]` by `tos[0]`, then `froms[1]` by `tos[1]`, and so on. */
  function Renamed(k: ExprKey, froms: seq<ExprKey>, tos: seq<ExprKey>): ExprKey
    requires |froms| == |tos|
    decreases |froms|
  {
    if froms == [] then k
    else
      var n := |froms| - 1;
      ReplaceKey(Renamed(k, froms[..n], tos[..n]), froms[n], tos[n])
  }

  function RenamedKeys(ks: seq<ExprKey>, froms: seq<ExprKey>, tos: seq<ExprKey>): (r: seq<ExprKey>)
    requires |froms| == |tos|
    ensures |r| == |ks| && forall i :: 0 <= i < |ks| ==> r[i] == Renamed(ks[i], froms, tos)
  {
    seq(|ks|, i requires 0 <= i < |ks| => Renamed(ks[i], froms, tos))
  }

  /** `e` after the replacements, one after the other. */
  function RenamedExpr(e: Expr, froms: seq<ExprKey>, tos: seq<ExprKey>): Expr
    requires |froms| == |tos|
    decreases |froms|
  {
    if froms == [] then e
    else
      var n := |froms| - 1;
      ExprReplace(RenamedExpr(e, froms[..n], tos[..n]), froms[n], tos[n])
  }

  function RenamedDirective(d: SolveFunc, froms: seq<ExprKey>, tos: seq<ExprKey>): SolveFunc
    requires |froms| == |tos|
    decreases |froms|
  {
    if froms == [] then d
    else
      var n := |froms| - 1;
      SolveReplace(RenamedDirective(d, froms[..n], tos[..n]), froms[n], tos[n])
  }

  function RenamedDirectives(ds: seq<SolveFunc>, froms: seq<ExprKey>, tos: seq<ExprKey>): (r: seq<SolveFunc>)
    requires |froms| == |tos|
    ensures |r| == |ds| && forall i :: 0 <= i < |ds| ==> r[i] == RenamedDirective(ds[i], froms, tos)
  {
    seq(|ds|, i requires 0 <= i < |ds| => RenamedDirective(ds[i], froms, tos))
  }

  /** A key that is never replaced stays as it is. */
  lemma {:induction false} RenamedUntouched(k: ExprKey, froms: seq<ExprKey>, tos: seq<ExprKey>)
    requires |froms| == |tos| && k !in froms
    ensures Renamed(k, froms, tos) == k
  {
    if froms != [] {
      var n := |froms| - 1;
      assert froms == froms[..n] + [froms[n]];
      RenamedUntouched(k, froms[..n], tos[..n]);
    }
  }

  /** When no target is itself replaced, the result of the replacements is never a replaced key. */
  lemma {:induction false} RenamedAvoids(k: ExprKey, froms: seq<ExprKey>, tos: seq<ExprKey>)
    requires |froms| == |tos|
    requires forall i, j :: 0 <= i < |tos| && 0 <= j < |froms| ==> tos[i] != froms[j]
    ensures Renamed(k, froms, tos) !in froms
  {
    if froms != [] {
      var n := |froms| - 1;
      assert froms == froms[..n] + [froms[n]];
      RenamedAvoids(k, froms[..n], tos[..n]);
    }
  }

  /**
   * With distinct replaced keys and no target itself replaced, every
   * reference to `froms[i]` ends up a reference to `tos[i]`.
   */
  lemma {:induction false} RenamedHits(i: nat, froms: seq<ExprKey>, tos: seq<ExprKey>)
    requires |froms| == |tos| && i < |froms|
    requires forall a, b :: 0 <= a < b < |froms| ==> froms[a] != froms[b]
    requires forall a, b :: 0 <= a < |tos| && 0 <= b < |froms| ==> tos[a] != froms[b]
    ensures Renamed(froms[i], froms, tos) == tos[i]
  {
    var n := |froms| - 1;
    if i == n {
      RenamedUntouched(froms[n], froms[..n], tos[..n]);
    } else {
      RenamedHits(i, froms[..n], tos[..n]);
    }
  }

  /** The replacements change an expression's references one by one, in place. */
  lemma {:induction false} RenamedExprRefs(e: Expr, froms: seq<ExprKey>, tos: seq<ExprKey>)
    requires |froms| == |tos|
    ensures ExprRefs(RenamedExpr(e, froms, tos)) == RenamedKeys(ExprRefs(e), froms, tos)
  {
    if froms != [] {
      var n := |froms| - 1;
      RenamedExprRefs(e, froms[..n], tos[..n]);
      ExprReplaceRefs(RenamedExpr(e, froms[..n], tos[..n]), froms[n], tos[n]);
    }
  }

  /** The replacements change a directive's objective, and nothing else. */
  lemma {:induction false} RenamedDirectiveObjective(d: SolveFunc, froms: seq<ExprKey>, tos: seq<ExprKey>)
    requires |froms| == |tos|
    ensures RenamedDirective(d, froms, tos).Satisfy? == d.Satisfy?
    ensures RenamedDirective(d, froms, tos).Minimize? == d.Minimize?
    ensures !d.Satisfy? ==> RenamedDirective(d, froms, tos).objective == Renamed(d.objective, froms, tos)
  {
    if froms != [] {
      var n := |froms| - 1;
      RenamedDirectiveObjective(d, froms[..n], tos[..n]);
    }
  }

  /** The `n` keys a pass hands out from `base` on, in order. */
  function FreshKeys(base: nat, n: nat): (r: seq<ExprKey>)
    ensures |r| == n && forall i :: 0 <= i < n ==> r[i] == base + i
  {
    seq(n, i requires 0 <= i < n => base + i)
  }

  // ---------------------------------------------------------------------
  // The expression side of an intent, as a value

  /** Everything the expression rewrites of a pass read and change. */
  datatype ExprArena = ExprArena(exprs: map<ExprKey, Expr>, exprTypes: map<ExprKey, Type>, nextExpr: nat,
                                 constraints: seq<ExprKey>, directives: seq<SolveFunc>)

  /**
   * One replacement: below `s.nextExpr`, `t` holds the expressions of `s`
   * with `from` replaced by `to`, and neither `from` nor its type; anything
   * `t` holds from `s.nextExpr` on was added.
   */
  ghost predicate ReplacedFrom(s: ExprArena, t: ExprArena, from: ExprKey, to: ExprKey)
  {
    && s.nextExpr <= t.nextExpr
    && (forall k :: k < s.nextExpr ==> (k in t.exprs <==> k in s.exprs && k != from))
    && (forall k :: k in s.exprs && k in t.exprs && k < s.nextExpr ==> t.exprs[k] == ExprReplace(s.exprs[k], from, to))
    && (forall k :: k < s.nextExpr ==> (k in t.exprTypes <==> k in s.exprTypes && k != from))
    && (forall k :: k in s.exprTypes && k in t.exprTypes && k < s.nextExpr ==> t.exprTypes[k] == s.exprTypes[k])
    && t.constraints == ReplaceKeys(s.constraints, from, to)
    && t.directives == ReplaceDirectives(s.directives, from, to)
  }

  /**
   * A whole pass: below `s.nextExpr`, `t` holds the expressions of `s` with
   * every `froms[i]` replaced by `tos[i]` in turn, and none of the `froms`;
   * the constraints and directives are replaced alike.
   */
  ghost predicate RenamedFrom(s: ExprArena, t: ExprArena, froms: seq<ExprKey>, tos: seq<ExprKey>)
  {
    && |froms| == |tos|
    && s.nextExpr <= t.nextExpr
    && (forall i :: 0 <= i < |froms| ==> froms[i] < s.nextExpr)
    && (forall k :: k < s.nextExpr ==> (k in t.exprs <==> k in s.exprs && k !in froms))
    && (forall k :: k in s.exprs && k in t.exprs && k < s.nextExpr ==> t.exprs[k] == RenamedExpr(s.exprs[k], froms, tos))
    && (forall k :: k < s.nextExpr ==> (k in t.exprTypes <==> k in s.exprTypes && k !in froms))
    && (forall k :: k in s.exprTypes && k in t.exprTypes && k < s.nextExpr ==> t.exprTypes[k] == s.exprTypes[k])
    && t.constraints == RenamedKeys(s.constraints, froms, tos)
    && t.directives == RenamedDirectives(s.directives, froms, tos)
  }

  /** The state after applying `step` to the first `n` items of `xs` in order, or the first error a step returns. */
  function FoldSteps<S, T>(s: S, step: (S, T) -> Result<S>, xs: seq<T>, n: nat): Result<S>
    requires n <= |xs|
  {
    if n == 0 then Ok(s)
    else
      var prev := FoldSteps(s, step, xs, n - 1);
      if prev.Err? then prev else step(prev.value, xs[n - 1])
  }

  /** Once a step fails, folding every longer prefix fails the same way. */
  lemma {:induction false} FoldStepsFailureStays<S, T>(s: S, step: (S, T) -> Result<S>, xs: seq<T>, m: nat, n: nat)
    requires m <= n <= |xs|
    requires FoldSteps(s, step, xs, m).Err?
    ensures FoldSteps(s, step, xs, n) == FoldSteps(s, step, xs, m)
    decreases n - m
  {
    if m < n {
      FoldStepsFailureStays(s, step, xs, m, n - 1);
    }
  }

  /** A successful step extends a successful fold of a prefix by one item. */
  lemma FoldStepsExtends<S, T>(s: S, step: (S, T) -> Result<S>, xs: seq<T>, n: nat, t: S, u: S)
    requires n < |xs|
    requires FoldSteps(s, step, xs, n) == Ok(t) && step(t, xs[n]) == Ok(u)
    ensures FoldSteps(s, step, xs, n + 1) == Ok(u)
  {
  }

  /** A failed step after a successful prefix is the failure of the whole fold. */
  lemma FoldStepsFails<S, T>(s: S, step: (S, T) -> Result<S>, xs: seq<T>, n: nat, t: S, e: CompileError)
    requires n < |xs|
    requires FoldSteps(s, step, xs, n) == Ok(t) && step(t, xs[n]) == Err(e)
    ensures FoldSteps(s, step, xs, |xs|) == Err(e)
  {
    FoldStepsFailureStays(s, step, xs, n + 1, |xs|);
  }

  /** Going from `t` to `u` removed key `k`, added keys only from `t`'s counter on and did not move the counter down. */
  ghost predicate RemovesKey(t: ExprArena, k: ExprKey, u: ExprArena)
  {
    && u.nextExpr >= t.nextExpr
    && k !in u.exprs
    && forall j :: j in u.exprs && j < t.nextExpr ==> j in t.exprs
  }

  /**
   * When every successful step removes its item's key, a successful fold
   * adds no key below the counter it started from and removes the key `k`
   * when one of the folded items has it.
   */
  lemma {:induction false} FoldStepsKey<T>(s: ExprArena, step: (ExprArena, T) -> Result<ExprArena>, key: T -> ExprKey,
                                           xs: seq<T>, n: nat, t: ExprArena, k: ExprKey)
    requires n <= |xs| && k < s.nextExpr
    requires forall u, x :: step(u, x).Ok? ==> RemovesKey(u, key(x), step(u, x).value)
    requires FoldSteps(s, step, xs, n) == Ok(t)
    ensures t.nextExpr >= s.nextExpr
    ensures k in t.exprs ==> k in s.exprs
    ensures forall j :: 0 <= j < n && key(xs[j]) == k ==> k !in t.exprs
  {
    if n > 0 {
      var prev := FoldSteps(s, step, xs, n - 1).value;
      FoldStepsKey(s, step, key, xs, n - 1, prev, k);
      assert RemovesKey(prev, key(xs[n - 1]), t);
    }
  }

  /** When every successful step removes its item's key, a successful fold of items below the counter removes all their keys. */
  lemma FoldStepsKeysGone<T>(s: ExprArena, step: (ExprArena, T) -> Result<ExprArena>, key: T -> ExprKey, xs: seq<T>, t: ExprArena)
    requires forall j :: 0 <= j < |xs| ==> key(xs[j]) < s.nextExpr
    requires forall u, x :: step(u, x).Ok? ==> RemovesKey(u, key(x), step(u, x).value)
    requires FoldSteps(s, step, xs, |xs|) == Ok(t)
    ensures forall j :: 0 <= j < |xs| ==> key(xs[j]) !in t.exprs
  {
    forall j | 0 <= j < |xs|
      ensures key(xs[j]) !in t.exprs
    {
      FoldStepsKey(s, step, key, xs, |xs|, t, key(xs[j]));
    }
  }

  /** No replacement at all. */
  lemma RenamedFromNone(s: ExprArena)
    ensures RenamedFrom(s, s, [], [])
  {
    assert RenamedKeys(s.constraints, [], []) == s.constraints;
    assert RenamedDirectives(s.directives, [], []) == s.directives;
  }

  /** A pass over the first `n - 1` replacements followed by replacement `n - 1` is the pass over the first `n`. */
  lemma RenamedFromStep(s: ExprArena, t: ExprArena, u: ExprArena, froms: seq<ExprKey>, tos: seq<ExprKey>, n: nat)
    requires 0 < n <= |froms| == |tos|
    requires RenamedFrom(s, t, froms[..n - 1], tos[..n - 1]) && ReplacedFrom(t, u, froms[n - 1], tos[n - 1])
    requires froms[n - 1] < s.nextExpr
    ensures RenamedFrom(s, u, froms[..n], tos[..n])
  {
    var f, g := froms[..n - 1], tos[..n - 1];
    var f', g' := froms[..n], tos[..n];
    assert f'[..n - 1] == f && g'[..n - 1] == g;
    assert f' == f + [froms[n - 1]];
    forall k | k in s.exprs && k in u.exprs && k < s.nextExpr
      ensures u.exprs[k] == RenamedExpr(s.exprs[k], f', g')
    {
    }
    assert u.constraints == RenamedKeys(s.constraints, f', g');
    assert u.directives == RenamedDirectives(s.directives, f', g');
  }

  /**
   * After a pass whose targets are never themselves replaced, nothing the
   * pass started with refers to a replaced key any more: not an expression,
   * not a constraint, not a directive.
   */
  lemma RenamedFromNoDangling(s: ExprArena, t: ExprArena, froms: seq<ExprKey>, tos: seq<ExprKey>)
    requires RenamedFrom(s, t, froms, tos)
    requires forall i, j :: 0 <= i < |tos| && 0 <= j < |froms| ==> tos[i] != froms[j]
    ensures forall k, j :: k in t.exprs && k < s.nextExpr && 0 <= j < |ExprRefs(t.exprs[k])| ==> ExprRefs(t.exprs[k])[j] !in froms
    ensures forall j :: 0 <= j < |t.constraints| ==> t.constraints[j] !in froms
    ensures forall j :: 0 <= j < |t.directives| && !t.directives[j].Satisfy? ==> t.directives[j].objective !in froms
  {
    forall k, j | k in t.exprs && k < s.nextExpr && 0 <= j < |ExprRefs(t.exprs[k])|
      ensures ExprRefs(t.exprs[k])[j] !in froms
    {
      RenamedExprRefs(s.exprs[k], froms, tos);
      RenamedAvoids(ExprRefs(s.exprs[k])[j], froms, tos);
    }
    forall j | 0 <= j < |t.constraints|
      ensures t.constraints[j] !in froms
    {
      RenamedAvoids(s.constraints[j], froms, tos);
    }
    forall j | 0 <= j < |t.directives| && !t.directives[j].Satisfy?
      ensures t.directives[j].objective !in froms
    {
      RenamedDirectiveObjective(s.directives[j], froms, tos);
      RenamedAvoids(s.directives[j].objective, froms, tos);
    }
  }

  /** An enum declaration's variant count, if some enum is declared under `name` (the first one wins). */
  function EnumVariantCount(enums: seq<EnumDecl>, name: string): (r: Option<nat>)
    ensures r.Some? <==> exists i :: 0 <= i < |enums| && enums[i].enumName == name
  {
    if enums == [] then None
    else if enums[0].enumName == name then Some(|enums[0].variants|)
    else
      var r := EnumVariantCount(enums[1..], name);
      assert forall i :: 1 <= i < |enums| ==> enums[i] == enums[1..][i - 1];
      r
  }

  // ---------------------------------------------------------------------
  // The intent and its arenas

  class Intent {
    /** Decision variables: name by key. */
    var vars: map<VarKey, string>
    var varTypes: map<VarKey, Type>
    var exprs: map<ExprKey, Expr>
    var exprTypes: map<ExprKey, Type>
    /** Constraints, each the key of a boolean expression. */
    var constraints: seq<ExprKey>
    var directives: seq<SolveFunc>
    var enums: seq<EnumDecl>
    /** The top-level names declared so far (variables, functions, ...): a second declaration clashes. */
    var symbols: set<string>
    /** The next fresh key of each arena: keys are handed out in increasing order and never reused. */
    var nextVar: nat
    var nextExpr: nat

    /** The expression side of the intent, as a value. */
    function Arena(): ExprArena
      reads this
    {
      ExprArena(exprs, exprTypes, nextExpr, constraints, directives)
    }

    /** Every key in use was handed out before the counters. */
    predicate Valid()
      reads this
    {
      && (forall k :: k in vars ==> k < nextVar)
      && (forall k :: k in varTypes ==> k < nextVar)
      && (forall k :: k in exprs ==> k < nextExpr)
      && (forall k :: k in exprTypes ==> k < nextExpr)
    }

    constructor (enums: seq<EnumDecl>)
      ensures Valid()
      ensures vars == map[] && varTypes == map[] && exprs == map[] && exprTypes == map[]
      ensures constraints == [] && directives == [] && this.enums == enums && symbols == {}
      ensures nextVar == 0 && nextExpr == 0
    {
      vars, varTypes, exprs, exprTypes := map[], map[], map[], map[];
      constraints, directives := [], [];
      symbols := {};
      this.enums := enums;
      nextVar, nextExpr := 0, 0;
    }

    /** Inserts a variable under a fresh key and records its type. */
    method InsertVar(name: string, ty: Type) returns (k: VarKey)
      requires Valid()
      modifies this`vars, this`varTypes, this`nextVar
      ensures Valid()
      ensures k == old(nextVar) && nextVar == old(nextVar) + 1
      ensures vars == old(vars)[k := name] && varTypes == old(varTypes)[k := ty]
    {
      k := nextVar;
      vars := vars[k := name];
      varTypes := varTypes[k := ty];
      nextVar := nextVar + 1;
    }

    /**
     * `insert_var`: declares a named variable of the given type. A name
     * already declared clashes and nothing changes; otherwise the name is
     * recorded and the variable inserted under a fresh key.
     */
    method DeclareVar(name: string, ty: Type) returns (r: Result<VarKey>)
      requires Valid()
      modifies this`vars, this`varTypes, this`nextVar, this`symbols
      ensures Valid()
      ensures name in old(symbols) ==> r == Err(NameClash(name)) && unchanged(this)
      ensures name !in old(symbols) ==>
        && r == Ok(old(nextVar)) && nextVar == old(nextVar) + 1
        && vars == old(vars)[r.value := name] && varTypes == old(varTypes)[r.value := ty]
        && symbols == old(symbols) + {name}
    {
      if name in symbols {
        return Err(NameClash(name));
      }
      var k := InsertVar(name, ty);
      symbols := symbols + {name};
      r := Ok(k);
    }

    /** Inserts an expression under a fresh key; no type is recorded. */
    method InsertExpr(e: Expr) returns (k: ExprKey)
      requires Valid()
      modifies this`exprs, this`nextExpr
      ensures Valid()
      ensures k == old(nextExpr) && nextExpr == old(nextExpr) + 1
      ensures exprs == old(exprs)[k := e]
    {
      k := nextExpr;
      exprs := exprs[k := e];
      nextExpr := nextExpr + 1;
    }

    /** Inserts an expression under a fresh key together with its type. */
    method InsertTypedExpr(e: Expr, ty: Type) returns (k: ExprKey)
      requires Valid()
      modifies this`exprs, this`exprTypes, this`nextExpr
      ensures Valid()
      ensures k == old(nextExpr) && nextExpr == old(nextExpr) + 1
      ensures exprs == old(exprs)[k := e] && exprTypes == old(exprTypes)[k := ty]
    {
      k := nextExpr;
      exprs := exprs[k := e];
      exprTypes := exprTypes[k := ty];
      nextExpr := nextExpr + 1;
    }

    /** Records (or overwrites) the type of an expression already in the arena's key range. */
    method SetExprType(k: ExprKey, ty: Type)
      requires Valid() && k < nextExpr
      modifies this`exprTypes
      ensures Valid()
      ensures exprTypes == old(exprTypes)[k := ty]
    {
      exprTypes := exprTypes[k := ty];
    }

    /**
     * `replace_exprs`: every reference to `from` (inside expressions, in
     * the constraints and in the directives) becomes a reference to `to`.
     */
    method ReplaceExprs(from: ExprKey, to: ExprKey)
      requires Valid()
      modifies this`exprs, this`constraints, this`directives
      ensures Valid()
      ensures exprs == ReplaceInExprs(old(exprs), from, to)
      ensures constraints == ReplaceKeys(old(constraints), from, to)
      ensures directives == ReplaceDirectives(old(directives), from, to)
    {
      exprs := ReplaceInExprs(exprs, from, to);
      constraints := ReplaceKeys(constraints, from, to);
      directives := ReplaceDirectives(directives, from, to);
    }

    /** Replaces `from` by `to` everywhere, then drops `from` and its type from the arena. */
    method ReplaceAndRemove(from: ExprKey, to: ExprKey)
      requires Valid()
      modifies this`exprs, this`exprTypes, this`constraints, this`directives
      ensures Valid()
      ensures exprs == ReplaceInExprs(old(exprs), from, to) - {from}
      ensures exprTypes == old(exprTypes) - {from}
      ensures constraints == ReplaceKeys(old(constraints), from, to)
      ensures directives == ReplaceDirectives(old(directives), from, to)
    {
      ReplaceExprs(from, to);
      exprs := exprs - {from};
      exprTypes := exprTypes - {from};
    }

    /** Removes a variable and its type. */
    method RemoveVar(k: VarKey)
      requires Valid()
      modifies this`vars, this`varTypes
      ensures Valid()
      ensures vars == old(vars) - {k} && varTypes == old(varTypes) - {k}
    {
      vars := vars - {k};
      varTypes := varTypes - {k};
    }
  }
}
