/**
 * Canonicalisation of the solve directive (`canonicalize_directive`): a
 * `minimize e` or `maximize e` directive becomes `minimize __objective` or
 * `maximize __objective`, with a new decision variable `__objective` typed
 * like `e` and a new constraint `__objective == e`. A `satisfy` directive is
 * left alone.
 */
module Canonicalize {
  import opened Intermediate

  const ObjectiveName: string := "__objective"
  const InvalidExprTypeKeyMsg: string := "invalid intermediate intent expression_types slotmap key"

  /** The directive of the same kind, optimising the expression at `k` instead. */
  function WithObjective(d: SolveFunc, k: ExprKey): (r: SolveFunc)
    requires !d.Satisfy?
    ensures r.Minimize? == d.Minimize? && r.Maximize? == d.Maximize?
    ensures r.objective == k
  {
    if d.Minimize? then Minimize(k) else Maximize(k)
  }

  /**
   * Rewrites the first directive. No directive is `MissingSolveDirective`;
   * an objective without a recorded type is an internal error; a name clash
   * on `__objective` is propagated. The errors are all raised before
   * anything changes.
   */
  method CanonicalizeDirective(ii: Intent) returns (r: Result<()>)
    requires ii.Valid()
    modifies ii
    ensures ii.Valid()
    ensures old(ii.directives) == [] ==> r == Err(MissingSolveDirective) && unchanged(ii)
    ensures old(ii.directives) != [] && old(ii.directives[0]).Satisfy? ==> r == Ok(()) && unchanged(ii)
    ensures old(ii.directives) != [] && !old(ii.directives[0]).Satisfy? ==>
      var objective := old(ii.directives[0]).objective;
      && (objective !in old(ii.exprTypes) ==> r == Err(Internal(InvalidExprTypeKeyMsg)) && unchanged(ii))
      && (objective in old(ii.exprTypes) && ObjectiveName in old(ii.symbols) ==>
            r == Err(NameClash(ObjectiveName)) && unchanged(ii))
      && (objective in old(ii.exprTypes) && ObjectiveName !in old(ii.symbols) ==>
            var ty := old(ii.exprTypes)[objective];
            var path := old(ii.nextExpr);
            && r == Ok(())
            // the variable `__objective`, typed like the objective
            && ii.nextVar == old(ii.nextVar) + 1
            && ii.vars == old(ii.vars)[old(ii.nextVar) := ObjectiveName]
            && ii.varTypes == old(ii.varTypes)[old(ii.nextVar) := ty]
            && ii.symbols == old(ii.symbols) + {ObjectiveName}
            // the path to it, and the constraint equating it with the objective
            && ii.nextExpr == path + 2
            && ii.exprs == old(ii.exprs)[path := PathByName(ObjectiveName)][path + 1 := BinaryOpExpr(Equal, path, objective)]
            && ii.exprTypes == old(ii.exprTypes)[path := ty][path + 1 := Primitive(Bool)]
            && ii.constraints == old(ii.constraints) + [path + 1]
            // the directive keeps its kind and optimises the path instead
            && ii.directives == old(ii.directives)[0 := WithObjective(old(ii.directives[0]), path)]
            && ii.enums == old(ii.enums))
    // What it means: the rewritten directive optimises a path to `__objective`,
    // typed like the original objective, and the one new constraint is the
    // boolean equality of that path with the original objective.
    ensures r.Ok? && old(ii.directives) != [] && !old(ii.directives[0]).Satisfy? ==>
      && ii.directives != [] && !ii.directives[0].Satisfy?
      && ii.directives[0].Minimize? == old(ii.directives[0]).Minimize?
      && var objective := old(ii.directives[0]).objective;
      && var path := ii.directives[0].objective;
      && path !in old(ii.exprs) && path in ii.exprs && ii.exprs[path] == PathByName(ObjectiveName)
      && objective in old(ii.exprTypes) && path in ii.exprTypes && ii.exprTypes[path] == old(ii.exprTypes)[objective]
      && ii.constraints != [] && ii.constraints[..|ii.constraints| - 1] == old(ii.constraints)
      && var eq := ii.constraints[|ii.constraints| - 1];
      && eq in ii.exprs && ii.exprs[eq] == BinaryOpExpr(Equal, path, objective)
      && eq in ii.exprTypes && ii.exprTypes[eq] == Primitive(Bool)
      // so that canonicalising a second time clashes
      && ObjectiveName in ii.symbols
  {
    if ii.directives == [] {
      return Err(MissingSolveDirective);
    }
    var solveFunc := ii.directives[0];
    if solveFunc.Satisfy? {
      return Ok(());
    }
    var objective := solveFunc.objective;
    if objective !in ii.exprTypes {
      return Err(Internal(InvalidExprTypeKeyMsg));
    }
    var ty := ii.exprTypes[objective];
    var declared := ii.DeclareVar(ObjectiveName, ty);
    if declared.Err? {
      return Err(declared.error);
    }
    ConstrainObjective(ii, solveFunc, ty);
    r := Ok(());
  }

  /**
   * The second half of `CanonicalizeDirective`, once `__objective` is
   * declared: adds the path to it and the constraint equating it with the
   * objective, and points the directive at the path.
   */
  method ConstrainObjective(ii: Intent, solveFunc: SolveFunc, ty: Type)
    requires ii.Valid() && ii.directives != [] && !solveFunc.Satisfy?
    modifies ii`exprs, ii`exprTypes, ii`nextExpr, ii`constraints, ii`directives
    ensures ii.Valid()
    ensures var path := old(ii.nextExpr);
      && ii.nextExpr == path + 2
      && ii.exprs == old(ii.exprs)[path := PathByName(ObjectiveName)][path + 1 := BinaryOpExpr(Equal, path, solveFunc.objective)]
      && ii.exprTypes == old(ii.exprTypes)[path := ty][path + 1 := Primitive(Bool)]
      && ii.constraints == old(ii.constraints) + [path + 1]
      && ii.directives == old(ii.directives)[0 := WithObjective(solveFunc, path)]
  {
    var path := ii.InsertTypedExpr(PathByName(ObjectiveName), ty);
    var eq := ii.InsertTypedExpr(BinaryOpExpr(Equal, path, solveFunc.objective), Primitive(Bool));
    ii.constraints := ii.constraints + [eq];
    ii.directives := ii.directives[0 := WithObjective(solveFunc, path)];
  }
}
