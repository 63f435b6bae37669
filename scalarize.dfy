/**
 * Scalarisation in the newer `yurtc` pipeline: array sizes are fixed from
 * their range expressions; array variables become one variable per element
 * and constant-index accesses become references to those; array and tuple
 * `==`/`!=` become chains of element comparisons; tuple variables are
 * split into one variable per field. Every step is a fixpoint loop with a
 * hard iteration bound.
 */
module Scalarize {
  import opened Util
  import opened Intermediate

  const UnsupportedElementMsg := "only arrays of ints, reals, and bools are currently supported"
  const NonFixedSizeMsg := "non-fixed array size found in scalarize_array()"
  const MissingArrayNameMsg := "missing name for array variable in scalarize_array()"
  const MissingCompareSizeMsg := "array type in missing its size in lower_array_compares()"
  const MissingVarTypeMsg := "missing var type in split_tuple_vars"
  const ExprKeyExists := "expr key guaranteed to exist"
  /** The iteration bound of every fixpoint loop: the loop fails once the pass still reports progress after this many rounds. */
  const IterationBound := 10000

  // ---------------------------------------------------------------------
  // Array parameters and sizes

  datatype ArrayParams = ArrayParams(elem: Type, range: ExprKey, size: Option<int>)

  /** `get_array_params`: the element type, range and size of an array type, looking through aliases. */
  function GetArrayParams(t: Type): Option<ArrayParams>
  {
    match t
    case Alias(_, inner) => GetArrayParams(inner)
    case Array(elem, range, size) => Some(ArrayParams(elem, range, size))
    case _ => None
  }

  /** The type under any number of alias wrappers. */
  function Unaliased(t: Type): (u: Type)
    ensures !u.Alias?
  {
    if t.Alias? then Unaliased(t.aliased) else t
  }

  /** An alias chain ending in an array yields that array's parameters; every other type yields none. */
  lemma {:induction false} GetArrayParamsUnaliased(t: Type)
    ensures GetArrayParams(t).Some? <==> Unaliased(t).Array?
    ensures GetArrayParams(t).Some? ==>
      GetArrayParams(t).value == ArrayParams(Unaliased(t).elem, Unaliased(t).range, Unaliased(t).size)
  {
    if t.Alias? {
      GetArrayParamsUnaliased(t.aliased);
    }
  }

  /** The element types scalarisation supports: arrays, ints, reals and bools. */
  predicate SupportedElement(t: Type)
  {
    t.Array? || t == Primitive(Int) || t == Primitive(Real) || t == Primitive(Bool)
  }

  /**
   * `fix_array_size`: the array type of element `elTy` whose length is
   * given by the expression `range`. A nested array with no size is fixed
   * first. A range that names an enum gives that enum's variant count; any
   * other name fails with NonConstArrayLength. Any other range must
   * evaluate to a positive integer.
   */
  function FixArraySize(exprs: map<ExprKey, Expr>, enums: seq<EnumDecl>, oracle: Expr -> Option<Immediate>,
                        elTy: Type, range: ExprKey): (r: Result<Type>)
    ensures r.Ok? ==> r.value.Array? && r.value.range == range && r.value.size.Some?
    decreases elTy
  {
    if !SupportedElement(elTy) then Err(Internal(UnsupportedElementMsg))
    else
      var fixedEl :- if elTy.Array? && elTy.size.None? then FixArraySize(exprs, enums, oracle, elTy.elem, elTy.range) else Ok(elTy);
      if range !in exprs then Err(Panic(ExprKeyExists))
      else if exprs[range].PathByName? then
        var count := EnumVariantCount(enums, exprs[range].path);
        if count.Some? then Ok(Array(fixedEl, range, Some(count.value))) else Err(NonConstArrayLength)
      else
        match Evaluate(exprs[range], oracle)
        case Some(IntImm(v)) => if v > 0 then Ok(Array(fixedEl, range, Some(v))) else Err(InvalidConstArrayLength)
        case Some(_) => Err(InvalidConstArrayLength)
        case None => Err(NonConstArrayLength)
  }

  /**
   * The size a range expression gives, once the element type has been
   * fixed: the enum's variant count for a name, otherwise a positive
   * integer value; the errors are exactly those of the source.
   */
  lemma FixArraySizeOutcome(exprs: map<ExprKey, Expr>, enums: seq<EnumDecl>, oracle: Expr -> Option<Immediate>,
                            elTy: Type, range: ExprKey)
    requires SupportedElement(elTy) && range in exprs
    requires elTy.Array? && elTy.size.None? ==> FixArraySize(exprs, enums, oracle, elTy.elem, elTy.range).Ok?
    ensures var r := FixArraySize(exprs, enums, oracle, elTy, range);
      var e := exprs[range];
      var v := Evaluate(e, oracle);
      && (e.PathByName? ==>
            && (r.Ok? <==> EnumVariantCount(enums, e.path).Some?)
            && (r.Ok? ==> r.value.size == Some(EnumVariantCount(enums, e.path).value as int))
            && (r.Err? ==> r.error == NonConstArrayLength))
      && (!e.PathByName? ==>
            && (r.Ok? <==> v.Some? && v.value.IntImm? && v.value.intValue > 0)
            && (r.Ok? ==> r.value.size == Some(v.value.intValue))
            && (v.None? ==> r == Err(NonConstArrayLength))
            && (v.Some? && !(v.value.IntImm? && v.value.intValue > 0) ==> r == Err(InvalidConstArrayLength)))
  {
  }

  /** A type whose arrays, at every depth, all have a size. */
  predicate Fixed(t: Type)
  {
    match t
    case Array(elem, _, size) => size.Some? && Fixed(elem)
    case _ => true
  }

  /** A type in which an array that already has a size has fixed elements all the way down. */
  predicate Fixable(t: Type)
  {
    match t
    case Array(elem, _, size) => if size.None? then Fixable(elem) else Fixed(elem)
    case _ => true
  }

  /** Fixing an array of a fixable element type leaves no array without a size, at any depth. */
  lemma {:induction false} FixArraySizeFixed(exprs: map<ExprKey, Expr>, enums: seq<EnumDecl>, oracle: Expr -> Option<Immediate>,
                                             elTy: Type, range: ExprKey)
    requires Fixable(elTy)
    requires FixArraySize(exprs, enums, oracle, elTy, range).Ok?
    ensures Fixed(FixArraySize(exprs, enums, oracle, elTy, range).value)
    decreases elTy
  {
    if elTy.Array? && elTy.size.None? {
      FixArraySizeFixed(exprs, enums, oracle, elTy.elem, elTy.range);
    }
  }

  /** A type whose array parameters still lack a size. */
  predicate Unfixed(t: Type)
  {
    GetArrayParams(t).Some? && GetArrayParams(t).value.size.None?
  }

  /** What `fix_array_sizes` makes of one type: an unfixed array is replaced by its fixed array type, anything else is kept. */
  function FixedType(exprs: map<ExprKey, Expr>, enums: seq<EnumDecl>, oracle: Expr -> Option<Immediate>, t: Type): (r: Result<Type>)
    ensures r.Ok? ==> !Unfixed(r.value)
    ensures !Unfixed(t) ==> r == Ok(t)
  {
    if Unfixed(t) then
      var p := GetArrayParams(t).value;
      FixArraySize(exprs, enums, oracle, p.elem, p.range)
    else Ok(t)
  }

  /**
   * `fix_array_sizes`: the type of every variable, then of every
   * expression, that is an array without a size is replaced by its fixed
   * array type (alias wrapper included). Stops at the first failure.
   */
  method FixArraySizes(ii: Intent, oracle: Expr -> Option<Immediate>) returns (r: Result<()>)
    requires ii.Valid()
    modifies ii`varTypes, ii`exprTypes
    ensures ii.Valid()
    ensures ii.varTypes.Keys == old(ii.varTypes.Keys) && ii.exprTypes.Keys == old(ii.exprTypes.Keys)
    ensures r.Ok? ==> forall k :: k in ii.varTypes ==>
      if k in ii.vars then FixedType(ii.exprs, ii.enums, oracle, old(ii.varTypes)[k]) == Ok(ii.varTypes[k])
      else ii.varTypes[k] == old(ii.varTypes)[k]
    ensures r.Ok? ==> forall k :: k in ii.exprTypes ==>
      if k in ii.exprs then FixedType(ii.exprs, ii.enums, oracle, old(ii.exprTypes)[k]) == Ok(ii.exprTypes[k])
      else ii.exprTypes[k] == old(ii.exprTypes)[k]
    ensures r.Ok? ==> forall k :: k in ii.vars && k in ii.varTypes ==> !Unfixed(ii.varTypes[k])
    ensures r.Err? ==>
      || (&& ii.exprTypes == old(ii.exprTypes)
          && exists k ::
               && LeastFailure(ii.exprs, ii.enums, oracle, ii.vars.Keys, old(ii.varTypes), k, r.error)
               && TypesFixedBelow(ii.exprs, ii.enums, oracle, ii.vars.Keys, old(ii.varTypes), ii.varTypes, k))
      || (&& AllFix(ii.exprs, ii.enums, oracle, ii.vars.Keys, old(ii.varTypes))
          && TypesFixedBelow(ii.exprs, ii.enums, oracle, ii.vars.Keys, old(ii.varTypes), ii.varTypes, ii.nextVar)
          && exists k ::
               && LeastFailure(ii.exprs, ii.enums, oracle, ii.exprs.Keys, old(ii.exprTypes), k, r.error)
               && TypesFixedBelow(ii.exprs, ii.enums, oracle, ii.exprs.Keys, old(ii.exprTypes), ii.exprTypes, k))
  {
    r := FixVarTypes(ii, oracle);
    if r.Err? {
      return;
    }
    r := FixExprTypes(ii, oracle);
  }

  /** The variable loop of `fix_array_sizes`. */
  /**
   * `after` is `before` with the type of every key of `keys` below `i`
   * fixed, and every other type as it was.
   */
  predicate TypesFixedBelow(exprs: map<ExprKey, Expr>, enums: seq<EnumDecl>, oracle: Expr -> Option<Immediate>,
                            keys: set<nat>, before: map<nat, Type>, after: map<nat, Type>, i: nat)
  {
    && after.Keys == before.Keys
    && forall k :: k in after ==>
         if k in keys && k < i then FixedType(exprs, enums, oracle, before[k]) == Ok(after[k])
         else after[k] == before[k]
  }

  lemma TypesFixedStep(exprs: map<ExprKey, Expr>, enums: seq<EnumDecl>, oracle: Expr -> Option<Immediate>,
                       keys: set<nat>, before: map<nat, Type>, after: map<nat, Type>, i: nat, t: Type)
    requires TypesFixedBelow(exprs, enums, oracle, keys, before, after, i)
    requires i in keys && i in after && FixedType(exprs, enums, oracle, after[i]) == Ok(t)
    ensures TypesFixedBelow(exprs, enums, oracle, keys, before, after[i := t], i + 1)
  {
  }

  lemma TypesFixedSkip(exprs: map<ExprKey, Expr>, enums: seq<EnumDecl>, oracle: Expr -> Option<Immediate>,
                       keys: set<nat>, before: map<nat, Type>, after: map<nat, Type>, i: nat)
    requires TypesFixedBelow(exprs, enums, oracle, keys, before, after, i)
    requires !(i in keys && i in after)
    ensures TypesFixedBelow(exprs, enums, oracle, keys, before, after, i + 1)
  {
  }

  /** Every candidate of `keys` has a fixed type. */
  predicate AllFix(exprs: map<ExprKey, Expr>, enums: seq<EnumDecl>, oracle: Expr -> Option<Immediate>,
                   keys: set<nat>, types: map<nat, Type>)
  {
    forall k :: k in keys && k in types ==> FixedType(exprs, enums, oracle, types[k]).Ok?
  }

  /**
   * `k` is the first candidate in key order whose type cannot be fixed,
   * and `e` is its error: every candidate below `k` fixes.
   */
  predicate LeastFailure(exprs: map<ExprKey, Expr>, enums: seq<EnumDecl>, oracle: Expr -> Option<Immediate>,
                         keys: set<nat>, types: map<nat, Type>, k: nat, e: CompileError)
  {
    && k in keys && k in types
    && FixedType(exprs, enums, oracle, types[k]) == Err(e)
    && forall j :: j in keys && j in types && j < k ==> FixedType(exprs, enums, oracle, types[j]).Ok?
  }

  /** The variable loop of `fix_array_sizes`. */
  method FixVarTypes(ii: Intent, oracle: Expr -> Option<Immediate>) returns (r: Result<()>)
    requires ii.Valid()
    modifies ii`varTypes
    ensures ii.Valid()
    ensures ii.varTypes.Keys == old(ii.varTypes.Keys)
    ensures r.Ok? ==> forall k :: k in ii.varTypes ==>
      if k in ii.vars then FixedType(ii.exprs, ii.enums, oracle, old(ii.varTypes)[k]) == Ok(ii.varTypes[k])
      else ii.varTypes[k] == old(ii.varTypes)[k]
    ensures r.Ok? ==> AllFix(ii.exprs, ii.enums, oracle, ii.vars.Keys, old(ii.varTypes))
    ensures r.Err? ==> exists k ::
      && LeastFailure(ii.exprs, ii.enums, oracle, ii.vars.Keys, old(ii.varTypes), k, r.error)
      && TypesFixedBelow(ii.exprs, ii.enums, oracle, ii.vars.Keys, old(ii.varTypes), ii.varTypes, k)
  {
    var i := 0;
    while i < ii.nextVar
      invariant 0 <= i <= ii.nextVar
      invariant ii.Valid()
      invariant TypesFixedBelow(ii.exprs, ii.enums, oracle, ii.vars.Keys, old(ii.varTypes), ii.varTypes, i)
    {
      if i in ii.vars && i in ii.varTypes {
        var fixed := FixedType(ii.exprs, ii.enums, oracle, ii.varTypes[i]);
        if fixed.Err? {
          assert ii.varTypes[i] == old(ii.varTypes)[i];
          return Err(fixed.error);
        }
        TypesFixedStep(ii.exprs, ii.enums, oracle, ii.vars.Keys, old(ii.varTypes), ii.varTypes, i, fixed.value);
        ii.varTypes := ii.varTypes[i := fixed.value];
      } else {
        TypesFixedSkip(ii.exprs, ii.enums, oracle, ii.vars.Keys, old(ii.varTypes), ii.varTypes, i);
      }
      i := i + 1;
    }
    r := Ok(());
  }

  /** The expression loop of `fix_array_sizes`. */
  method FixExprTypes(ii: Intent, oracle: Expr -> Option<Immediate>) returns (r: Result<()>)
    requires ii.Valid()
    modifies ii`exprTypes
    ensures ii.Valid()
    ensures ii.exprTypes.Keys == old(ii.exprTypes.Keys)
    ensures r.Ok? ==> forall k :: k in ii.exprTypes ==>
      if k in ii.exprs then FixedType(ii.exprs, ii.enums, oracle, old(ii.exprTypes)[k]) == Ok(ii.exprTypes[k])
      else ii.exprTypes[k] == old(ii.exprTypes)[k]
    ensures r.Ok? ==> AllFix(ii.exprs, ii.enums, oracle, ii.exprs.Keys, old(ii.exprTypes))
    ensures r.Err? ==> exists k ::
      && LeastFailure(ii.exprs, ii.enums, oracle, ii.exprs.Keys, old(ii.exprTypes), k, r.error)
      && TypesFixedBelow(ii.exprs, ii.enums, oracle, ii.exprs.Keys, old(ii.exprTypes), ii.exprTypes, k)
  {
    var i := 0;
    while i < ii.nextExpr
      invariant 0 <= i <= ii.nextExpr
      invariant ii.Valid()
      invariant TypesFixedBelow(ii.exprs, ii.enums, oracle, ii.exprs.Keys, old(ii.exprTypes), ii.exprTypes, i)
    {
      if i in ii.exprs && i in ii.exprTypes {
        var fixed := FixedType(ii.exprs, ii.enums, oracle, ii.exprTypes[i]);
        if fixed.Err? {
          assert ii.exprTypes[i] == old(ii.exprTypes)[i];
          return Err(fixed.error);
        }
        TypesFixedStep(ii.exprs, ii.enums, oracle, ii.exprs.Keys, old(ii.exprTypes), ii.exprTypes, i, fixed.value);
        ii.exprTypes := ii.exprTypes[i := fixed.value];
      } else {
        TypesFixedSkip(ii.exprs, ii.enums, oracle, ii.exprs.Keys, old(ii.exprTypes), ii.exprTypes, i);
      }
      i := i + 1;
    }
    r := Ok(());
  }

  // ---------------------------------------------------------------------
  // Scalarising one array variable

  /** `<array-name>[<index>]`: the name of one element variable. */
  function ElementName(name: string, i: nat): (r: string)
    ensures |r| == |name| + |NatToString(i)| + 2
    ensures r[..|name|] == name && r[|name| + 1..|r| - 1] == NatToString(i)
  {
    name + "[" + NatToString(i) + "]"
  }

  /** Distinct indices give distinct element names. */
  lemma ElementNameInjective(name: string, i: nat, j: nat)
    requires ElementName(name, i) == ElementName(name, j)
    ensures i == j
  {
    var a := ElementName(name, i);
    assert NatToString(i) == a[|name| + 1..|a| - 1] == NatToString(j);
    NatToStringInjective(i, j);
  }

  /** The element variables of an array of `n` elements called `name`, under the keys `base`, `base + 1`, ... */
  function ElementVars(base: VarKey, name: string, n: nat): map<VarKey, string>
  {
    if n == 0 then map[] else ElementVars(base, name, n - 1)[base + n - 1 := ElementName(name, n - 1)]
  }

  function ElementTypes(base: VarKey, n: nat, elTy: Type): map<VarKey, Type>
  {
    if n == 0 then map[] else ElementTypes(base, n - 1, elTy)[base + n - 1 := elTy]
  }

  /** The element variables are exactly the keys `base .. base + n`, and the one at `base + i` is named `name[i]`. */
  lemma {:induction false} ElementVarsSpec(base: VarKey, name: string, n: nat, elTy: Type)
    ensures forall k :: k in ElementVars(base, name, n) <==> base <= k < base + n
    ensures forall k :: k in ElementTypes(base, n, elTy) <==> base <= k < base + n
    ensures forall i :: 0 <= i < n ==> ElementVars(base, name, n)[base + i] == ElementName(name, i)
    ensures forall k :: k in ElementTypes(base, n, elTy) ==> ElementTypes(base, n, elTy)[k] == elTy
  {
    if n > 0 {
      ElementVarsSpec(base, name, n - 1, elTy);
    }
  }

  /** The first variable key below `n` (in arena order) whose type is an array, if any. */
  function FirstArrayVarBelow(varTypes: map<VarKey, Type>, n: nat): (r: Option<VarKey>)
    ensures r.Some? ==> r.value in varTypes && GetArrayParams(varTypes[r.value]).Some?
  {
    if n == 0 then None
    else
      var prev := FirstArrayVarBelow(varTypes, n - 1);
      if prev.Some? then prev
      else if n - 1 in varTypes && GetArrayParams(varTypes[n - 1]).Some? then Some(n - 1)
      else None
  }

  /** The search finds the first array variable, and finds none only when there is none. */
  lemma {:induction false} FirstArrayVarBelowSpec(varTypes: map<VarKey, Type>, n: nat)
    ensures var f := FirstArrayVarBelow(varTypes, n);
      && (f.Some? ==> f.value < n && f.value in varTypes && GetArrayParams(varTypes[f.value]).Some?
                      && forall k :: k < f.value && k in varTypes ==> GetArrayParams(varTypes[k]).None?)
      && (f.None? ==> forall k :: k < n && k in varTypes ==> GetArrayParams(varTypes[k]).None?)
  {
    if n > 0 {
      FirstArrayVarBelowSpec(varTypes, n - 1);
    }
  }

  /** Walks the variable types in arena order looking for an array. */
  method FindArrayVar(ii: Intent) returns (found: Option<VarKey>)
    requires ii.Valid()
    ensures found == FirstArrayVarBelow(ii.varTypes, ii.nextVar)
  {
    found := None;
    var i := 0;
    while i < ii.nextVar && found.None?
      invariant 0 <= i <= ii.nextVar
      invariant found == FirstArrayVarBelow(ii.varTypes, i)
      invariant found.Some? ==> FirstArrayVarBelow(ii.varTypes, ii.nextVar) == found
    {
      if i in ii.varTypes && GetArrayParams(ii.varTypes[i]).Some? {
        found := Some(i);
        FirstArrayVarStays(ii.varTypes, i + 1, ii.nextVar);
      }
      i := i + 1;
    }
  }

  /** Once found, the first array variable stays the first one however far the search goes. */
  lemma {:induction false} FirstArrayVarStays(varTypes: map<VarKey, Type>, m: nat, n: nat)
    requires m <= n && FirstArrayVarBelow(varTypes, m).Some?
    ensures FirstArrayVarBelow(varTypes, n) == FirstArrayVarBelow(varTypes, m)
    decreases n - m
  {
    if m < n {
      FirstArrayVarStays(varTypes, m, n - 1);
    }
  }

  /** Adds one variable `name[i]` of the element type for each `i` in `0..size`. */
  method AddElementVars(ii: Intent, name: string, size: int, elTy: Type) returns (keys: seq<VarKey>)
    requires ii.Valid()
    modifies ii`vars, ii`varTypes, ii`nextVar
    ensures ii.Valid()
    ensures |keys| == (if size > 0 then size else 0)
    ensures forall i :: 0 <= i < |keys| ==> keys[i] == old(ii.nextVar) + i
    ensures ii.nextVar == old(ii.nextVar) + |keys|
    ensures ii.vars == old(ii.vars) + ElementVars(old(ii.nextVar), name, |keys|)
    ensures ii.varTypes == old(ii.varTypes) + ElementTypes(old(ii.nextVar), |keys|, elTy)
  {
    keys := [];
    var idx := 0;
    while idx < size
      invariant 0 <= idx && (if size > 0 then idx <= size else idx == 0) && |keys| == idx
      invariant ii.Valid()
      invariant forall i :: 0 <= i < |keys| ==> keys[i] == old(ii.nextVar) + i
      invariant ii.nextVar == old(ii.nextVar) + idx
      invariant ii.vars == old(ii.vars) + ElementVars(old(ii.nextVar), name, idx)
      invariant ii.varTypes == old(ii.varTypes) + ElementTypes(old(ii.nextVar), idx, elTy)
    {
      var k := AddElementVar(ii, name, idx, elTy, old(ii.nextVar), old(ii.vars), old(ii.varTypes));
      keys := keys + [k];
      idx := idx + 1;
    }
  }

  /** Adds the variable `name[idx]`, the next of the element variables starting at `base`. */
  method AddElementVar(ii: Intent, name: string, idx: nat, elTy: Type,
                       ghost base: VarKey, ghost vars0: map<VarKey, string>, ghost types0: map<VarKey, Type>) returns (k: VarKey)
    requires ii.Valid() && ii.nextVar == base + idx
    requires ii.vars == vars0 + ElementVars(base, name, idx) && ii.varTypes == types0 + ElementTypes(base, idx, elTy)
    modifies ii`vars, ii`varTypes, ii`nextVar
    ensures ii.Valid() && k == base + idx && ii.nextVar == base + idx + 1
    ensures ii.vars == vars0 + ElementVars(base, name, idx + 1) && ii.varTypes == types0 + ElementTypes(base, idx + 1, elTy)
  {
    k := ii.InsertVar(ElementName(name, idx), elTy);
    UnionUpdate(vars0, ElementVars(base, name, idx), k, ElementName(name, idx));
    UnionUpdate(types0, ElementTypes(base, idx, elTy), k, elTy);
  }

  /** One array element access to rewrite: the access expression and its index expression. */
  datatype Access = Access(key: ExprKey, index: ExprKey)

  /** A reference to the array variable being scalarised, by name or by key. */
  predicate IsArrayRef(e: Expr, name: string, arrayKey: VarKey)
  {
    e == PathByName(name) || e == PathByKey(arrayKey)
  }

  /**
   * The accesses into the array among the expressions with keys below `n`,
   * in arena order. Looking at any element access whose array expression is
   * missing aborts.
   */
  function AccessesBelow(exprs: map<ExprKey, Expr>, name: string, arrayKey: VarKey, n: nat): Result<seq<Access>>
  {
    if n == 0 then Ok([])
    else
      var prev :- AccessesBelow(exprs, name, arrayKey, n - 1);
      var k := n - 1;
      if k in exprs && exprs[k].ArrayElementAccess? then
        if exprs[k].indexed !in exprs then Err(Panic(ExprKeyExists))
        else if IsArrayRef(exprs[exprs[k].indexed], name, arrayKey) then Ok(prev + [Access(k, exprs[k].index)])
        else Ok(prev)
      else Ok(prev)
  }

  /**
   * The collected accesses are exactly the element accesses into the array,
   * each once and in arena order.
   */
  lemma {:induction false} AccessesBelowSpec(exprs: map<ExprKey, Expr>, name: string, arrayKey: VarKey, n: nat)
    requires AccessesBelow(exprs, name, arrayKey, n).Ok?
    ensures var acc := AccessesBelow(exprs, name, arrayKey, n).value;
      && (forall i :: 0 <= i < |acc| ==>
            var a := acc[i];
            && a.key < n && a.key in exprs && exprs[a.key].ArrayElementAccess? && exprs[a.key].index == a.index
            && exprs[a.key].indexed in exprs && IsArrayRef(exprs[exprs[a.key].indexed], name, arrayKey))
      && (forall i, j :: 0 <= i < j < |acc| ==> acc[i].key < acc[j].key)
      && (forall k :: k < n && k in exprs && exprs[k].ArrayElementAccess? && exprs[k].indexed in exprs
                      && IsArrayRef(exprs[exprs[k].indexed], name, arrayKey) ==>
            exists i :: 0 <= i < |acc| && acc[i].key == k)
  {
    if n > 0 {
      AccessesBelowSpec(exprs, name, arrayKey, n - 1);
      var prev := AccessesBelow(exprs, name, arrayKey, n - 1).value;
      var acc := AccessesBelow(exprs, name, arrayKey, n).value;
      if acc != prev {
        assert acc == prev + [Access(n - 1, exprs[n - 1].index)];
        forall k | k < n && k in exprs && exprs[k].ArrayElementAccess? && exprs[k].indexed in exprs
                      && IsArrayRef(exprs[exprs[k].indexed], name, arrayKey)
          ensures exists i :: 0 <= i < |acc| && acc[i].key == k
        {
          if k < n - 1 {
            var i :| 0 <= i < |prev| && prev[i].key == k;
            assert acc[i] == prev[i];
          } else {
            assert acc[|prev|].key == k;
          }
        }
      }
    }
  }

  /** Collects the accesses into the array before any of them is rewritten. */
  method CollectAccesses(ii: Intent, name: string, arrayKey: VarKey) returns (r: Result<seq<Access>>)
    requires ii.Valid()
    ensures r == AccessesBelow(ii.exprs, name, arrayKey, ii.nextExpr)
  {
    var acc: seq<Access> := [];
    var i := 0;
    while i < ii.nextExpr
      invariant 0 <= i <= ii.nextExpr
      invariant AccessesBelow(ii.exprs, name, arrayKey, i) == Ok(acc)
    {
      if i in ii.exprs && ii.exprs[i].ArrayElementAccess? {
        var e := ii.exprs[i];
        if e.indexed !in ii.exprs {
          r := Err(Panic(ExprKeyExists));
          NoAccessesPastPanic(ii.exprs, name, arrayKey, i + 1, ii.nextExpr);
          return;
        }
        if IsArrayRef(ii.exprs[e.indexed], name, arrayKey) {
          acc := acc + [Access(i, e.index)];
        }
      }
      i := i + 1;
    }
    r := Ok(acc);
  }

  /** Once the collection has aborted it stays aborted. */
  lemma {:induction false} NoAccessesPastPanic(exprs: map<ExprKey, Expr>, name: string, arrayKey: VarKey, m: nat, n: nat)
    requires m <= n && AccessesBelow(exprs, name, arrayKey, m) == Err(Panic(ExprKeyExists))
    ensures AccessesBelow(exprs, name, arrayKey, n) == Err(Panic(ExprKeyExists))
    decreases n - m
  {
    if m < n {
      NoAccessesPastPanic(exprs, name, arrayKey, m, n - 1);
    }
  }

  /**
   * The element a constant index selects in an array of `size` elements:
   * it must evaluate, to an integer, within `0..size`.
   */
  function ResolveIndex(v: Option<Immediate>, size: int): (r: Result<nat>)
    ensures r.Ok? <==> v.Some? && v.value.IntImm? && 0 <= v.value.intValue < size
    ensures r.Ok? ==> r.value == v.value.intValue
    ensures v.None? ==> r == Err(NonConstArrayIndex)
    ensures v.Some? && !v.value.IntImm? ==> r == Err(InvalidConstArrayIndex)
    ensures v.Some? && v.value.IntImm? && !(0 <= v.value.intValue < size) ==> r == Err(ArrayIndexOutOfBounds)
  {
    match v
    case None => Err(NonConstArrayIndex)
    case Some(IntImm(i)) => if i < 0 || i >= size then Err(ArrayIndexOutOfBounds) else Ok(i)
    case Some(_) => Err(InvalidConstArrayIndex)
  }

  /**
   * Rewrites one access: its index must resolve, and the access is then
   * replaced everywhere by a new path to the selected element variable and
   * removed.
   */
  method RewriteAccess(ii: Intent, oracle: Expr -> Option<Immediate>, a: Access, size: int, elTy: Type, newKeys: seq<VarKey>)
    returns (r: Result<()>)
    requires ii.Valid() && size <= |newKeys|
    modifies ii`exprs, ii`exprTypes, ii`nextExpr, ii`constraints, ii`directives
    ensures ii.Valid() && ii.nextExpr >= old(ii.nextExpr)
    ensures a.index !in old(ii.exprs) ==> r == Err(Panic(ExprKeyExists)) && unchanged(ii)
    ensures a.index in old(ii.exprs) ==>
      var idx := ResolveIndex(Evaluate(old(ii.exprs)[a.index], oracle), size);
      var nk := old(ii.nextExpr);
      && (idx.Err? ==> r == Err(idx.error) && unchanged(ii))
      && (idx.Ok? ==>
            && r.Ok? && ii.nextExpr == nk + 1
            && ii.exprs == ReplaceInExprs(old(ii.exprs)[nk := PathByKey(newKeys[idx.value])], a.key, nk) - {a.key}
            && ii.exprTypes == old(ii.exprTypes)[nk := elTy] - {a.key}
            && ii.constraints == ReplaceKeys(old(ii.constraints), a.key, nk)
            && ii.directives == ReplaceDirectives(old(ii.directives), a.key, nk))
    ensures r.Ok? ==> RewriteStep(old(ii.Arena()), oracle, a, size, elTy, newKeys) == Ok(ii.Arena())
    ensures r.Err? ==> RewriteStep(old(ii.Arena()), oracle, a, size, elTy, newKeys) == Err(r.error)
  {
    if a.index !in ii.exprs {
      return Err(Panic(ExprKeyExists));
    }
    var idx := ResolveIndex(Evaluate(ii.exprs[a.index], oracle), size);
    if idx.Err? {
      return Err(idx.error);
    }
    var nk := ii.InsertTypedExpr(PathByKey(newKeys[idx.value]), elTy);
    ii.ReplaceAndRemove(a.key, nk);
    r := Ok(());
  }

  /** One turn of the rewrite loop: what the loop needs of `RewriteAccess`. */
  method RewriteAccessTurn(ii: Intent, oracle: Expr -> Option<Immediate>, a: Access, size: int, elTy: Type, newKeys: seq<VarKey>)
    returns (r: Result<()>)
    requires ii.Valid() && size <= |newKeys|
    modifies ii`exprs, ii`exprTypes, ii`nextExpr, ii`constraints, ii`directives
    ensures ii.Valid() && ii.nextExpr >= old(ii.nextExpr)
    ensures r.Ok? ==> RewriteStep(old(ii.Arena()), oracle, a, size, elTy, newKeys) == Ok(ii.Arena())
    ensures r.Err? ==> RewriteStep(old(ii.Arena()), oracle, a, size, elTy, newKeys) == Err(r.error)
  {
    r := RewriteAccess(ii, oracle, a, size, elTy, newKeys);
  }

  /**
   * `scalarize_array_access`: rewrites every collected access, in order,
   * stopping at the first failure; the arena ends as `RewrittenBy` says.
   */
  method RewriteAccesses(ii: Intent, oracle: Expr -> Option<Immediate>, accesses: seq<Access>, size: int, elTy: Type, newKeys: seq<VarKey>)
    returns (r: Result<()>)
    requires ii.Valid() && size <= |newKeys|
    requires forall i :: 0 <= i < |accesses| ==> accesses[i].key < ii.nextExpr
    modifies ii`exprs, ii`exprTypes, ii`nextExpr, ii`constraints, ii`directives
    ensures ii.Valid() && ii.nextExpr >= old(ii.nextExpr)
    ensures r.Ok? ==> forall i :: 0 <= i < |accesses| ==> accesses[i].key !in ii.exprs
    ensures r.Ok? ==> RewrittenBy(old(ii.Arena()), oracle, accesses, size, elTy, newKeys, |accesses|) == Ok(ii.Arena())
    ensures r.Err? ==> RewrittenBy(old(ii.Arena()), oracle, accesses, size, elTy, newKeys, |accesses|) == Err(r.error)
  {
    ghost var s0 := ii.Arena();
    var i := 0;
    while i < |accesses|
      invariant 0 <= i <= |accesses|
      invariant ii.Valid() && ii.nextExpr >= old(ii.nextExpr)
      invariant RewrittenBy(s0, oracle, accesses, size, elTy, newKeys, i) == Ok(ii.Arena())
    {
      ghost var before := ii.Arena();
      var step := RewriteAccessTurn(ii, oracle, accesses[i], size, elTy, newKeys);
      if step.Err? {
        RewrittenByFails(s0, oracle, accesses, size, elTy, newKeys, i, before, step.error);
        return Err(step.error);
      }
      RewrittenByExtends(s0, oracle, accesses, size, elTy, newKeys, i, before, ii.Arena());
      i := i + 1;
    }
    RewrittenKeysGone(s0, oracle, accesses, size, elTy, newKeys, ii.Arena());
    assert ii.Arena().exprs == ii.exprs;
    r := Ok(());
  }

  /** What `RewriteAccess` does to the arena, as a value. */
  function RewriteStep(s: ExprArena, oracle: Expr -> Option<Immediate>, a: Access, size: int, elTy: Type, newKeys: seq<VarKey>): Result<ExprArena>
    requires size <= |newKeys|
  {
    if a.index !in s.exprs then Err(Panic(ExprKeyExists))
    else
      var idx := ResolveIndex(Evaluate(s.exprs[a.index], oracle), size);
      if idx.Err? then Err(idx.error)
      else
        var nk := s.nextExpr;
        Ok(ExprArena(ReplaceInExprs(s.exprs[nk := PathByKey(newKeys[idx.value])], a.key, nk) - {a.key}, s.exprTypes[nk := elTy] - {a.key},
                     nk + 1, ReplaceKeys(s.constraints, a.key, nk), ReplaceDirectives(s.directives, a.key, nk)))
  }

  /** The arena once the first `n` accesses are rewritten, in order, or the first failure. */
  function RewrittenBy(s: ExprArena, oracle: Expr -> Option<Immediate>, accesses: seq<Access>, size: int, elTy: Type, newKeys: seq<VarKey>, n: nat)
    : Result<ExprArena>
    requires n <= |accesses| && size <= |newKeys|
  {
    if n == 0 then Ok(s)
    else
      var prev := RewrittenBy(s, oracle, accesses, size, elTy, newKeys, n - 1);
      if prev.Err? then prev else RewriteStep(prev.value, oracle, accesses[n - 1], size, elTy, newKeys)
  }

  function AccessKeys(accesses: seq<Access>): (r: seq<ExprKey>)
    ensures |r| == |accesses| && forall i :: 0 <= i < |accesses| ==> r[i] == accesses[i].key
  {
    seq(|accesses|, i requires 0 <= i < |accesses| => accesses[i].key)
  }

  /** Once a rewrite fails, the rewrite of every longer prefix fails the same way. */
  lemma {:induction false} RewrittenByFailureStays(s: ExprArena, oracle: Expr -> Option<Immediate>, accesses: seq<Access>, size: int, elTy: Type,
                                                 newKeys: seq<VarKey>, m: nat, n: nat)
    requires m <= n <= |accesses| && size <= |newKeys|
    requires RewrittenBy(s, oracle, accesses, size, elTy, newKeys, m).Err?
    ensures RewrittenBy(s, oracle, accesses, size, elTy, newKeys, n) == RewrittenBy(s, oracle, accesses, size, elTy, newKeys, m)
    decreases n - m
  {
    if m < n {
      RewrittenByFailureStays(s, oracle, accesses, size, elTy, newKeys, m, n - 1);
    }
  }

  /** A successful rewrite extends a successful rewrite of a prefix by one access. */
  lemma RewrittenByExtends(s: ExprArena, oracle: Expr -> Option<Immediate>, accesses: seq<Access>, size: int, elTy: Type,
                           newKeys: seq<VarKey>, n: nat, t: ExprArena, u: ExprArena)
    requires n < |accesses| && size <= |newKeys|
    requires RewrittenBy(s, oracle, accesses, size, elTy, newKeys, n) == Ok(t)
    requires RewriteStep(t, oracle, accesses[n], size, elTy, newKeys) == Ok(u)
    ensures RewrittenBy(s, oracle, accesses, size, elTy, newKeys, n + 1) == Ok(u)
  {
  }

  /** A failed rewrite after a successful prefix is the failure of the whole rewrite. */
  lemma RewrittenByFails(s: ExprArena, oracle: Expr -> Option<Immediate>, accesses: seq<Access>, size: int, elTy: Type,
                         newKeys: seq<VarKey>, n: nat, t: ExprArena, e: CompileError)
    requires n < |accesses| && size <= |newKeys|
    requires RewrittenBy(s, oracle, accesses, size, elTy, newKeys, n) == Ok(t)
    requires RewriteStep(t, oracle, accesses[n], size, elTy, newKeys) == Err(e)
    ensures RewrittenBy(s, oracle, accesses, size, elTy, newKeys, |accesses|) == Err(e)
  {
    RewrittenByFailureStays(s, oracle, accesses, size, elTy, newKeys, n + 1, |accesses|);
  }

  /** A successful rewrite, below the arena's counter, is the replacement of the access by the fresh key. */
  lemma RewriteStepReplaces(s: ExprArena, oracle: Expr -> Option<Immediate>, a: Access, size: int, elTy: Type, newKeys: seq<VarKey>,
                            u: ExprArena, from: ExprKey, to: ExprKey)
    requires size <= |newKeys| && a.key < s.nextExpr
    requires RewriteStep(s, oracle, a, size, elTy, newKeys) == Ok(u) && from == a.key && to == s.nextExpr
    ensures ReplacedFrom(s, u, from, to)
  {
  }

  /**
   * What a successful rewrite of the first `n` accesses does to what the
   * arena held: the access keys are replaced, in order, by the fresh keys
   * `s.nextExpr + i`.
   */
  lemma {:induction false} RewrittenByRenames(s: ExprArena, oracle: Expr -> Option<Immediate>, accesses: seq<Access>, size: int, elTy: Type,
                                            newKeys: seq<VarKey>, n: nat)
    requires n <= |accesses| && size <= |newKeys|
    requires forall i :: 0 <= i < |accesses| ==> accesses[i].key < s.nextExpr
    requires RewrittenBy(s, oracle, accesses, size, elTy, newKeys, n).Ok?
    ensures RewrittenBy(s, oracle, accesses, size, elTy, newKeys, n).value.nextExpr == s.nextExpr + n
    ensures RenamedFrom(s, RewrittenBy(s, oracle, accesses, size, elTy, newKeys, n).value, AccessKeys(accesses)[..n], FreshKeys(s.nextExpr, |accesses|)[..n])
  {
    var froms, tos := AccessKeys(accesses), FreshKeys(s.nextExpr, |accesses|);
    if n == 0 {
      assert froms[..0] == [] && tos[..0] == [];
      RenamedFromNone(s);
    } else {
      RewrittenByRenames(s, oracle, accesses, size, elTy, newKeys, n - 1);
      var t := RewrittenBy(s, oracle, accesses, size, elTy, newKeys, n - 1).value;
      var u := RewrittenBy(s, oracle, accesses, size, elTy, newKeys, n).value;
      assert froms[n - 1] == accesses[n - 1].key && tos[n - 1] == t.nextExpr;
      RewriteStepReplaces(t, oracle, accesses[n - 1], size, elTy, newKeys, u, froms[n - 1], tos[n - 1]);
      RenamedFromStep(s, t, u, froms, tos, n);
    }
  }

  /** Key `k` holds a path to one of the `size` element variables, typed with the element type. */
  predicate ElementPathAt(t: ExprArena, k: ExprKey, size: int, elTy: Type, newKeys: seq<VarKey>)
  {
    && k in t.exprs && k in t.exprTypes && t.exprTypes[k] == elTy
    && exists j :: 0 <= j < size && j < |newKeys| && t.exprs[k] == PathByKey(newKeys[j])
  }

  /** A rewrite adds its path at the fresh key and keeps the paths added before, which lie above the access. */
  lemma RewriteStepPaths(t: ExprArena, oracle: Expr -> Option<Immediate>, a: Access, size: int, elTy: Type, newKeys: seq<VarKey>,
                         u: ExprArena, k: ExprKey)
    requires size <= |newKeys| && a.key < k
    requires RewriteStep(t, oracle, a, size, elTy, newKeys) == Ok(u)
    ensures k == t.nextExpr ==> ElementPathAt(u, k, size, elTy, newKeys)
    ensures k < t.nextExpr && ElementPathAt(t, k, size, elTy, newKeys) ==> ElementPathAt(u, k, size, elTy, newKeys)
  {
    var idx := ResolveIndex(Evaluate(t.exprs[a.index], oracle), size).value;
    if k == t.nextExpr {
      assert u.exprs[k] == PathByKey(newKeys[idx]);
    }
    if k < t.nextExpr && ElementPathAt(t, k, size, elTy, newKeys) {
      var j :| 0 <= j < size && j < |newKeys| && t.exprs[k] == PathByKey(newKeys[j]);
      assert u.exprs[k] == PathByKey(newKeys[j]);
    }
  }

  /** Each successful rewrite takes one fresh key. */
  lemma {:induction false} RewrittenByNext(s: ExprArena, oracle: Expr -> Option<Immediate>, accesses: seq<Access>, size: int, elTy: Type,
                                         newKeys: seq<VarKey>, n: nat)
    requires n <= |accesses| && size <= |newKeys|
    requires RewrittenBy(s, oracle, accesses, size, elTy, newKeys, n).Ok?
    ensures RewrittenBy(s, oracle, accesses, size, elTy, newKeys, n).value.nextExpr == s.nextExpr + n
  {
    if n > 0 {
      RewrittenByNext(s, oracle, accesses, size, elTy, newKeys, n - 1);
    }
  }

  /**
   * What a successful rewrite of the first `n` accesses adds: at the fresh
   * key `s.nextExpr + i`, a path to the element variable the `i`-th
   * access's index selected, typed with the element type.
   */
  lemma {:induction false} RewrittenByPath(s: ExprArena, oracle: Expr -> Option<Immediate>, accesses: seq<Access>, size: int, elTy: Type,
                                         newKeys: seq<VarKey>, n: nat, i: nat)
    requires i < n <= |accesses| && size <= |newKeys|
    requires forall j :: 0 <= j < |accesses| ==> accesses[j].key < s.nextExpr
    requires RewrittenBy(s, oracle, accesses, size, elTy, newKeys, n).Ok?
    ensures ElementPathAt(RewrittenBy(s, oracle, accesses, size, elTy, newKeys, n).value, s.nextExpr + i, size, elTy, newKeys)
  {
    var t := RewrittenBy(s, oracle, accesses, size, elTy, newKeys, n - 1).value;
    var u := RewrittenBy(s, oracle, accesses, size, elTy, newKeys, n).value;
    RewrittenByNext(s, oracle, accesses, size, elTy, newKeys, n - 1);
    if i < n - 1 {
      RewrittenByPath(s, oracle, accesses, size, elTy, newKeys, n - 1, i);
    }
    RewriteStepPaths(t, oracle, accesses[n - 1], size, elTy, newKeys, u, s.nextExpr + i);
  }

  /** After a successful rewrite no access is left in the arena. */
  lemma RewrittenKeysGone(s: ExprArena, oracle: Expr -> Option<Immediate>, accesses: seq<Access>, size: int, elTy: Type, newKeys: seq<VarKey>,
                          t: ExprArena)
    requires size <= |newKeys|
    requires forall i :: 0 <= i < |accesses| ==> accesses[i].key < s.nextExpr
    requires RewrittenBy(s, oracle, accesses, size, elTy, newKeys, |accesses|) == Ok(t)
    ensures forall i :: 0 <= i < |accesses| ==> accesses[i].key !in t.exprs
  {
    RewrittenByRenames(s, oracle, accesses, size, elTy, newKeys, |accesses|);
    assert AccessKeys(accesses)[..|accesses|] == AccessKeys(accesses);
    assert forall i :: 0 <= i < |accesses| ==> accesses[i].key in AccessKeys(accesses);
  }

  /**
   * A successful rewrite of distinct accesses retargets every reference to
   * them: a reference to the `i`-th access, in an expression or a
   * constraint the pass started with, now names the fresh key `s.nextExpr + i`.
   */
  lemma RewrittenByRetargets(s: ExprArena, oracle: Expr -> Option<Immediate>, accesses: seq<Access>, size: int, elTy: Type, newKeys: seq<VarKey>)
    requires size <= |newKeys|
    requires forall i :: 0 <= i < |accesses| ==> accesses[i].key < s.nextExpr
    requires forall i, j :: 0 <= i < j < |accesses| ==> accesses[i].key != accesses[j].key
    requires RewrittenBy(s, oracle, accesses, size, elTy, newKeys, |accesses|).Ok?
    ensures var t := RewrittenBy(s, oracle, accesses, size, elTy, newKeys, |accesses|).value;
      var froms, tos := AccessKeys(accesses), FreshKeys(s.nextExpr, |accesses|);
      && (forall i :: 0 <= i < |accesses| ==> Renamed(accesses[i].key, froms, tos) == s.nextExpr + i)
      && (forall k :: k in t.exprs && k < s.nextExpr ==> k in s.exprs && ExprRefs(t.exprs[k]) == RenamedKeys(ExprRefs(s.exprs[k]), froms, tos))
      && t.constraints == RenamedKeys(s.constraints, froms, tos)
  {
    var t := RewrittenBy(s, oracle, accesses, size, elTy, newKeys, |accesses|).value;
    var froms, tos := AccessKeys(accesses), FreshKeys(s.nextExpr, |accesses|);
    RewrittenByRenames(s, oracle, accesses, size, elTy, newKeys, |accesses|);
    assert froms[..|accesses|] == froms && tos[..|accesses|] == tos;
    forall i | 0 <= i < |accesses|
      ensures Renamed(accesses[i].key, froms, tos) == s.nextExpr + i
    {
      RenamedHits(i, froms, tos);
    }
    forall k | k in t.exprs && k < s.nextExpr
      ensures k in s.exprs && ExprRefs(t.exprs[k]) == RenamedKeys(ExprRefs(s.exprs[k]), froms, tos)
    {
      RenamedExprRefs(s.exprs[k], froms, tos);
    }
  }

  /** After a successful rewrite, nothing the pass started with refers to an access any more. */
  lemma RewrittenByNoDangling(s: ExprArena, oracle: Expr -> Option<Immediate>, accesses: seq<Access>, size: int, elTy: Type, newKeys: seq<VarKey>)
    requires size <= |newKeys|
    requires forall i :: 0 <= i < |accesses| ==> accesses[i].key < s.nextExpr
    requires RewrittenBy(s, oracle, accesses, size, elTy, newKeys, |accesses|).Ok?
    ensures var t := RewrittenBy(s, oracle, accesses, size, elTy, newKeys, |accesses|).value;
      var froms := AccessKeys(accesses);
      && (forall k, j :: k in t.exprs && k < s.nextExpr && 0 <= j < |ExprRefs(t.exprs[k])| ==> ExprRefs(t.exprs[k])[j] !in froms)
      && (forall j :: 0 <= j < |t.constraints| ==> t.constraints[j] !in froms)
      && (forall j :: 0 <= j < |t.directives| && !t.directives[j].Satisfy? ==> t.directives[j].objective !in froms)
  {
    var froms, tos := AccessKeys(accesses), FreshKeys(s.nextExpr, |accesses|);
    RewrittenByRenames(s, oracle, accesses, size, elTy, newKeys, |accesses|);
    assert froms[..|accesses|] == froms && tos[..|accesses|] == tos;
    RenamedFromNoDangling(s, RewrittenBy(s, oracle, accesses, size, elTy, newKeys, |accesses|).value, froms, tos);
  }

  /**
   * The part of `scalarize_array` after the array variable `k` is found:
   * adds one variable per element, rewrites the accesses into `k`, and
   * removes `k`.
   */
  method ExpandArrayVar(ii: Intent, oracle: Expr -> Option<Immediate>, k: VarKey, size: int, elTy: Type) returns (r: Result<bool>)
    requires ii.Valid() && k in ii.vars
    modifies ii`vars, ii`varTypes, ii`nextVar, ii`exprs, ii`exprTypes, ii`nextExpr, ii`constraints, ii`directives
    ensures ii.Valid()
    ensures r != Ok(false)
    ensures var n := if size > 0 then size else 0;
      var acc := AccessesBelow(old(ii.exprs), old(ii.vars)[k], k, old(ii.nextExpr));
      && (acc.Err? ==> r == Err(acc.error) && ii.Arena() == old(ii.Arena()))
      && (acc.Ok? ==>
            var f := RewrittenBy(old(ii.Arena()), oracle, acc.value, size, elTy, FreshKeys(old(ii.nextVar), n), |acc.value|);
            && (f.Err? ==> r == Err(f.error))
            && (f.Ok? ==> r == Ok(true) && ii.Arena() == f.value))
    ensures r == Ok(true) ==>
      var n := if size > 0 then size else 0;
      && ii.nextVar == old(ii.nextVar) + n
      && ii.vars == (old(ii.vars) + ElementVars(old(ii.nextVar), old(ii.vars)[k], n)) - {k}
      && ii.varTypes == (old(ii.varTypes) + ElementTypes(old(ii.nextVar), n, elTy)) - {k}
      && var acc := AccessesBelow(old(ii.exprs), old(ii.vars)[k], k, old(ii.nextExpr));
         acc.Ok? && forall i :: 0 <= i < |acc.value| ==> acc.value[i].key !in ii.exprs
  {
    ghost var a0 := ii.Arena();
    var name := ii.vars[k];
    var newKeys := AddElementVars(ii, name, size, elTy);
    assert newKeys == FreshKeys(old(ii.nextVar), if size > 0 then size else 0);
    assert ii.Arena() == a0;
    var accesses := CollectAccesses(ii, name, k);
    if accesses.Err? {
      return Err(accesses.error);
    }
    AccessesBelowSpec(ii.exprs, name, k, ii.nextExpr);
    var rewritten := RewriteAccesses(ii, oracle, accesses.value, size, elTy, newKeys);
    if rewritten.Err? {
      return Err(rewritten.error);
    }
    ii.RemoveVar(k);
    r := Ok(true);
  }

  /**
   * `scalarize_array`: takes the first array variable, adds one variable
   * per element (`name[0]`, `name[1]`, ...) of the element type, rewrites
   * the constant-index accesses into it, and removes it. Reports whether
   * there was an array variable to scalarise.
   */
  method ScalarizeArray(ii: Intent, oracle: Expr -> Option<Immediate>) returns (r: Result<bool>)
    requires ii.Valid()
    modifies ii`vars, ii`varTypes, ii`nextVar, ii`exprs, ii`exprTypes, ii`nextExpr, ii`constraints, ii`directives
    ensures ii.Valid()
    ensures ii.enums == old(ii.enums) && ii.symbols == old(ii.symbols)
    ensures var f := FirstArrayVarBelow(old(ii.varTypes), old(ii.nextVar));
      && (f.None? <==> r == Ok(false))
      && (f.None? ==> unchanged(ii))
      && (f.Some? ==>
            var k := f.value;
            var p := GetArrayParams(old(ii.varTypes)[k]).value;
            && (p.size.None? ==> r == Err(Internal(NonFixedSizeMsg)) && unchanged(ii))
            && (p.size.Some? && k !in old(ii.vars) ==> r == Err(Internal(MissingArrayNameMsg)) && unchanged(ii))
            && (r == Ok(true) ==>
                  var n := if p.size.value > 0 then p.size.value else 0;
                  && ii.nextVar == old(ii.nextVar) + n
                  && ii.vars == (old(ii.vars) + ElementVars(old(ii.nextVar), old(ii.vars)[k], n)) - {k}
                  && ii.varTypes == (old(ii.varTypes) + ElementTypes(old(ii.nextVar), n, p.elem)) - {k}
                  && var acc := AccessesBelow(old(ii.exprs), old(ii.vars)[k], k, old(ii.nextExpr));
                     acc.Ok? && forall i :: 0 <= i < |acc.value| ==> acc.value[i].key !in ii.exprs)
            && (p.size.Some? && k in old(ii.vars) ==>
                  var n := if p.size.value > 0 then p.size.value else 0;
                  var acc := AccessesBelow(old(ii.exprs), old(ii.vars)[k], k, old(ii.nextExpr));
                  && (acc.Err? ==> r == Err(acc.error))
                  && (acc.Ok? ==>
                        var f := RewrittenBy(old(ii.Arena()), oracle, acc.value, p.size.value, p.elem,
                                             FreshKeys(old(ii.nextVar), n), |acc.value|);
                        && (f.Err? ==> r == Err(f.error))
                        && (f.Ok? ==> r == Ok(true) && ii.Arena() == f.value))))
  {
    var found := FindArrayVar(ii);
    if found.None? {
      return Ok(false);
    }
    var k := found.value;
    FirstArrayVarBelowSpec(ii.varTypes, ii.nextVar);
    var p := GetArrayParams(ii.varTypes[k]).value;
    if p.size.None? {
      return Err(Internal(NonFixedSizeMsg));
    }
    if k !in ii.vars {
      return Err(Internal(MissingArrayNameMsg));
    }
    r := ExpandArrayVar(ii, oracle, k, p.size.value, p.elem);
  }
}
