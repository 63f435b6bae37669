/**
 * The fixpoint drivers of scalarisation (`iterate!`, `scalarize_arrays`,
 * `scalarize_tuples`, `scalarize`). Each pass is re-run until it reports
 * that it changed nothing; a pass still reporting changes after the
 * iteration bound is an internal error. On success no decision variable
 * is left with an array or a tuple type.
 */
module ScalarizeDriver {
  import opened Util
  import opened Intermediate
  import opened Scalarize
  import opened Chains
  import opened Compares
  import opened TupleSplit

  /** `concat!("infinite loop in ", msg)`. */
  function InfiniteLoopMsg(pass: string): string
  {
    "infinite loop in " + pass
  }

  /** No variable type is an array (looking through aliases). */
  predicate NoArrayVars(varTypes: map<VarKey, Type>)
  {
    forall k :: k in varTypes ==> GetArrayParams(varTypes[k]).None?
  }

  /** Every variable has a type, and it is neither a tuple nor an array. */
  predicate AllScalar(vars: map<VarKey, string>, varTypes: map<VarKey, Type>)
  {
    forall k :: k in vars ==> k in varTypes && GetArrayParams(varTypes[k]).None? && !varTypes[k].Tuple?
  }

  /** `sub` keeps some of the entries of `m` and changes none. */
  predicate SubMap<K, V(==)>(sub: map<K, V>, m: map<K, V>)
  {
    forall k :: k in sub ==> k in m && sub[k] == m[k]
  }

  /** Removing variables keeps a variable-type map free of arrays. */
  lemma NoArrayVarsSubMap(sub: map<VarKey, Type>, m: map<VarKey, Type>)
    requires SubMap(sub, m) && NoArrayVars(m)
    ensures NoArrayVars(sub)
  {
  }

  // ---------------------------------------------------------------------
  // `iterate!` over each pass
  //
  // The ghost `steps` counts the runs of the pass that reported a change.
  // `iterate!` numbers them from 0 and gives up on the one numbered past
  // `IterationBound`, so a successful iteration has made at most
  // `IterationBound + 1` changes and the iteration-limit error comes with
  // exactly `IterationBound + 2`; any other error is the pass's own.

  method IterateLowerArrayCompares(ii: Intent) returns (r: Result<bool>, ghost steps: nat)
    requires ii.Valid()
    modifies ii
    ensures ii.Valid()
    ensures r.Ok? ==> ArrayComparesBelow(ii.exprs, ii.exprTypes, ii.nextExpr) == []
    ensures r == Ok(false) ==> unchanged(ii)
    ensures r.Ok? ==> steps <= IterationBound + 1 && (r.value <==> steps > 0)
    ensures r.Err? ==> steps <= IterationBound + 2
    ensures steps == IterationBound + 2 ==> r == Err(Internal(InfiniteLoopMsg("lower_array_compares()")))
  {
    var modified := false;
    var loopCheck := 0;
    steps := 0;
    while true
      invariant ii.Valid() && loopCheck <= IterationBound + 1
      invariant !modified ==> loopCheck == 0 && unchanged(ii)
      invariant steps == loopCheck && (modified <==> steps > 0)
      decreases IterationBound + 1 - loopCheck
    {
      var step := LowerArrayCompares(ii);
      if step.Err? {
        r := Err(step.error);
        return;
      }
      if !step.value {
        break;
      }
      modified := true;
      steps := steps + 1;
      if loopCheck > IterationBound {
        r := Err(Internal(InfiniteLoopMsg("lower_array_compares()")));
        return;
      }
      loopCheck := loopCheck + 1;
    }
    r := Ok(modified);
  }

  method IterateScalarizeArray(ii: Intent, oracle: Expr -> Option<Immediate>) returns (r: Result<bool>, ghost steps: nat)
    requires ii.Valid()
    modifies ii
    ensures ii.Valid()
    ensures r.Ok? ==> NoArrayVars(ii.varTypes)
    ensures r == Ok(false) ==> unchanged(ii)
    ensures r.Ok? ==> steps <= IterationBound + 1 && (r.value <==> steps > 0)
    ensures r.Err? ==> steps <= IterationBound + 2
    ensures steps == IterationBound + 2 ==> r == Err(Internal(InfiniteLoopMsg("scalarize_array()")))
  {
    var modified := false;
    var loopCheck := 0;
    steps := 0;
    while true
      invariant ii.Valid() && loopCheck <= IterationBound + 1
      invariant !modified ==> loopCheck == 0 && unchanged(ii)
      invariant steps == loopCheck && (modified <==> steps > 0)
      decreases IterationBound + 1 - loopCheck
    {
      var step := ScalarizeArray(ii, oracle);
      if step.Err? {
        r := Err(step.error);
        return;
      }
      if !step.value {
        FirstArrayVarBelowSpec(ii.varTypes, ii.nextVar);
        break;
      }
      modified := true;
      steps := steps + 1;
      if loopCheck > IterationBound {
        r := Err(Internal(InfiniteLoopMsg("scalarize_array()")));
        return;
      }
      loopCheck := loopCheck + 1;
    }
    r := Ok(modified);
  }

  method IterateLowerTupleCompares(ii: Intent) returns (r: Result<bool>, ghost steps: nat)
    requires ii.Valid()
    modifies ii
    ensures ii.Valid()
    ensures r.Ok? ==> TupleComparesBelow(ii.exprs, ii.exprTypes, ii.nextExpr) == Ok([])
    ensures r == Ok(false) ==> unchanged(ii)
    ensures r.Ok? ==> steps <= IterationBound + 1 && (r.value <==> steps > 0)
    ensures r.Err? ==> steps <= IterationBound + 2
    ensures steps == IterationBound + 2 ==> r == Err(Internal(InfiniteLoopMsg("lower_tuple_compares()")))
  {
    var modified := false;
    var loopCheck := 0;
    steps := 0;
    while true
      invariant ii.Valid() && loopCheck <= IterationBound + 1
      invariant !modified ==> loopCheck == 0 && unchanged(ii)
      invariant steps == loopCheck && (modified <==> steps > 0)
      decreases IterationBound + 1 - loopCheck
    {
      var step := LowerTupleCompares(ii);
      if step.Err? {
        r := Err(step.error);
        return;
      }
      if !step.value {
        break;
      }
      modified := true;
      steps := steps + 1;
      if loopCheck > IterationBound {
        r := Err(Internal(InfiniteLoopMsg("lower_tuple_compares()")));
        return;
      }
      loopCheck := loopCheck + 1;
    }
    r := Ok(modified);
  }

  /**
   * Splits tuple variables until none is left unsplit, accumulating the
   * split ones in `skipped`: every variable outside `skipped` then has a
   * type that is not a tuple.
   */
  method IterateSplitTupleVars(ii: Intent, skip: seq<VarKey>) returns (r: Result<bool>, skipped: seq<VarKey>, ghost steps: nat)
    requires ii.Valid()
    modifies ii
    ensures ii.Valid()
    ensures r.Ok? ==> forall k :: k in ii.vars && k !in skipped ==> k in ii.varTypes && !ii.varTypes[k].Tuple?
    ensures r == Ok(false) ==> unchanged(ii)
    ensures r.Ok? ==> steps <= IterationBound + 1 && (r.value <==> steps > 0)
    ensures r.Err? ==> steps <= IterationBound + 2
    ensures steps == IterationBound + 2 ==> r == Err(Internal(InfiniteLoopMsg("split_tuple_vars()")))
  {
    var modified := false;
    var loopCheck := 0;
    steps := 0;
    skipped := skip;
    while true
      invariant ii.Valid() && loopCheck <= IterationBound + 1
      invariant !modified ==> loopCheck == 0 && unchanged(ii)
      invariant steps == loopCheck && (modified <==> steps > 0)
      decreases IterationBound + 1 - loopCheck
    {
      TupleVarsBelowSpec(ii.vars, ii.varTypes, skipped, ii.nextVar);
      var step;
      step, skipped := SplitTupleVars(ii, skipped);
      if step.Err? {
        r := Err(step.error);
        return;
      }
      if !step.value {
        break;
      }
      modified := true;
      steps := steps + 1;
      if loopCheck > IterationBound {
        r := Err(Internal(InfiniteLoopMsg("split_tuple_vars()")));
        return;
      }
      loopCheck := loopCheck + 1;
    }
    r := Ok(modified);
  }

  /** The keys listed in `ks`. */
  function Elements(ks: seq<VarKey>): set<VarKey>
  {
    set k | k in ks
  }

  /** Removes each listed variable and its type. */
  method RemoveVars(ii: Intent, ks: seq<VarKey>)
    requires ii.Valid()
    modifies ii`vars, ii`varTypes
    ensures ii.Valid()
    ensures ii.vars == old(ii.vars) - Elements(ks) && ii.varTypes == old(ii.varTypes) - Elements(ks)
  {
    var i := 0;
    while i < |ks|
      invariant 0 <= i <= |ks|
      invariant ii.Valid()
      invariant ii.vars == old(ii.vars) - Elements(ks[..i]) && ii.varTypes == old(ii.varTypes) - Elements(ks[..i])
    {
      ii.RemoveVar(ks[i]);
      assert Elements(ks[..i + 1]) == Elements(ks[..i]) + {ks[i]} by {
        assert ks[..i + 1] == ks[..i] + [ks[i]];
      }
      i := i + 1;
    }
    assert ks[..|ks|] == ks;
  }

  // ---------------------------------------------------------------------
  // The passes

  /** `scalarize_arrays`: lowers array comparisons, then scalarises array variables, each to a fixpoint. */
  method ScalarizeArrays(ii: Intent, oracle: Expr -> Option<Immediate>) returns (r: Result<bool>)
    requires ii.Valid()
    modifies ii
    ensures ii.Valid()
    ensures r.Ok? ==> NoArrayVars(ii.varTypes)
    ensures r == Ok(false) ==> unchanged(ii)
  {
    var lowered, loweredSteps := IterateLowerArrayCompares(ii);
    if lowered.Err? {
      return Err(lowered.error);
    }
    var split, splitSteps := IterateScalarizeArray(ii, oracle);
    if split.Err? {
      return Err(split.error);
    }
    r := Ok(lowered.value || split.value);
  }

  /**
   * `scalarize_tuples`: lowers tuple comparisons, then splits tuple
   * variables, each to a fixpoint, and finally removes the split ones.
   * On success every variable has a type and none is a tuple; when it
   * reports no change, at most some variables were removed.
   */
  method ScalarizeTuples(ii: Intent) returns (r: Result<bool>)
    requires ii.Valid()
    modifies ii
    ensures ii.Valid()
    ensures r.Ok? ==> forall k :: k in ii.vars ==> k in ii.varTypes && !ii.varTypes[k].Tuple?
    ensures r == Ok(false) ==> SubMap(ii.varTypes, old(ii.varTypes))
  {
    var lowered, loweredSteps := IterateLowerTupleCompares(ii);
    if lowered.Err? {
      return Err(lowered.error);
    }
    var split, skipped, splitSteps := IterateSplitTupleVars(ii, []);
    if split.Err? {
      return Err(split.error);
    }
    RemoveVars(ii, skipped);
    r := Ok(lowered.value || split.value);
  }

  /**
   * `scalarize`: fixes the array sizes, then runs both passes, always both,
   * until neither changes anything. On success no variable is left with an
   * array or a tuple type.
   */
  method ScalarizeIntent(ii: Intent, oracle: Expr -> Option<Immediate>) returns (r: Result<()>)
    requires ii.Valid()
    modifies ii
    ensures ii.Valid()
    ensures r.Ok? ==> AllScalar(ii.vars, ii.varTypes)
  {
    var fixed := FixArraySizes(ii, oracle);
    if fixed.Err? {
      return Err(fixed.error);
    }
    var loopCheck := 0;
    while true
      invariant ii.Valid() && loopCheck <= IterationBound + 1
      decreases IterationBound + 1 - loopCheck
    {
      var arrays := ScalarizeArrays(ii, oracle);
      if arrays.Err? {
        return Err(arrays.error);
      }
      ghost var afterArrays := ii.varTypes;
      var tuples := ScalarizeTuples(ii);
      if tuples.Err? {
        return Err(tuples.error);
      }
      if !(arrays.value || tuples.value) {
        NoArrayVarsSubMap(ii.varTypes, afterArrays);
        break;
      }
      if loopCheck > IterationBound {
        return Err(Internal(InfiniteLoopMsg("scalarize()")));
      }
      loopCheck := loopCheck + 1;
    }
    r := Ok(());
  }
}
