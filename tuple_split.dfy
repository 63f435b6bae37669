/**
 * `split_tuple_vars`: every tuple variable not split yet gets one new
 * variable per field, named `name.field` when the field is named and
 * `name.i` otherwise; every field access through the tuple variable (by
 * key or by name, with either spelling of the field) becomes a reference to
 * the new variable. The split tuple variables are reported back so the
 * caller can skip them next time and remove them at the end.
 */
module TupleSplit {
  import opened Util
  import opened Intermediate
  import opened Scalarize

  const MissingVarMsg := "missing var in split_tuple_vars()"
  const TupleAccessMsg := "tuple access error in split_tuple_vars()"

  // ---------------------------------------------------------------------
  // The new field variables

  /** `name.i`: the spelling every field has. */
  function IndexName(name: string, i: nat): string
  {
    name + "." + NatToString(i)
  }

  /** `name.field`: the spelling a named field has too. */
  function SymbolicName(name: string, f: TupleField): Option<string>
  {
    if f.name.Some? then Some(name + "." + f.name.value) else None
  }

  /** A field variable to add: both its spellings and its type. */
  datatype FieldVar = FieldVar(idxName: string, symName: Option<string>, ty: Type)

  /** The new variable is named by the symbolic spelling when there is one. */
  function VarName(fv: FieldVar): string
  {
    if fv.symName.Some? then fv.symName.value else fv.idxName
  }

  function FieldVarsOf(name: string, fields: seq<TupleField>): seq<FieldVar>
  {
    seq(|fields|, i requires 0 <= i < |fields| => FieldVar(IndexName(name, i), SymbolicName(name, fields[i]), fields[i].ty))
  }

  /** A field name that is all digits could be confused with a positional spelling. */
  predicate NumericName(s: string)
  {
    forall i :: 0 <= i < |s| ==> IsDigit(s[i])
  }

  /** No two field variables share a spelling. */
  predicate SpellingsDistinct(nv: seq<FieldVar>)
  {
    forall i, j :: 0 <= i < |nv| && 0 <= j < |nv| && i != j ==>
      && nv[i].idxName != nv[j].idxName
      && nv[i].symName != Some(nv[j].idxName)
      && (nv[i].symName.Some? ==> nv[i].symName != nv[j].symName)
  }

  lemma SamePrefix(p: string, a: string, b: string)
    requires p + a == p + b
    ensures a == b
  {
    assert a == (p + a)[|p|..];
    assert b == (p + b)[|p|..];
  }

  /**
   * The fields of one tuple variable get distinct spellings as long as the
   * field names are distinct and none is all digits.
   */
  lemma FieldSpellingsDistinct(name: string, fields: seq<TupleField>)
    requires UniqueNames(fields)
    requires forall i :: 0 <= i < |fields| && fields[i].name.Some? ==> !NumericName(fields[i].name.value)
    ensures SpellingsDistinct(FieldVarsOf(name, fields))
  {
    var nv := FieldVarsOf(name, fields);
    forall i, j | 0 <= i < |nv| && 0 <= j < |nv| && i != j
      ensures nv[i].idxName != nv[j].idxName
      ensures nv[i].symName != Some(nv[j].idxName)
      ensures nv[i].symName.Some? ==> nv[i].symName != nv[j].symName
    {
      if nv[i].idxName == nv[j].idxName {
        SamePrefix(name + ".", NatToString(i), NatToString(j));
        NatToStringInjective(i, j);
      }
      if nv[i].symName == Some(nv[j].idxName) {
        SamePrefix(name + ".", fields[i].name.value, NatToString(j));
        assert NumericName(fields[i].name.value);
      }
      if nv[i].symName.Some? && nv[i].symName == nv[j].symName {
        SamePrefix(name + ".", fields[i].name.value, fields[j].name.value);
      }
    }
  }

  // ---------------------------------------------------------------------
  // Finding the tuple variables

  /**
   * The tuple variables below `n` that are not in `skip`, in key order; a
   * variable without a type is an internal error.
   */
  function TupleVarsBelow(vars: map<VarKey, string>, varTypes: map<VarKey, Type>, skip: seq<VarKey>, n: nat): Result<seq<VarKey>>
  {
    if n == 0 then Ok([])
    else
      var prev :- TupleVarsBelow(vars, varTypes, skip, n - 1);
      var k := n - 1;
      if k !in vars || k in skip then Ok(prev)
      else if k !in varTypes then Err(Internal(MissingVarTypeMsg))
      else if varTypes[k].Tuple? then Ok(prev + [k])
      else Ok(prev)
  }

  /** A variable worth splitting. */
  predicate SplitCandidate(vars: map<VarKey, string>, varTypes: map<VarKey, Type>, skip: seq<VarKey>, k: VarKey)
  {
    k in vars && k !in skip && k in varTypes && varTypes[k].Tuple?
  }

  /**
   * On success the keys are exactly the unskipped tuple variables below `n`,
   * in increasing order; a failure means an unskipped variable has no type.
   */
  lemma {:induction false} TupleVarsBelowSpec(vars: map<VarKey, string>, varTypes: map<VarKey, Type>, skip: seq<VarKey>, n: nat)
    ensures var r := TupleVarsBelow(vars, varTypes, skip, n);
      && (r.Ok? ==>
            && (forall i :: 0 <= i < |r.value| ==> r.value[i] < n && SplitCandidate(vars, varTypes, skip, r.value[i]))
            && (forall i, j :: 0 <= i < j < |r.value| ==> r.value[i] < r.value[j])
            && (forall k :: 0 <= k < n && SplitCandidate(vars, varTypes, skip, k) ==> k in r.value)
            && (forall k :: 0 <= k < n && k in vars && k !in skip ==> k in varTypes))
      && (r.Err? ==> r.error == Internal(MissingVarTypeMsg)
                     && exists k :: 0 <= k < n && k in vars && k !in skip && k !in varTypes)
  {
    if n > 0 {
      TupleVarsBelowSpec(vars, varTypes, skip, n - 1);
    }
  }

  /** The field variables of the given tuple variables, in order. */
  function NewFieldVars(vars: map<VarKey, string>, varTypes: map<VarKey, Type>, keys: seq<VarKey>): seq<FieldVar>
  {
    if keys == [] then []
    else
      var k := keys[|keys| - 1];
      NewFieldVars(vars, varTypes, keys[..|keys| - 1])
        + (if k in vars && k in varTypes && varTypes[k].Tuple? then FieldVarsOf(vars[k], varTypes[k].fields) else [])
  }

  lemma {:induction false} TupleVarsPanicStays(vars: map<VarKey, string>, varTypes: map<VarKey, Type>, skip: seq<VarKey>, m: nat, n: nat)
    requires m <= n && TupleVarsBelow(vars, varTypes, skip, m).Err?
    ensures TupleVarsBelow(vars, varTypes, skip, n) == TupleVarsBelow(vars, varTypes, skip, m)
    decreases n - m
  {
    if m < n {
      TupleVarsPanicStays(vars, varTypes, skip, m, n - 1);
    }
  }

  /** The first pass over the variables, in key order: the tuple variables to split and their field variables. */
  method CollectTupleVars(ii: Intent, skip: seq<VarKey>) returns (r: Result<seq<VarKey>>, nv: seq<FieldVar>)
    ensures r == TupleVarsBelow(ii.vars, ii.varTypes, skip, ii.nextVar)
    ensures r.Ok? ==> nv == NewFieldVars(ii.vars, ii.varTypes, r.value)
  {
    var keys := [];
    nv := [];
    var k := 0;
    while k < ii.nextVar
      invariant k <= ii.nextVar
      invariant TupleVarsBelow(ii.vars, ii.varTypes, skip, k) == Ok(keys)
      invariant nv == NewFieldVars(ii.vars, ii.varTypes, keys)
    {
      if k in ii.vars && k !in skip {
        if k !in ii.varTypes {
          assert TupleVarsBelow(ii.vars, ii.varTypes, skip, k + 1).Err?;
          TupleVarsPanicStays(ii.vars, ii.varTypes, skip, k + 1, ii.nextVar);
          return Err(Internal(MissingVarTypeMsg)), nv;
        }
        if ii.varTypes[k].Tuple? {
          assert (keys + [k])[..|keys|] == keys;
          nv := nv + FieldVarsOf(ii.vars[k], ii.varTypes[k].fields);
          keys := keys + [k];
        }
      }
      k := k + 1;
    }
    r := Ok(keys);
  }

  // ---------------------------------------------------------------------
  // Adding the field variables

  function FieldVarNames(base: VarKey, nv: seq<FieldVar>, j: nat): map<VarKey, string>
    requires j <= |nv|
  {
    if j == 0 then map[] else FieldVarNames(base, nv, j - 1)[base + j - 1 := VarName(nv[j - 1])]
  }

  function FieldVarTypes(base: VarKey, nv: seq<FieldVar>, j: nat): map<VarKey, Type>
    requires j <= |nv|
  {
    if j == 0 then map[] else FieldVarTypes(base, nv, j - 1)[base + j - 1 := nv[j - 1].ty]
  }

  /** Each spelling of field variable `j` leads to its key and type; later spellings overwrite earlier ones. */
  function SpellingMap(base: VarKey, nv: seq<FieldVar>, j: nat): map<string, (VarKey, Type)>
    requires j <= |nv|
  {
    if j == 0 then map[]
    else
      var fv := nv[j - 1];
      var entry := (base + j - 1, fv.ty);
      var m := SpellingMap(base, nv, j - 1);
      (if fv.symName.Some? then m[fv.symName.value := entry] else m)[fv.idxName := entry]
  }

  /** With distinct spellings, both spellings of every field variable lead to it, and nothing else is spelled. */
  lemma {:induction false} SpellingMapSpec(base: VarKey, nv: seq<FieldVar>, j: nat)
    requires j <= |nv| && SpellingsDistinct(nv)
    ensures forall i :: 0 <= i < j ==> nv[i].idxName in SpellingMap(base, nv, j) && SpellingMap(base, nv, j)[nv[i].idxName] == (base + i, nv[i].ty)
    ensures forall i :: 0 <= i < j && nv[i].symName.Some? ==>
      nv[i].symName.value in SpellingMap(base, nv, j) && SpellingMap(base, nv, j)[nv[i].symName.value] == (base + i, nv[i].ty)
    ensures forall s :: s in SpellingMap(base, nv, j) ==>
      exists i :: 0 <= i < j && (s == nv[i].idxName || nv[i].symName == Some(s))
  {
    SpellingMapIdx(base, nv, j);
    SpellingMapSym(base, nv, j);
    SpellingMapOnly(base, nv, j);
  }

  lemma {:induction false} SpellingMapIdx(base: VarKey, nv: seq<FieldVar>, j: nat)
    requires j <= |nv| && SpellingsDistinct(nv)
    ensures forall i :: 0 <= i < j ==> nv[i].idxName in SpellingMap(base, nv, j) && SpellingMap(base, nv, j)[nv[i].idxName] == (base + i, nv[i].ty)
  {
    if j > 0 {
      SpellingMapIdx(base, nv, j - 1);
      var m := SpellingMap(base, nv, j);
      forall i | 0 <= i < j - 1
        ensures nv[i].idxName in m && m[nv[i].idxName] == (base + i, nv[i].ty)
      {
        assert nv[j - 1].idxName != nv[i].idxName;
        assert nv[j - 1].symName != Some(nv[i].idxName);
      }
    }
  }

  lemma {:induction false} SpellingMapSym(base: VarKey, nv: seq<FieldVar>, j: nat)
    requires j <= |nv| && SpellingsDistinct(nv)
    ensures forall i :: 0 <= i < j && nv[i].symName.Some? ==>
      nv[i].symName.value in SpellingMap(base, nv, j) && SpellingMap(base, nv, j)[nv[i].symName.value] == (base + i, nv[i].ty)
  {
    if j > 0 {
      SpellingMapSym(base, nv, j - 1);
      var m := SpellingMap(base, nv, j);
      forall i | 0 <= i < j - 1 && nv[i].symName.Some?
        ensures nv[i].symName.value in m && m[nv[i].symName.value] == (base + i, nv[i].ty)
      {
        assert nv[i].symName != Some(nv[j - 1].idxName);
        assert nv[i].symName != nv[j - 1].symName;
      }
    }
  }

  lemma {:induction false} SpellingMapOnly(base: VarKey, nv: seq<FieldVar>, j: nat)
    requires j <= |nv|
    ensures forall s :: s in SpellingMap(base, nv, j) ==>
      exists i :: 0 <= i < j && (s == nv[i].idxName || nv[i].symName == Some(s))
  {
    if j > 0 {
      SpellingMapOnly(base, nv, j - 1);
    }
  }

  /** Adds every field variable, in order, and builds the spelling map. */
  method AddFieldVars(ii: Intent, nv: seq<FieldVar>) returns (spellings: map<string, (VarKey, Type)>)
    requires ii.Valid()
    modifies ii`vars, ii`varTypes, ii`nextVar
    ensures ii.Valid()
    ensures ii.nextVar == old(ii.nextVar) + |nv|
    ensures ii.vars == old(ii.vars) + FieldVarNames(old(ii.nextVar), nv, |nv|)
    ensures ii.varTypes == old(ii.varTypes) + FieldVarTypes(old(ii.nextVar), nv, |nv|)
    ensures spellings == SpellingMap(old(ii.nextVar), nv, |nv|)
  {
    ghost var base := ii.nextVar;
    spellings := map[];
    var j := 0;
    while j < |nv|
      invariant j <= |nv|
      invariant ii.Valid() && ii.nextVar == base + j
      invariant ii.vars == old(ii.vars) + FieldVarNames(base, nv, j)
      invariant ii.varTypes == old(ii.varTypes) + FieldVarTypes(base, nv, j)
      invariant spellings == SpellingMap(base, nv, j)
    {
      var fv := nv[j];
      var k := ii.InsertVar(VarName(fv), fv.ty);
      UnionUpdate(old(ii.vars), FieldVarNames(base, nv, j), k, VarName(fv));
      UnionUpdate(old(ii.varTypes), FieldVarTypes(base, nv, j), k, fv.ty);
      if fv.symName.Some? {
        spellings := spellings[fv.symName.value := (k, fv.ty)];
      }
      spellings := spellings[fv.idxName := (k, fv.ty)];
      j := j + 1;
    }
  }

  // ---------------------------------------------------------------------
  // Finding the accesses to rewrite

  /** A field access to replace by a reference to the new variable `newVar` of type `ty`. */
  datatype SplitAccess = SplitAccess(key: ExprKey, newVar: VarKey, ty: Type)

  /** The access spelled `accessName`, if it is one of the new spellings. */
  function LookupSpelling(accessName: string, spellings: map<string, (VarKey, Type)>, k: ExprKey): (r: Option<SplitAccess>)
    ensures r.Some? ==> r.value.key == k
  {
    if accessName in spellings
    then Some(SplitAccess(k, spellings[accessName].0, spellings[accessName].1))
    else None
  }

  /** The access `tupleName.field` matched against the spellings; an invalid accessor panics. */
  function MatchAccess(tupleName: string, field: TupleAccess, spellings: map<string, (VarKey, Type)>, k: ExprKey)
    : (r: Result<Option<SplitAccess>>)
    ensures r.Ok? && r.value.Some? ==> r.value.value.key == k
  {
    match field
    case InvalidAccess => Err(Panic(TupleAccessMsg))
    case Index(i) => Ok(LookupSpelling(tupleName + "." + NatToString(i), spellings, k))
    case Name(name) => Ok(LookupSpelling(tupleName + "." + name, spellings, k))
  }

  /**
   * Expression `k` is a field access into a path; a path by key must name a
   * variable. Other tuple expressions are left alone.
   */
  function SplitAccessAt(exprs: map<ExprKey, Expr>, vars: map<VarKey, string>, spellings: map<string, (VarKey, Type)>, k: ExprKey)
    : (r: Result<Option<SplitAccess>>)
    ensures r.Ok? && r.value.Some? ==> r.value.value.key == k
  {
    if k in exprs && exprs[k].TupleFieldAccess? && exprs[k].tuple in exprs then
      var e := exprs[k];
      var t := exprs[e.tuple];
      if t.PathByKey? then
        if t.varKey !in vars then Err(Panic(MissingVarMsg))
        else MatchAccess(vars[t.varKey], e.field, spellings, k)
      else if t.PathByName? then MatchAccess(t.path, e.field, spellings, k)
      else Ok(None)
    else Ok(None)
  }

  function SplitAccessesBelow(exprs: map<ExprKey, Expr>, vars: map<VarKey, string>, spellings: map<string, (VarKey, Type)>, n: nat)
    : Result<seq<SplitAccess>>
  {
    if n == 0 then Ok([])
    else
      var prev :- SplitAccessesBelow(exprs, vars, spellings, n - 1);
      var at :- SplitAccessAt(exprs, vars, spellings, n - 1);
      Ok(prev + (if at.Some? then [at.value] else []))
  }

  /** On success the accesses are exactly the matching field accesses below `n`, in increasing key order. */
  lemma {:induction false} SplitAccessesBelowSpec(exprs: map<ExprKey, Expr>, vars: map<VarKey, string>, spellings: map<string, (VarKey, Type)>, n: nat)
    ensures var r := SplitAccessesBelow(exprs, vars, spellings, n);
      && (r.Ok? ==>
            var acc := r.value;
            && (forall i :: 0 <= i < |acc| ==> acc[i].key < n && SplitAccessAt(exprs, vars, spellings, acc[i].key) == Ok(Some(acc[i])))
            && (forall i, j :: 0 <= i < j < |acc| ==> acc[i].key < acc[j].key)
            && (forall k :: 0 <= k < n && SplitAccessAt(exprs, vars, spellings, k) != Ok(None) ==>
                  exists i :: 0 <= i < |acc| && acc[i].key == k))
      && (r.Err? ==> exists k :: 0 <= k < n && SplitAccessAt(exprs, vars, spellings, k) == Err(r.error))
  {
    var r := SplitAccessesBelow(exprs, vars, spellings, n);
    if r.Ok? {
      SplitAccessesBelowSound(exprs, vars, spellings, n);
      SplitAccessesBelowComplete(exprs, vars, spellings, n);
    } else {
      SplitAccessesBelowErr(exprs, vars, spellings, n);
    }
  }

  /** Each of `acc` is the access at its key, a key below `n`. */
  predicate AccessesAt(exprs: map<ExprKey, Expr>, vars: map<VarKey, string>, spellings: map<string, (VarKey, Type)>, acc: seq<SplitAccess>, n: nat)
  {
    forall i :: 0 <= i < |acc| ==> acc[i].key < n && SplitAccessAt(exprs, vars, spellings, acc[i].key) == Ok(Some(acc[i]))
  }

  predicate AccessKeysIncrease(acc: seq<SplitAccess>)
  {
    forall i, j :: 0 <= i < j < |acc| ==> acc[i].key < acc[j].key
  }

  /** Every key below `n` holding an access to rewrite is among `acc`. */
  predicate AccessesAll(exprs: map<ExprKey, Expr>, vars: map<VarKey, string>, spellings: map<string, (VarKey, Type)>, acc: seq<SplitAccess>, n: nat)
  {
    forall k :: 0 <= k < n && SplitAccessAt(exprs, vars, spellings, k) != Ok(None) ==> exists i :: 0 <= i < |acc| && acc[i].key == k
  }

  lemma {:induction false} SplitAccessesBelowSound(exprs: map<ExprKey, Expr>, vars: map<VarKey, string>, spellings: map<string, (VarKey, Type)>, n: nat)
    requires SplitAccessesBelow(exprs, vars, spellings, n).Ok?
    ensures AccessesAt(exprs, vars, spellings, SplitAccessesBelow(exprs, vars, spellings, n).value, n)
    ensures AccessKeysIncrease(SplitAccessesBelow(exprs, vars, spellings, n).value)
  {
    if n > 0 {
      SplitAccessesBelowSound(exprs, vars, spellings, n - 1);
      var acc := SplitAccessesBelow(exprs, vars, spellings, n).value;
      var prev := SplitAccessesBelow(exprs, vars, spellings, n - 1).value;
      var at := SplitAccessAt(exprs, vars, spellings, n - 1).value;
      if at.Some? {
        assert acc == prev + [at.value];
        forall i | 0 <= i < |acc|
          ensures acc[i].key < n && SplitAccessAt(exprs, vars, spellings, acc[i].key) == Ok(Some(acc[i]))
        {
          if i < |prev| {
            assert acc[i] == prev[i];
          } else {
            assert acc[i] == at.value;
          }
        }
        forall i, j | 0 <= i < j < |acc|
          ensures acc[i].key < acc[j].key
        {
          assert acc[i] == prev[i];
          if j < |prev| {
            assert acc[j] == prev[j];
          } else {
            assert acc[j] == at.value;
          }
        }
      } else {
        assert acc == prev;
      }
    }
  }

  lemma {:induction false} SplitAccessesBelowComplete(exprs: map<ExprKey, Expr>, vars: map<VarKey, string>, spellings: map<string, (VarKey, Type)>, n: nat)
    requires SplitAccessesBelow(exprs, vars, spellings, n).Ok?
    ensures AccessesAll(exprs, vars, spellings, SplitAccessesBelow(exprs, vars, spellings, n).value, n)
  {
    if n > 0 {
      SplitAccessesBelowComplete(exprs, vars, spellings, n - 1);
      var acc := SplitAccessesBelow(exprs, vars, spellings, n).value;
      var prev := SplitAccessesBelow(exprs, vars, spellings, n - 1).value;
      var at := SplitAccessAt(exprs, vars, spellings, n - 1).value;
      forall k | 0 <= k < n && SplitAccessAt(exprs, vars, spellings, k) != Ok(None)
        ensures exists i :: 0 <= i < |acc| && acc[i].key == k
      {
        if k == n - 1 {
          assert acc == prev + [at.value];
          assert acc[|prev|].key == k;
        } else {
          var i :| 0 <= i < |prev| && prev[i].key == k;
          assert acc[i] == prev[i];
        }
      }
    }
  }

  lemma {:induction false} SplitAccessesBelowErr(exprs: map<ExprKey, Expr>, vars: map<VarKey, string>, spellings: map<string, (VarKey, Type)>, n: nat)
    requires SplitAccessesBelow(exprs, vars, spellings, n).Err?
    ensures exists k :: 0 <= k < n && SplitAccessAt(exprs, vars, spellings, k) == Err(SplitAccessesBelow(exprs, vars, spellings, n).error)
  {
    if SplitAccessesBelow(exprs, vars, spellings, n - 1).Err? {
      SplitAccessesBelowErr(exprs, vars, spellings, n - 1);
    }
  }

  lemma {:induction false} SplitAccessesPanicStays(exprs: map<ExprKey, Expr>, vars: map<VarKey, string>, spellings: map<string, (VarKey, Type)>, m: nat, n: nat)
    requires m <= n && SplitAccessesBelow(exprs, vars, spellings, m).Err?
    ensures SplitAccessesBelow(exprs, vars, spellings, n) == SplitAccessesBelow(exprs, vars, spellings, m)
    decreases n - m
  {
    if m < n {
      SplitAccessesPanicStays(exprs, vars, spellings, m, n - 1);
    }
  }

  method CollectSplitAccesses(ii: Intent, spellings: map<string, (VarKey, Type)>) returns (r: Result<seq<SplitAccess>>)
    ensures r == SplitAccessesBelow(ii.exprs, ii.vars, spellings, ii.nextExpr)
  {
    var acc := [];
    var k := 0;
    while k < ii.nextExpr
      invariant k <= ii.nextExpr
      invariant SplitAccessesBelow(ii.exprs, ii.vars, spellings, k) == Ok(acc)
    {
      var at := SplitAccessAt(ii.exprs, ii.vars, spellings, k);
      if at.Err? {
        SplitAccessesPanicStays(ii.exprs, ii.vars, spellings, k + 1, ii.nextExpr);
        return Err(at.error);
      }
      var next := acc + (if at.value.Some? then [at.value.value] else []);
      assert SplitAccessesBelow(ii.exprs, ii.vars, spellings, k + 1) == Ok(next);
      acc := next;
      k := k + 1;
    }
    r := Ok(acc);
  }

  // ---------------------------------------------------------------------
  // Rewriting the accesses

  /** Replaces one access by a new path to its field variable, typed with the field's type, and removes it. */
  method RewriteSplitAccess(ii: Intent, a: SplitAccess)
    requires ii.Valid()
    modifies ii`exprs, ii`exprTypes, ii`nextExpr, ii`constraints, ii`directives
    ensures ii.Valid() && ii.nextExpr == old(ii.nextExpr) + 1
    ensures ii.exprs == ReplaceInExprs(old(ii.exprs)[old(ii.nextExpr) := PathByKey(a.newVar)], a.key, old(ii.nextExpr)) - {a.key}
    ensures ii.exprTypes == old(ii.exprTypes)[old(ii.nextExpr) := a.ty] - {a.key}
    ensures ii.constraints == ReplaceKeys(old(ii.constraints), a.key, old(ii.nextExpr))
    ensures ii.directives == ReplaceDirectives(old(ii.directives), a.key, old(ii.nextExpr))
    ensures ii.Arena() == SplitStep(old(ii.Arena()), a)
  {
    var nk := ii.InsertTypedExpr(PathByKey(a.newVar), a.ty);
    ii.ReplaceAndRemove(a.key, nk);
  }

  /** Rewrites the accesses in order; the arena ends as `SplitBy` says. */
  method RewriteSplitAccesses(ii: Intent, accesses: seq<SplitAccess>)
    requires ii.Valid()
    requires forall i :: 0 <= i < |accesses| ==> accesses[i].key < ii.nextExpr
    modifies ii`exprs, ii`exprTypes, ii`nextExpr, ii`constraints, ii`directives
    ensures ii.Valid() && ii.nextExpr == old(ii.nextExpr) + |accesses|
    ensures forall i :: 0 <= i < |accesses| ==> accesses[i].key !in ii.exprs
    ensures ii.Arena() == SplitBy(old(ii.Arena()), accesses, |accesses|)
  {
    var i := 0;
    while i < |accesses|
      invariant 0 <= i <= |accesses|
      invariant ii.Valid() && ii.nextExpr == old(ii.nextExpr) + i
      invariant ii.Arena() == SplitBy(old(ii.Arena()), accesses, i)
    {
      RewriteSplitAccess(ii, accesses[i]);
      i := i + 1;
    }
    SplitKeysGone(old(ii.Arena()), accesses);
    assert ii.Arena().exprs == ii.exprs;
  }

  /** After the whole rewrite no access is left in the arena. */
  lemma SplitKeysGone(s: ExprArena, accesses: seq<SplitAccess>)
    requires forall i :: 0 <= i < |accesses| ==> accesses[i].key < s.nextExpr
    ensures forall i :: 0 <= i < |accesses| ==> accesses[i].key !in SplitBy(s, accesses, |accesses|).exprs
  {
    SplitByRenames(s, accesses, |accesses|);
    assert SplitKeys(accesses)[..|accesses|] == SplitKeys(accesses);
    assert forall i :: 0 <= i < |accesses| ==> accesses[i].key in SplitKeys(accesses);
  }

  /** What `RewriteSplitAccess` does to the arena, as a value. */
  function SplitStep(s: ExprArena, a: SplitAccess): ExprArena
  {
    var nk := s.nextExpr;
    ExprArena(ReplaceInExprs(s.exprs[nk := PathByKey(a.newVar)], a.key, nk) - {a.key}, s.exprTypes[nk := a.ty] - {a.key},
              nk + 1, ReplaceKeys(s.constraints, a.key, nk), ReplaceDirectives(s.directives, a.key, nk))
  }

  /** The arena once the first `n` accesses are rewritten, in order. */
  function SplitBy(s: ExprArena, accesses: seq<SplitAccess>, n: nat): ExprArena
    requires n <= |accesses|
  {
    if n == 0 then s else SplitStep(SplitBy(s, accesses, n - 1), accesses[n - 1])
  }

  function SplitKeys(accesses: seq<SplitAccess>): (r: seq<ExprKey>)
    ensures |r| == |accesses| && forall i :: 0 <= i < |accesses| ==> r[i] == accesses[i].key
  {
    seq(|accesses|, i requires 0 <= i < |accesses| => accesses[i].key)
  }

  /** One rewrite, below the arena's counter, is the replacement of the access by the fresh key. */
  lemma SplitStepReplaces(s: ExprArena, a: SplitAccess, u: ExprArena, from: ExprKey, to: ExprKey)
    requires a.key < s.nextExpr && u == SplitStep(s, a) && from == a.key && to == s.nextExpr
    ensures ReplacedFrom(s, u, from, to)
  {
  }

  /**
   * What rewriting the first `n` accesses does to what the arena held: the
   * access keys are replaced, in order, by the fresh keys `s.nextExpr + i`.
   */
  lemma {:induction false} SplitByRenames(s: ExprArena, accesses: seq<SplitAccess>, n: nat)
    requires n <= |accesses|
    requires forall i :: 0 <= i < |accesses| ==> accesses[i].key < s.nextExpr
    ensures SplitBy(s, accesses, n).nextExpr == s.nextExpr + n
    ensures RenamedFrom(s, SplitBy(s, accesses, n), SplitKeys(accesses)[..n], FreshKeys(s.nextExpr, |accesses|)[..n])
  {
    var froms, tos := SplitKeys(accesses), FreshKeys(s.nextExpr, |accesses|);
    if n == 0 {
      assert froms[..0] == [] && tos[..0] == [];
      RenamedFromNone(s);
    } else {
      SplitByRenames(s, accesses, n - 1);
      var t := SplitBy(s, accesses, n - 1);
      assert froms[n - 1] == accesses[n - 1].key && tos[n - 1] == t.nextExpr;
      SplitStepReplaces(t, accesses[n - 1], SplitBy(s, accesses, n), froms[n - 1], tos[n - 1]);
      RenamedFromStep(s, t, SplitBy(s, accesses, n), froms, tos, n);
    }
  }

  /** Key `k` holds a path to the access's field variable, typed with that field's type. */
  predicate SplitPathAt(t: ExprArena, k: ExprKey, a: SplitAccess)
  {
    && k in t.exprs && t.exprs[k] == PathByKey(a.newVar)
    && k in t.exprTypes && t.exprTypes[k] == a.ty
  }

  /** A rewrite adds its path at the fresh key and keeps the paths added before, which lie above the access. */
  lemma SplitStepPaths(t: ExprArena, a: SplitAccess, u: ExprArena, k: ExprKey, b: SplitAccess)
    requires a.key < k && u == SplitStep(t, a)
    ensures k == t.nextExpr && b == a ==> SplitPathAt(u, k, b)
    ensures k < t.nextExpr && SplitPathAt(t, k, b) ==> SplitPathAt(u, k, b)
  {
  }

  /** Each rewrite takes one fresh key. */
  lemma {:induction false} SplitByNext(s: ExprArena, accesses: seq<SplitAccess>, n: nat)
    requires n <= |accesses|
    ensures SplitBy(s, accesses, n).nextExpr == s.nextExpr + n
  {
    if n > 0 {
      SplitByNext(s, accesses, n - 1);
    }
  }

  /** What rewriting the first `n` accesses adds: the path of access `i` at the fresh key `s.nextExpr + i`. */
  lemma {:induction false} SplitByPath(s: ExprArena, accesses: seq<SplitAccess>, n: nat, i: nat)
    requires i < n <= |accesses|
    requires forall j :: 0 <= j < |accesses| ==> accesses[j].key < s.nextExpr
    ensures SplitPathAt(SplitBy(s, accesses, n), s.nextExpr + i, accesses[i])
  {
    var t := SplitBy(s, accesses, n - 1);
    SplitByNext(s, accesses, n - 1);
    if i < n - 1 {
      SplitByPath(s, accesses, n - 1, i);
    }
    SplitStepPaths(t, accesses[n - 1], SplitBy(s, accesses, n), s.nextExpr + i, accesses[i]);
  }

  /**
   * The rewrite of distinct accesses retargets every reference to them: a
   * reference to the `i`-th access, in an expression or a constraint the
   * pass started with, now names the fresh key `s.nextExpr + i`.
   */
  lemma SplitByRetargets(s: ExprArena, accesses: seq<SplitAccess>)
    requires forall i :: 0 <= i < |accesses| ==> accesses[i].key < s.nextExpr
    requires forall i, j :: 0 <= i < j < |accesses| ==> accesses[i].key != accesses[j].key
    ensures var t := SplitBy(s, accesses, |accesses|);
      var froms, tos := SplitKeys(accesses), FreshKeys(s.nextExpr, |accesses|);
      && (forall i :: 0 <= i < |accesses| ==> Renamed(accesses[i].key, froms, tos) == s.nextExpr + i)
      && (forall k :: k in t.exprs && k < s.nextExpr ==> k in s.exprs && ExprRefs(t.exprs[k]) == RenamedKeys(ExprRefs(s.exprs[k]), froms, tos))
      && t.constraints == RenamedKeys(s.constraints, froms, tos)
  {
    var t := SplitBy(s, accesses, |accesses|);
    var froms, tos := SplitKeys(accesses), FreshKeys(s.nextExpr, |accesses|);
    SplitByRenames(s, accesses, |accesses|);
    assert froms[..|accesses|] == froms && tos[..|accesses|] == tos;
    forall i | 0 <= i < |accesses|
      ensures Renamed(accesses[i].key, froms, tos) == s.nextExpr + i
    {
      RenamedHits(i, froms, tos);
    }
    forall k | k in t.exprs && k < s.nextExpr
      ensures k in s.exprs && ExprRefs(t.exprs[k]) == RenamedKeys(ExprRefs(s.exprs[k]), froms, tos)
    {
      RenamedExprRefs(s.exprs[k], froms, tos);
    }
  }

  /** After the rewrite, nothing the pass started with refers to an access any more. */
  lemma SplitByNoDangling(s: ExprArena, accesses: seq<SplitAccess>)
    requires forall i :: 0 <= i < |accesses| ==> accesses[i].key < s.nextExpr
    ensures var t := SplitBy(s, accesses, |accesses|);
      var froms := SplitKeys(accesses);
      && (forall k, j :: k in t.exprs && k < s.nextExpr && 0 <= j < |ExprRefs(t.exprs[k])| ==> ExprRefs(t.exprs[k])[j] !in froms)
      && (forall j :: 0 <= j < |t.constraints| ==> t.constraints[j] !in froms)
      && (forall j :: 0 <= j < |t.directives| && !t.directives[j].Satisfy? ==> t.directives[j].objective !in froms)
  {
    var froms, tos := SplitKeys(accesses), FreshKeys(s.nextExpr, |accesses|);
    SplitByRenames(s, accesses, |accesses|);
    assert froms[..|accesses|] == froms && tos[..|accesses|] == tos;
    RenamedFromNoDangling(s, SplitBy(s, accesses, |accesses|), froms, tos);
  }

  // ---------------------------------------------------------------------
  // The pass

  /**
   * The part of `split_tuple_vars` after the new field variables `nv` are
   * known: adds them, then rewrites the field accesses through them.
   */
  method SplitNewFieldVars(ii: Intent, nv: seq<FieldVar>) returns (r: Result<bool>)
    requires ii.Valid()
    modifies ii`vars, ii`varTypes, ii`nextVar, ii`exprs, ii`exprTypes, ii`nextExpr, ii`constraints, ii`directives
    ensures ii.Valid()
    ensures var base := old(ii.nextVar);
      && ii.nextVar == base + |nv|
      && ii.vars == old(ii.vars) + FieldVarNames(base, nv, |nv|)
      && ii.varTypes == old(ii.varTypes) + FieldVarTypes(base, nv, |nv|)
    ensures var acc := SplitAccessesBelow(old(ii.exprs), ii.vars, SpellingMap(old(ii.nextVar), nv, |nv|), old(ii.nextExpr));
      && (acc.Err? ==> r == Err(acc.error) && ii.Arena() == old(ii.Arena()))
      && (acc.Ok? ==>
            && r == Ok(true)
            && (forall i :: 0 <= i < |acc.value| ==> acc.value[i].key !in ii.exprs)
            && ii.Arena() == SplitBy(old(ii.Arena()), acc.value, |acc.value|))
  {
    ghost var a0 := ii.Arena();
    var spellings := AddFieldVars(ii, nv);
    assert ii.Arena() == a0;
    var accesses := CollectSplitAccesses(ii, spellings);
    if accesses.Err? {
      return Err(accesses.error);
    }
    SplitAccessesBelowSpec(ii.exprs, ii.vars, spellings, ii.nextExpr);
    RewriteSplitAccesses(ii, accesses.value);
    r := Ok(true);
  }

  /**
   * `split_tuple_vars`: splits every tuple variable not in `skip` and
   * rewrites the field accesses through it. Returns whether any field
   * variable was added, and `skip` extended with the split variables.
   */
  method SplitTupleVars(ii: Intent, skip: seq<VarKey>) returns (r: Result<bool>, skipped: seq<VarKey>)
    requires ii.Valid()
    modifies ii`vars, ii`varTypes, ii`nextVar, ii`exprs, ii`exprTypes, ii`nextExpr, ii`constraints, ii`directives
    ensures ii.Valid()
    ensures ii.enums == old(ii.enums) && ii.symbols == old(ii.symbols)
    ensures var tv := TupleVarsBelow(old(ii.vars), old(ii.varTypes), skip, old(ii.nextVar));
      && (tv.Err? ==> r == Err(tv.error) && unchanged(ii))
      && (tv.Ok? ==>
            var nv := NewFieldVars(old(ii.vars), old(ii.varTypes), tv.value);
            && skipped == skip + tv.value
            && (nv == [] <==> r == Ok(false))
            && (nv == [] ==> unchanged(ii))
            && (r == Ok(true) ==>
                  var base := old(ii.nextVar);
                  var spellings := SpellingMap(base, nv, |nv|);
                  && ii.nextVar == base + |nv|
                  && ii.vars == old(ii.vars) + FieldVarNames(base, nv, |nv|)
                  && ii.varTypes == old(ii.varTypes) + FieldVarTypes(base, nv, |nv|)
                  && var acc := SplitAccessesBelow(old(ii.exprs), ii.vars, spellings, old(ii.nextExpr));
                     && acc.Ok?
                     && (forall i :: 0 <= i < |acc.value| ==> acc.value[i].key !in ii.exprs)
                     && ii.Arena() == SplitBy(old(ii.Arena()), acc.value, |acc.value|)))
  {
    var tv, nv := CollectTupleVars(ii, skip);
    if tv.Err? {
      return Err(tv.error), skip;
    }
    skipped := skip + tv.value;
    if nv == [] {
      return Ok(false), skipped;
    }
    r := SplitNewFieldVars(ii, nv);
  }
}
