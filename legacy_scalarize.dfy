/**
 * Scalarisation in the older intent pipeline. Every array decision
 * variable becomes one variable per element, named `<name>[i]`, nested
 * arrays recursively (`<name>[i][j]`), and the array variable is removed;
 * then every array element access with constant indices is overwritten in
 * place by a path to the element variable's name. Unlike the newer pass,
 * an access index has no upper-bound check.
 */
module LegacyScalarize {
  import opened Util
  import opened Intermediate
  import Scalarize

  const VarIndexPanicMsg := "invalid SlotMap key used"

  /** A type of the older intent: an array type carries only its range expression. */
  datatype LegacyType = LPrimitive(kind: PrimitiveKind) | LArray(elem: LegacyType, range: ExprKey) | LOther

  datatype LegacyVar = LegacyVar(name: string, ty: Option<LegacyType>)

  /** The element types scalarisation accepts: arrays and `int`, `real`, `bool`. */
  predicate Supported(t: LegacyType)
  {
    t.LArray? || (t.LPrimitive? && t.kind in {Int, Real, Bool})
  }

  /** No array element access is its own ancestor: the indexed expression of an access has a smaller key. */
  predicate WellFounded(exprs: map<ExprKey, Expr>)
  {
    forall k :: k in exprs && exprs[k].ArrayElementAccess? ==> exprs[k].indexed < k
  }

  class LegacyIntent {
    var vars: map<VarKey, LegacyVar>
    var exprs: map<ExprKey, Expr>
    var nextVar: nat
    var nextExpr: nat

    /** Keys in use were handed out before the counters; the arena is built bottom-up. */
    predicate Valid()
      reads this
    {
      && (forall k :: k in vars ==> k < nextVar)
      && (forall k :: k in exprs ==> k < nextExpr)
      && WellFounded(exprs)
    }

    method InsertVar(name: string, ty: LegacyType) returns (k: VarKey)
      requires Valid()
      modifies this`vars, this`nextVar
      ensures Valid()
      ensures k == old(nextVar) && nextVar == old(nextVar) + 1
      ensures vars == old(vars)[k := LegacyVar(name, Some(ty))]
    {
      k := nextVar;
      vars := vars[k := LegacyVar(name, Some(ty))];
      nextVar := nextVar + 1;
    }
  }

  // ---------------------------------------------------------------------
  // Array variables

  /** The variable arena as a value: the variables and the next fresh key. */
  datatype VarArena = VarArena(vars: map<VarKey, LegacyVar>, next: nat)

  predicate Bounded(st: VarArena)
  {
    forall k :: k in st.vars ==> k < st.next
  }

  /**
   * `scalarize_array` on the arena `st`: the variable `key` is an array of
   * `elemTy` whose length is the value of the expression `range`.
   */
  function ExpandArray(st: VarArena, exprs: map<ExprKey, Expr>, oracle: Expr -> Option<Immediate>,
                       key: VarKey, name: string, elemTy: LegacyType, range: ExprKey): Result<VarArena>
    decreases elemTy, 1, 0
  {
    if !Supported(elemTy) then Err(Internal(Scalarize.UnsupportedElementMsg))
    else if range !in exprs then Err(Panic(Scalarize.ExprKeyExists))
    else
      match Evaluate(exprs[range], oracle)
      case None => Err(NonConstArrayLength)
      case Some(v) =>
        if v.IntImm? && v.intValue > 0 then
          var st' :- ExpandElems(st, exprs, oracle, name, elemTy, v.intValue, 0);
          Ok(VarArena(st'.vars - {key}, st'.next))
        else Err(InvalidConstArrayLength)
  }

  /** Elements `i` to `val - 1`: each gets a fresh variable, itself scalarised when it is an array. */
  function ExpandElems(st: VarArena, exprs: map<ExprKey, Expr>, oracle: Expr -> Option<Immediate>,
                       name: string, elemTy: LegacyType, val: int, i: nat): Result<VarArena>
    decreases elemTy, 0, val - i
  {
    if i >= val then Ok(st)
    else
      var k := st.next;
      var elemName := Scalarize.ElementName(name, i);
      var st1 := VarArena(st.vars[k := LegacyVar(elemName, Some(elemTy))], st.next + 1);
      if elemTy.LArray? then
        var st2 :- ExpandArray(st1, exprs, oracle, k, elemName, elemTy.elem, elemTy.range);
        ExpandElems(st2, exprs, oracle, name, elemTy, val, i + 1)
      else
        ExpandElems(st1, exprs, oracle, name, elemTy, val, i + 1)
  }

  /** A variable scalarisation leaves alone: typed with a supported non-array type. */
  predicate ScalarVar(v: LegacyVar)
  {
    v.ty.Some? && Supported(v.ty.value) && !v.ty.value.LArray?
  }

  /** `n` is `name` followed by an index bracket. */
  predicate Extends(n: string, name: string)
  {
    |name| < |n| && n[..|name| + 1] == name + "["
  }

  lemma ElementNameExtends(name: string, i: nat)
    ensures Extends(Scalarize.ElementName(name, i), name)
  {
    var n := Scalarize.ElementName(name, i);
    assert n == name + "[" + NatToString(i) + "]";
    assert n[..|name| + 1] == name + "[";
  }

  lemma ExtendsTransitive(n: string, m: string, name: string)
    requires Extends(n, m) && Extends(m, name)
    ensures Extends(n, name)
  {
    assert n[..|name| + 1] == n[..|m| + 1][..|name| + 1];
    assert (m + "[")[..|name| + 1] == m[..|name| + 1];
  }

  /**
   * `after` keeps every variable of `before` outside `gone` unchanged, and
   * every other variable it holds is a fresh, scalar element variable
   * named after `name`.
   */
  predicate Expanded(before: VarArena, after: VarArena, gone: set<VarKey>, name: string)
  {
    && before.next <= after.next
    && (forall k :: k in before.vars && k !in gone ==> k in after.vars && after.vars[k] == before.vars[k])
    && (forall k :: k in after.vars ==>
          (k in before.vars && k !in gone) ||
          (before.next <= k < after.next && ScalarVar(after.vars[k]) && Extends(after.vars[k].name, name)))
  }

  /**
   * Scalarising an array variable removes it, keeps every other variable,
   * and adds only scalar variables named `<name>[..]`: no array is left
   * behind, however deeply nested.
   */
  lemma {:induction false} ExpandArrayShape(st: VarArena, exprs: map<ExprKey, Expr>, oracle: Expr -> Option<Immediate>,
                                            key: VarKey, name: string, elemTy: LegacyType, range: ExprKey)
    requires Bounded(st) && key < st.next
    ensures var r := ExpandArray(st, exprs, oracle, key, name, elemTy, range);
      r.Ok? ==> Bounded(r.value) && Expanded(st, r.value, {key}, name)
    decreases elemTy, 1, 0
  {
    if Supported(elemTy) && range in exprs {
      var v := Evaluate(exprs[range], oracle);
      if v.Some? && v.value.IntImm? && v.value.intValue > 0 {
        ExpandElemsShape(st, exprs, oracle, name, elemTy, v.value.intValue, 0);
      }
    }
  }

  lemma {:induction false} ExpandElemsShape(st: VarArena, exprs: map<ExprKey, Expr>, oracle: Expr -> Option<Immediate>,
                                            name: string, elemTy: LegacyType, val: int, i: nat)
    requires Bounded(st) && Supported(elemTy)
    ensures var r := ExpandElems(st, exprs, oracle, name, elemTy, val, i);
      r.Ok? ==> Bounded(r.value) && Expanded(st, r.value, {}, name)
    decreases elemTy, 0, val - i
  {
    if i < val {
      var k := st.next;
      var elemName := Scalarize.ElementName(name, i);
      var st1 := VarArena(st.vars[k := LegacyVar(elemName, Some(elemTy))], st.next + 1);
      ElementNameExtends(name, i);
      if elemTy.LArray? {
        var r2 := ExpandArray(st1, exprs, oracle, k, elemName, elemTy.elem, elemTy.range);
        ExpandArrayShape(st1, exprs, oracle, k, elemName, elemTy.elem, elemTy.range);
        if r2.Ok? {
          var st2 := r2.value;
          var r3 := ExpandElems(st2, exprs, oracle, name, elemTy, val, i + 1);
          ExpandElemsShape(st2, exprs, oracle, name, elemTy, val, i + 1);
          if r3.Ok? {
            var st3 := r3.value;
            forall k' | k' in st3.vars
              ensures (k' in st.vars) || (st.next <= k' < st3.next && ScalarVar(st3.vars[k']) && Extends(st3.vars[k'].name, name))
            {
              if k' !in st2.vars && st2.next <= k' {
              } else if k' in st2.vars && !(k' in st1.vars && k' != k) {
                ExtendsTransitive(st3.vars[k'].name, elemName, name);
              }
            }
          }
        }
      } else {
        ExpandElemsShape(st1, exprs, oracle, name, elemTy, val, i + 1);
      }
    }
  }

  /**
   * A one-dimensional array of length `val` becomes exactly the variables
   * `<name>[0]` .. `<name>[val - 1]`, under consecutive fresh keys and typed
   * with the element type.
   */
  lemma ExpandElemsFlat(st: VarArena, exprs: map<ExprKey, Expr>, oracle: Expr -> Option<Immediate>,
                        name: string, elemTy: LegacyType, val: int, i: nat)
    requires Bounded(st) && !elemTy.LArray? && i <= val
    ensures var r := ExpandElems(st, exprs, oracle, name, elemTy, val, i);
      && r.Ok? && r.value.next == st.next + (val - i)
      && (forall k :: k in st.vars ==> k in r.value.vars && r.value.vars[k] == st.vars[k])
      && (forall k :: st.next <= k < r.value.next ==>
            k in r.value.vars && r.value.vars[k] == LegacyVar(Scalarize.ElementName(name, i + (k - st.next)), Some(elemTy)))
  {
    ExpandElemsFlatKeeps(st, exprs, oracle, name, elemTy, val, i);
    ExpandElemsFlatNew(st, exprs, oracle, name, elemTy, val, i);
  }

  /** One scalar element: element `i` goes under the next fresh key and the rest follow. */
  function WithElement(st: VarArena, name: string, elemTy: LegacyType, i: nat): (r: VarArena)
    ensures r.next == st.next + 1 && st.next in r.vars
    ensures r.vars[st.next] == LegacyVar(Scalarize.ElementName(name, i), Some(elemTy))
  {
    VarArena(st.vars[st.next := LegacyVar(Scalarize.ElementName(name, i), Some(elemTy))], st.next + 1)
  }

  lemma ExpandElemsScalarStep(st: VarArena, exprs: map<ExprKey, Expr>, oracle: Expr -> Option<Immediate>,
                              name: string, elemTy: LegacyType, val: int, i: nat)
    requires !elemTy.LArray? && i < val
    ensures ExpandElems(st, exprs, oracle, name, elemTy, val, i)
         == ExpandElems(WithElement(st, name, elemTy, i), exprs, oracle, name, elemTy, val, i + 1)
  {
  }

  /** The elements of a one-dimensional array are all added, and every existing variable is kept. */
  lemma {:induction false} ExpandElemsFlatKeeps(st: VarArena, exprs: map<ExprKey, Expr>, oracle: Expr -> Option<Immediate>,
                                                name: string, elemTy: LegacyType, val: int, i: nat)
    requires Bounded(st) && !elemTy.LArray? && i <= val
    ensures var r := ExpandElems(st, exprs, oracle, name, elemTy, val, i);
      && r.Ok? && r.value.next == st.next + (val - i)
      && (forall k :: k in st.vars ==> k in r.value.vars && r.value.vars[k] == st.vars[k])
    decreases val - i
  {
    if i < val {
      var st1 := WithElement(st, name, elemTy, i);
      ExpandElemsScalarStep(st, exprs, oracle, name, elemTy, val, i);
      ExpandElemsFlatKeeps(st1, exprs, oracle, name, elemTy, val, i + 1);
    }
  }

  /** Key `st.next + d` holds the element `<name>[i + d]`. */
  lemma {:induction false} ExpandElemsFlatAt(st: VarArena, exprs: map<ExprKey, Expr>, oracle: Expr -> Option<Immediate>,
                                             name: string, elemTy: LegacyType, val: int, i: nat, d: nat)
    requires Bounded(st) && !elemTy.LArray? && i + d < val
    ensures var r := ExpandElems(st, exprs, oracle, name, elemTy, val, i);
      r.Ok? && st.next + d in r.value.vars
      && r.value.vars[st.next + d] == LegacyVar(Scalarize.ElementName(name, i + d), Some(elemTy))
    decreases d
  {
    var st1 := WithElement(st, name, elemTy, i);
    ExpandElemsScalarStep(st, exprs, oracle, name, elemTy, val, i);
    if d == 0 {
      ExpandElemsFlatKeeps(st1, exprs, oracle, name, elemTy, val, i + 1);
    } else {
      ExpandElemsFlatAt(st1, exprs, oracle, name, elemTy, val, i + 1, d - 1);
    }
  }

  lemma ExpandElemsFlatNew(st: VarArena, exprs: map<ExprKey, Expr>, oracle: Expr -> Option<Immediate>,
                           name: string, elemTy: LegacyType, val: int, i: nat)
    requires Bounded(st) && !elemTy.LArray? && i <= val
    ensures var r := ExpandElems(st, exprs, oracle, name, elemTy, val, i);
      r.Ok? && forall k :: st.next <= k < st.next + (val - i) ==>
        k in r.value.vars && r.value.vars[k] == LegacyVar(Scalarize.ElementName(name, i + (k - st.next)), Some(elemTy))
  {
    ExpandElemsFlatKeeps(st, exprs, oracle, name, elemTy, val, i);
    forall k | st.next <= k < st.next + (val - i)
      ensures var r := ExpandElems(st, exprs, oracle, name, elemTy, val, i);
        k in r.value.vars && r.value.vars[k] == LegacyVar(Scalarize.ElementName(name, i + (k - st.next)), Some(elemTy))
    {
      ExpandElemsFlatAt(st, exprs, oracle, name, elemTy, val, i, k - st.next);
    }
  }

  lemma ExpandArrayFlat(st: VarArena, exprs: map<ExprKey, Expr>, oracle: Expr -> Option<Immediate>,
                        key: VarKey, name: string, elemTy: LegacyType, range: ExprKey, val: int)
    requires Bounded(st) && key < st.next
    requires Supported(elemTy) && !elemTy.LArray?
    requires range in exprs && Evaluate(exprs[range], oracle) == Some(IntImm(val)) && val > 0
    ensures var r := ExpandArray(st, exprs, oracle, key, name, elemTy, range);
      && r.Ok? && r.value.next == st.next + val && key !in r.value.vars
      && (forall k :: st.next <= k < r.value.next ==>
            k in r.value.vars && r.value.vars[k] == LegacyVar(Scalarize.ElementName(name, k - st.next), Some(elemTy)))
  {
    ExpandElemsFlat(st, exprs, oracle, name, elemTy, val, 0);
  }

  /**
   * The elements of a two-dimensional array: element `i` is itself
   * scalarised, so for every `i` and `j` a variable `<name>[i][j]` of the
   * inner element type appears under a fresh key.
   */
  lemma {:induction false} ExpandElemsNested(st: VarArena, exprs: map<ExprKey, Expr>, oracle: Expr -> Option<Immediate>,
                                             name: string, inner: LegacyType, innerRange: ExprKey, innerVal: int, val: int, i: nat)
    requires Bounded(st) && Supported(inner) && !inner.LArray?
    requires innerRange in exprs && Evaluate(exprs[innerRange], oracle) == Some(IntImm(innerVal)) && innerVal > 0
    requires i <= val
    ensures var r := ExpandElems(st, exprs, oracle, name, LArray(inner, innerRange), val, i);
      && r.Ok?
      && forall i', j :: i <= i' < val && 0 <= j < innerVal ==> HasVarAbove(r.value.vars, st.next, NestedVar(name, i', j, inner))
    decreases val - i
  {
    if i < val {
      var elemTy := LArray(inner, innerRange);
      var st1 := WithElement(st, name, elemTy, i);
      var st2 := NestedElement(st1, exprs, oracle, st.next, name, i, inner, innerRange, innerVal);
      ExpandElemsArrayStep(st, exprs, oracle, name, elemTy, val, i, st2);
      ExpandElemsNested(st2, exprs, oracle, name, inner, innerRange, innerVal, val, i + 1);
      ExpandElemsShape(st2, exprs, oracle, name, elemTy, val, i + 1);
      var st3 := ExpandElems(st2, exprs, oracle, name, elemTy, val, i + 1).value;
      forall i', j | i <= i' < val && 0 <= j < innerVal
        ensures HasVarAbove(st3.vars, st.next, NestedVar(name, i', j, inner))
      {
        if i' == i {
          var k := st1.next + j;
          assert k in st2.vars && st2.vars[k] == NestedVar(name, i, k - st1.next, inner);
          assert k in st3.vars && st3.vars[k] == NestedVar(name, i', j, inner);
        } else {
          assert HasVarAbove(st3.vars, st2.next, NestedVar(name, i', j, inner));
        }
      }
    }
  }

  lemma ExpandElemsArrayStep(st: VarArena, exprs: map<ExprKey, Expr>, oracle: Expr -> Option<Immediate>,
                             name: string, elemTy: LegacyType, val: int, i: nat, st2: VarArena)
    requires elemTy.LArray? && i < val
    requires ExpandArray(WithElement(st, name, elemTy, i), exprs, oracle, st.next,
                         Scalarize.ElementName(name, i), elemTy.elem, elemTy.range) == Ok(st2)
    ensures ExpandElems(st, exprs, oracle, name, elemTy, val, i) == ExpandElems(st2, exprs, oracle, name, elemTy, val, i + 1)
  {
  }

  /** Some variable under a key from `lo` on is `v`. */
  predicate HasVarAbove(vars: map<VarKey, LegacyVar>, lo: nat, v: LegacyVar)
  {
    exists k :: lo <= k && k in vars && vars[k] == v
  }

  /** The variable `<name>[i][j]` of type `inner`. */
  function NestedVar(name: string, i: nat, j: nat, inner: LegacyType): LegacyVar
  {
    LegacyVar(Scalarize.ElementName(Scalarize.ElementName(name, i), j), Some(inner))
  }

  /** Scalarising element `i` (just inserted under `key`) of a two-dimensional array. */
  lemma NestedElement(st1: VarArena, exprs: map<ExprKey, Expr>, oracle: Expr -> Option<Immediate>, key: VarKey,
                      name: string, i: nat, inner: LegacyType, innerRange: ExprKey, innerVal: int) returns (st2: VarArena)
    requires Bounded(st1) && key < st1.next && Supported(inner) && !inner.LArray?
    requires innerRange in exprs && Evaluate(exprs[innerRange], oracle) == Some(IntImm(innerVal)) && innerVal > 0
    ensures ExpandArray(st1, exprs, oracle, key, Scalarize.ElementName(name, i), inner, innerRange) == Ok(st2)
    ensures Bounded(st2) && st1.next <= st2.next
    ensures forall k :: st1.next <= k < st1.next + innerVal ==> k in st2.vars && st2.vars[k] == NestedVar(name, i, k - st1.next, inner)
  {
    var elemName := Scalarize.ElementName(name, i);
    ExpandArrayFlat(st1, exprs, oracle, key, elemName, inner, innerRange, innerVal);
    ExpandArrayShape(st1, exprs, oracle, key, elemName, inner, innerRange);
    st2 := ExpandArray(st1, exprs, oracle, key, elemName, inner, innerRange).value;
  }

  /** A two-dimensional array variable becomes the variables `<name>[i][j]`, and is itself removed. */
  lemma ExpandArrayNested(st: VarArena, exprs: map<ExprKey, Expr>, oracle: Expr -> Option<Immediate>,
                          key: VarKey, name: string, inner: LegacyType, innerRange: ExprKey, innerVal: int, range: ExprKey, val: int)
    requires Bounded(st) && key < st.next && Supported(inner) && !inner.LArray?
    requires innerRange in exprs && Evaluate(exprs[innerRange], oracle) == Some(IntImm(innerVal)) && innerVal > 0
    requires range in exprs && Evaluate(exprs[range], oracle) == Some(IntImm(val)) && val > 0
    ensures var r := ExpandArray(st, exprs, oracle, key, name, LArray(inner, innerRange), range);
      && r.Ok? && key !in r.value.vars
      && forall i, j :: 0 <= i < val && 0 <= j < innerVal ==> NestedVar(name, i, j, inner) in r.value.vars.Values
  {
    ExpandElemsNested(st, exprs, oracle, name, inner, innerRange, innerVal, val, 0);
    var st' := ExpandElems(st, exprs, oracle, name, LArray(inner, innerRange), val, 0).value;
    var after := VarArena(st'.vars - {key}, st'.next);
    assert ExpandArray(st, exprs, oracle, key, name, LArray(inner, innerRange), range) == Ok(after);
    forall i, j | 0 <= i < val && 0 <= j < innerVal
      ensures NestedVar(name, i, j, inner) in after.vars.Values
    {
      assert HasVarAbove(st'.vars, st.next, NestedVar(name, i, j, inner));
      var k :| st.next <= k && k in st'.vars && st'.vars[k] == NestedVar(name, i, j, inner);
      assert k in after.vars && after.vars[k] == NestedVar(name, i, j, inner);
    }
  }

  /** `scalarize_array`, proved against `ExpandArray`. */
  method ScalarizeArrayVar(ii: LegacyIntent, oracle: Expr -> Option<Immediate>,
                           key: VarKey, name: string, elemTy: LegacyType, range: ExprKey) returns (r: Result<()>)
    requires ii.Valid()
    modifies ii`vars, ii`nextVar
    ensures ii.Valid()
    ensures var s := ExpandArray(VarArena(old(ii.vars), old(ii.nextVar)), ii.exprs, oracle, key, name, elemTy, range);
      && (r.Ok? <==> s.Ok?)
      && (r.Err? ==> r.error == s.error)
      && (r.Ok? ==> ii.vars == s.value.vars && ii.nextVar == s.value.next)
    decreases elemTy, 1, 0
  {
    if !Supported(elemTy) {
      return Err(Internal(Scalarize.UnsupportedElementMsg));
    }
    if range !in ii.exprs {
      return Err(Panic(Scalarize.ExprKeyExists));
    }
    var v := Evaluate(ii.exprs[range], oracle);
    if v.None? {
      return Err(NonConstArrayLength);
    }
    if !(v.value.IntImm? && v.value.intValue > 0) {
      return Err(InvalidConstArrayLength);
    }
    var val := v.value.intValue;
    ghost var start := VarArena(ii.vars, ii.nextVar);
    var i: nat := 0;
    while i < val
      invariant i <= val && ii.Valid()
      invariant ExpandElems(start, ii.exprs, oracle, name, elemTy, val, 0)
             == ExpandElems(VarArena(ii.vars, ii.nextVar), ii.exprs, oracle, name, elemTy, val, i)
      decreases val - i
    {
      var elemName := Scalarize.ElementName(name, i);
      var k := ii.InsertVar(elemName, elemTy);
      if elemTy.LArray? {
        var nested := ScalarizeArrayVar(ii, oracle, k, elemName, elemTy.elem, elemTy.range);
        if nested.Err? {
          return Err(nested.error);
        }
      }
      i := i + 1;
    }
    ii.vars := ii.vars - {key};
    r := Ok(());
  }

  // ---------------------------------------------------------------------
  // Array element accesses

  /** The path `<base>[<index>]` when the index is a non-negative integer; no upper bound is checked. */
  function IndexedPath(base: string, index: Option<Immediate>): (r: Result<string>)
    ensures r.Ok? <==> index.Some? && index.value.IntImm? && index.value.intValue >= 0
    ensures r.Ok? ==> r.value == Scalarize.ElementName(base, index.value.intValue)
    ensures r.Err? ==> r.error == (if index.None? then NonConstArrayIndex else InvalidConstArrayIndex)
  {
    match index
    case None => Err(NonConstArrayIndex)
    case Some(v) => if v.IntImm? && v.intValue >= 0 then Ok(Scalarize.ElementName(base, v.intValue)) else Err(InvalidConstArrayIndex)
  }

  /**
   * The path an access `indexed[index]` is rewritten to: the indexed
   * expression must be a path, a variable, or itself an access, and the
   * index is checked before the inner access is resolved.
   */
  function AccessPath(exprs: map<ExprKey, Expr>, vars: map<VarKey, LegacyVar>, oracle: Expr -> Option<Immediate>,
                      indexed: ExprKey, index: ExprKey): Result<string>
    requires WellFounded(exprs)
    decreases indexed, 1
  {
    if index !in exprs || indexed !in exprs then Err(Panic(Scalarize.ExprKeyExists))
    else
      var iv := Evaluate(exprs[index], oracle);
      var base :- AccessBase(exprs, vars, oracle, indexed, iv);
      IndexedPath(base, iv)
  }

  /**
   * The path the index `iv` is appended to: a path's own name, a
   * variable's name, or the path of an inner access; a variable or an inner
   * access is only looked at once the index has been checked.
   */
  function AccessBase(exprs: map<ExprKey, Expr>, vars: map<VarKey, LegacyVar>, oracle: Expr -> Option<Immediate>,
                      indexed: ExprKey, iv: Option<Immediate>): Result<string>
    requires WellFounded(exprs) && indexed in exprs
    decreases indexed, 0
  {
    match exprs[indexed]
    case PathByName(p) => Ok(p)
    case PathByKey(vk) =>
      if IndexedPath("", iv).Err? then Err(IndexedPath("", iv).error)
      else if vk !in vars then Err(Panic(VarIndexPanicMsg))
      else Ok(vars[vk].name)
    case ArrayElementAccess(inner, innerIndex) =>
      if IndexedPath("", iv).Err? then Err(IndexedPath("", iv).error)
      else AccessPath(exprs, vars, oracle, inner, innerIndex)
    case _ => Err(CannotIndexIntoValue)
  }

  /**
   * An access `a[i1]..[id]` to a named array with non-negative constant
   * indices resolves to the name the scalarisation of `a` gives the element
   * variable at those indices.
   */
  lemma {:induction false} AccessPathNames(exprs: map<ExprKey, Expr>, vars: map<VarKey, LegacyVar>, oracle: Expr -> Option<Immediate>,
                                           indexed: ExprKey, index: ExprKey, name: string, indices: seq<nat>)
    requires WellFounded(exprs) && indices != []
    requires AccessChain(exprs, oracle, indexed, index, name, indices)
    ensures AccessPath(exprs, vars, oracle, indexed, index) == Ok(IndexedName(name, indices))
    decreases indexed
  {
    if |indices| > 1 {
      AccessPathNames(exprs, vars, oracle, exprs[indexed].indexed, exprs[indexed].index, name, indices[..|indices| - 1]);
    }
  }

  /** `<name>[i1]..[id]`. */
  function IndexedName(name: string, indices: seq<nat>): string
  {
    if indices == [] then name else Scalarize.ElementName(IndexedName(name, indices[..|indices| - 1]), indices[|indices| - 1])
  }

  /**
   * `indexed[index]` is the access `name[indices[0]]..[indices[d - 1]]`: the
   * innermost indexed expression is the path `name` and each index
   * evaluates to the given constant.
   */
  predicate AccessChain(exprs: map<ExprKey, Expr>, oracle: Expr -> Option<Immediate>,
                        indexed: ExprKey, index: ExprKey, name: string, indices: seq<nat>)
    requires WellFounded(exprs)
    decreases indexed
  {
    && indices != []
    && index in exprs && indexed in exprs
    && Evaluate(exprs[index], oracle) == Some(IntImm(indices[|indices| - 1]))
    && (if |indices| == 1 then exprs[indexed] == PathByName(name)
        else
          && exprs[indexed].ArrayElementAccess?
          && AccessChain(exprs, oracle, exprs[indexed].indexed, exprs[indexed].index, name, indices[..|indices| - 1]))
  }

  /**
   * `scalarize_array_access`, proved against `AccessPath`: on success the
   * expression `key` is overwritten by the path and nothing else changes.
   */
  method ScalarizeAccess(ii: LegacyIntent, oracle: Expr -> Option<Immediate>,
                         key: ExprKey, indexed: ExprKey, index: ExprKey) returns (r: Result<string>)
    requires ii.Valid() && key in ii.exprs
    modifies ii`exprs
    ensures ii.Valid() && ii.exprs.Keys == old(ii.exprs.Keys)
    ensures var s := AccessPath(old(ii.exprs), ii.vars, oracle, indexed, index);
      && (r.Ok? <==> s.Ok?)
      && (r.Err? ==> r.error == s.error)
      && (r.Ok? ==> r.value == s.value && ii.exprs == old(ii.exprs)[key := PathByName(s.value)])
    ensures forall k :: k in ii.exprs && k != key ==> ii.exprs[k] == old(ii.exprs)[k]
    decreases indexed, 1
  {
    if index !in ii.exprs || indexed !in ii.exprs {
      return Err(Panic(Scalarize.ExprKeyExists));
    }
    var iv := Evaluate(ii.exprs[index], oracle);
    var base := ScalarizeAccessBase(ii, oracle, key, indexed, iv);
    if base.Err? {
      return Err(base.error);
    }
    var path := IndexedPath(base.value, iv);
    if path.Err? {
      return Err(path.error);
    }
    ii.exprs := ii.exprs[key := PathByName(path.value)];
    r := Ok(path.value);
  }

  /** The base of an access, proved against `AccessBase`; an inner access rewrites `key` on the way. */
  method ScalarizeAccessBase(ii: LegacyIntent, oracle: Expr -> Option<Immediate>,
                             key: ExprKey, indexed: ExprKey, iv: Option<Immediate>) returns (r: Result<string>)
    requires ii.Valid() && key in ii.exprs && indexed in ii.exprs
    modifies ii`exprs
    ensures ii.Valid() && ii.exprs.Keys == old(ii.exprs.Keys)
    ensures r == AccessBase(old(ii.exprs), ii.vars, oracle, indexed, iv)
    ensures forall k :: k in ii.exprs && k != key ==> ii.exprs[k] == old(ii.exprs)[k]
    decreases indexed, 0
  {
    match ii.exprs[indexed] {
    case PathByName(p) => {
      r := Ok(p);
    }
    case PathByKey(vk) => {
      if IndexedPath("", iv).Err? {
        return Err(IndexedPath("", iv).error);
      }
      if vk !in ii.vars {
        return Err(Panic(VarIndexPanicMsg));
      }
      r := Ok(ii.vars[vk].name);
    }
    case ArrayElementAccess(inner, innerIndex) => {
      if IndexedPath("", iv).Err? {
        return Err(IndexedPath("", iv).error);
      }
      r := ScalarizeAccess(ii, oracle, key, inner, innerIndex);
    }
    case Immediate(_) => {
      r := Err(CannotIndexIntoValue);
    }
    case BinaryOpExpr(_, _, _) => {
      r := Err(CannotIndexIntoValue);
    }
    case TupleFieldAccess(_, _) => {
      r := Err(CannotIndexIntoValue);
    }
    case OtherExpr(_) => {
      r := Err(CannotIndexIntoValue);
    }
    }
  }

  /** An access `name[i]` with `i` below the length names the `i`-th element variable the array became. */
  lemma AccessNamesElementVar(st: VarArena, exprs: map<ExprKey, Expr>, oracle: Expr -> Option<Immediate>,
                              key: VarKey, name: string, elemTy: LegacyType, range: ExprKey, val: int,
                              indexed: ExprKey, index: ExprKey, i: nat)
    requires Bounded(st) && key < st.next && Supported(elemTy) && !elemTy.LArray?
    requires range in exprs && Evaluate(exprs[range], oracle) == Some(IntImm(val)) && i < val
    requires WellFounded(exprs) && AccessChain(exprs, oracle, indexed, index, name, [i])
    ensures ExpandArray(st, exprs, oracle, key, name, elemTy, range).Ok?
    ensures var after := ExpandArray(st, exprs, oracle, key, name, elemTy, range).value;
      var path := AccessPath(exprs, after.vars, oracle, indexed, index);
      path.Ok? && st.next + i in after.vars && after.vars[st.next + i].name == path.value
  {
    ExpandArrayFlat(st, exprs, oracle, key, name, elemTy, range, val);
    var after := ExpandArray(st, exprs, oracle, key, name, elemTy, range).value;
    AccessPathNames(exprs, after.vars, oracle, indexed, index, name, [i]);
    assert IndexedName(name, [i]) == Scalarize.ElementName(IndexedName(name, []), i);
  }

  /**
   * As written, a constant index past the end is accepted: the access is
   * rewritten to a path that names none of the element variables.
   */
  lemma AccessPastEndNamesNoElement(st: VarArena, exprs: map<ExprKey, Expr>, oracle: Expr -> Option<Immediate>,
                                    key: VarKey, name: string, elemTy: LegacyType, range: ExprKey, val: int,
                                    indexed: ExprKey, index: ExprKey, i: nat)
    requires Bounded(st) && key < st.next && Supported(elemTy) && !elemTy.LArray?
    requires range in exprs && Evaluate(exprs[range], oracle) == Some(IntImm(val)) && 0 < val <= i
    requires WellFounded(exprs) && AccessChain(exprs, oracle, indexed, index, name, [i])
    ensures ExpandArray(st, exprs, oracle, key, name, elemTy, range).Ok?
    ensures var after := ExpandArray(st, exprs, oracle, key, name, elemTy, range).value;
      var path := AccessPath(exprs, after.vars, oracle, indexed, index);
      path.Ok? && forall k :: k in after.vars && k !in st.vars ==> after.vars[k].name != path.value
  {
    ExpandArrayFlat(st, exprs, oracle, key, name, elemTy, range, val);
    ExpandArrayShape(st, exprs, oracle, key, name, elemTy, range);
    var after := ExpandArray(st, exprs, oracle, key, name, elemTy, range).value;
    AccessPathNames(exprs, after.vars, oracle, indexed, index, name, [i]);
    assert IndexedName(name, [i]) == Scalarize.ElementName(IndexedName(name, []), i);
    forall k | k in after.vars && k !in st.vars
      ensures after.vars[k].name != Scalarize.ElementName(name, i)
    {
      if after.vars[k].name == Scalarize.ElementName(name, i) {
        Scalarize.ElementNameInjective(name, k - st.next, i);
      }
    }
  }

  // ---------------------------------------------------------------------
  // The pass

  datatype ArrayVar = ArrayVar(key: VarKey, name: string, elem: LegacyType, range: ExprKey)

  predicate IsArrayVar(v: LegacyVar)
  {
    v.ty.Some? && v.ty.value.LArray?
  }

  /** The array variables with keys below `n`, in key order. */
  function ArrayVarsBelow(vars: map<VarKey, LegacyVar>, n: nat): seq<ArrayVar>
  {
    if n == 0 then []
    else
      var k := n - 1;
      if k in vars && IsArrayVar(vars[k]) then ArrayVarsBelow(vars, k) + [ArrayVar(k, vars[k].name, vars[k].ty.value.elem, vars[k].ty.value.range)]
      else ArrayVarsBelow(vars, k)
  }

  /** Each entry of `a` is an array variable of `vars` below `n`, with its name, element type and range. */
  predicate ArrayEntriesSound(vars: map<VarKey, LegacyVar>, n: nat, a: seq<ArrayVar>)
  {
    forall j :: 0 <= j < |a| ==>
      a[j].key < n && a[j].key in vars && vars[a[j].key] == LegacyVar(a[j].name, Some(LArray(a[j].elem, a[j].range)))
  }

  /** Every array variable of `vars` below `n` has an entry in `a`. */
  predicate ArrayEntriesComplete(vars: map<VarKey, LegacyVar>, n: nat, a: seq<ArrayVar>)
  {
    forall k :: k in vars && k < n && IsArrayVar(vars[k]) ==> exists j :: 0 <= j < |a| && a[j].key == k
  }

  /** The keys of `a` increase. */
  predicate ArrayEntriesSorted(a: seq<ArrayVar>)
  {
    forall j, j' :: 0 <= j < j' < |a| ==> a[j].key < a[j'].key
  }

  /** Each entry of `ArrayVarsBelow(vars, n)` is a array variable below `n`. */
  lemma {:induction false} ArrayVarsBelowSound(vars: map<VarKey, LegacyVar>, n: nat)
    ensures ArrayEntriesSound(vars, n, ArrayVarsBelow(vars, n))
  {
    if n > 0 {
      var k := n - 1;
      ArrayVarsBelowSound(vars, k);
      var prev := ArrayVarsBelow(vars, k);
      var a := ArrayVarsBelow(vars, n);
      if k in vars && IsArrayVar(vars[k]) {
        assert a == prev + [ArrayVar(k, vars[k].name, vars[k].ty.value.elem, vars[k].ty.value.range)];
        forall j | 0 <= j < |a|
          ensures a[j].key < n && a[j].key in vars && vars[a[j].key] == LegacyVar(a[j].name, Some(LArray(a[j].elem, a[j].range)))
        {
          if j < |prev| {
            assert a[j] == prev[j];
          }
        }
      }
    }
  }

  /** Every array variable below `n` is listed in `ArrayVarsBelow(vars, n)`. */
  lemma {:induction false} ArrayVarsBelowComplete(vars: map<VarKey, LegacyVar>, n: nat)
    ensures ArrayEntriesComplete(vars, n, ArrayVarsBelow(vars, n))
  {
    if n > 0 {
      var k := n - 1;
      ArrayVarsBelowComplete(vars, k);
      var prev := ArrayVarsBelow(vars, k);
      var a := ArrayVarsBelow(vars, n);
      forall k' | k' in vars && k' < n && IsArrayVar(vars[k'])
        ensures exists j :: 0 <= j < |a| && a[j].key == k'
      {
        if k in vars && IsArrayVar(vars[k]) {
          assert a == prev + [ArrayVar(k, vars[k].name, vars[k].ty.value.elem, vars[k].ty.value.range)];
          if k' < k {
            var j :| 0 <= j < |prev| && prev[j].key == k';
            assert a[j] == prev[j];
          } else {
            assert a[|a| - 1].key == k';
          }
        }
      }
    }
  }

  /** The keys of `ArrayVarsBelow(vars, n)` increase. */
  lemma {:induction false} ArrayVarsBelowSorted(vars: map<VarKey, LegacyVar>, n: nat)
    ensures ArrayEntriesSorted(ArrayVarsBelow(vars, n))
  {
    if n > 0 {
      var k := n - 1;
      ArrayVarsBelowSorted(vars, k);
      ArrayVarsBelowSound(vars, k);
      var prev := ArrayVarsBelow(vars, k);
      var a := ArrayVarsBelow(vars, n);
      if k in vars && IsArrayVar(vars[k]) {
        assert a == prev + [ArrayVar(k, vars[k].name, vars[k].ty.value.elem, vars[k].ty.value.range)];
        forall j, j' | 0 <= j < j' < |a|
          ensures a[j].key < a[j'].key
        {
          assert a[j] == prev[j];
          if j' < |prev| {
            assert a[j'] == prev[j'];
          }
        }
      }
    }
  }

  /** The array variables, in key order, with what `scalarize_array` needs of each. */
  method CollectArrayVars(ii: LegacyIntent) returns (arrays: seq<ArrayVar>)
    requires ii.Valid()
    ensures arrays == ArrayVarsBelow(ii.vars, ii.nextVar)
    ensures forall j :: 0 <= j < |arrays| ==>
      arrays[j].key in ii.vars && ii.vars[arrays[j].key] == LegacyVar(arrays[j].name, Some(LArray(arrays[j].elem, arrays[j].range)))
    ensures forall k :: k in ii.vars && IsArrayVar(ii.vars[k]) ==> exists j :: 0 <= j < |arrays| && arrays[j].key == k
    ensures forall j, j' :: 0 <= j < j' < |arrays| ==> arrays[j].key < arrays[j'].key
  {
    arrays := [];
    var k := 0;
    while k < ii.nextVar
      invariant k <= ii.nextVar
      invariant arrays == ArrayVarsBelow(ii.vars, k)
    {
      if k in ii.vars && IsArrayVar(ii.vars[k]) {
        var v := ii.vars[k];
        arrays := arrays + [ArrayVar(k, v.name, v.ty.value.elem, v.ty.value.range)];
      }
      k := k + 1;
    }
    ArrayVarsBelowSound(ii.vars, ii.nextVar);
    ArrayVarsBelowComplete(ii.vars, ii.nextVar);
    ArrayVarsBelowSorted(ii.vars, ii.nextVar);
  }

  datatype AccessSite = AccessSite(key: ExprKey, indexed: ExprKey, index: ExprKey)

  /** The array element accesses with keys below `n`, in key order. */
  function AccessSitesBelow(exprs: map<ExprKey, Expr>, n: nat): seq<AccessSite>
  {
    if n == 0 then []
    else
      var k := n - 1;
      if k in exprs && exprs[k].ArrayElementAccess? then AccessSitesBelow(exprs, k) + [AccessSite(k, exprs[k].indexed, exprs[k].index)]
      else AccessSitesBelow(exprs, k)
  }

  /** Each entry of `a` is an array element access of `exprs` below `n`, with its operands. */
  predicate SiteEntriesSound(exprs: map<ExprKey, Expr>, n: nat, a: seq<AccessSite>)
  {
    forall j :: 0 <= j < |a| ==>
      a[j].key < n && a[j].key in exprs && exprs[a[j].key] == ArrayElementAccess(a[j].indexed, a[j].index)
  }

  /** Every array element access of `exprs` below `n` has an entry in `a`. */
  predicate SiteEntriesComplete(exprs: map<ExprKey, Expr>, n: nat, a: seq<AccessSite>)
  {
    forall k :: k in exprs && k < n && exprs[k].ArrayElementAccess? ==> exists j :: 0 <= j < |a| && a[j].key == k
  }

  /** The keys of `a` increase. */
  predicate SiteEntriesSorted(a: seq<AccessSite>)
  {
    forall j, j' :: 0 <= j < j' < |a| ==> a[j].key < a[j'].key
  }

  /** Each entry of `AccessSitesBelow(exprs, n)` is a array element access below `n`. */
  lemma {:induction false} AccessSitesBelowSound(exprs: map<ExprKey, Expr>, n: nat)
    ensures SiteEntriesSound(exprs, n, AccessSitesBelow(exprs, n))
  {
    if n > 0 {
      var k := n - 1;
      AccessSitesBelowSound(exprs, k);
      var prev := AccessSitesBelow(exprs, k);
      var a := AccessSitesBelow(exprs, n);
      if k in exprs && exprs[k].ArrayElementAccess? {
        assert a == prev + [AccessSite(k, exprs[k].indexed, exprs[k].index)];
        forall j | 0 <= j < |a|
          ensures a[j].key < n && a[j].key in exprs && exprs[a[j].key] == ArrayElementAccess(a[j].indexed, a[j].index)
        {
          if j < |prev| {
            assert a[j] == prev[j];
          }
        }
      }
    }
  }

  /** Every array element access below `n` is listed in `AccessSitesBelow(exprs, n)`. */
  lemma {:induction false} AccessSitesBelowComplete(exprs: map<ExprKey, Expr>, n: nat)
    ensures SiteEntriesComplete(exprs, n, AccessSitesBelow(exprs, n))
  {
    if n > 0 {
      var k := n - 1;
      AccessSitesBelowComplete(exprs, k);
      var prev := AccessSitesBelow(exprs, k);
      var a := AccessSitesBelow(exprs, n);
      forall k' | k' in exprs && k' < n && exprs[k'].ArrayElementAccess?
        ensures exists j :: 0 <= j < |a| && a[j].key == k'
      {
        if k in exprs && exprs[k].ArrayElementAccess? {
          assert a == prev + [AccessSite(k, exprs[k].indexed, exprs[k].index)];
          if k' < k {
            var j :| 0 <= j < |prev| && prev[j].key == k';
            assert a[j] == prev[j];
          } else {
            assert a[|a| - 1].key == k';
          }
        }
      }
    }
  }

  /** The keys of `AccessSitesBelow(exprs, n)` increase. */
  lemma {:induction false} AccessSitesBelowSorted(exprs: map<ExprKey, Expr>, n: nat)
    ensures SiteEntriesSorted(AccessSitesBelow(exprs, n))
  {
    if n > 0 {
      var k := n - 1;
      AccessSitesBelowSorted(exprs, k);
      AccessSitesBelowSound(exprs, k);
      var prev := AccessSitesBelow(exprs, k);
      var a := AccessSitesBelow(exprs, n);
      if k in exprs && exprs[k].ArrayElementAccess? {
        assert a == prev + [AccessSite(k, exprs[k].indexed, exprs[k].index)];
        forall j, j' | 0 <= j < j' < |a|
          ensures a[j].key < a[j'].key
        {
          assert a[j] == prev[j];
          if j' < |prev| {
            assert a[j'] == prev[j'];
          }
        }
      }
    }
  }

  /** The array element accesses, in key order. */
  method CollectAccessSites(ii: LegacyIntent) returns (sites: seq<AccessSite>)
    requires ii.Valid()
    ensures sites == AccessSitesBelow(ii.exprs, ii.nextExpr)
    ensures forall j :: 0 <= j < |sites| ==>
      sites[j].key in ii.exprs && ii.exprs[sites[j].key] == ArrayElementAccess(sites[j].indexed, sites[j].index)
    ensures forall k :: k in ii.exprs && ii.exprs[k].ArrayElementAccess? ==> exists j :: 0 <= j < |sites| && sites[j].key == k
    ensures forall j, j' :: 0 <= j < j' < |sites| ==> sites[j].key < sites[j'].key
  {
    sites := [];
    var k := 0;
    while k < ii.nextExpr
      invariant k <= ii.nextExpr
      invariant sites == AccessSitesBelow(ii.exprs, k)
    {
      if k in ii.exprs && ii.exprs[k].ArrayElementAccess? {
        sites := sites + [AccessSite(k, ii.exprs[k].indexed, ii.exprs[k].index)];
      }
      k := k + 1;
    }
    AccessSitesBelowSound(ii.exprs, ii.nextExpr);
    AccessSitesBelowComplete(ii.exprs, ii.nextExpr);
    AccessSitesBelowSorted(ii.exprs, ii.nextExpr);
  }

  /**
   * The array variables still to scalarise are `arrays[i..]`: each of them is
   * in `vars` with its array type, and every array variable of `vars` is one of them.
   */
  predicate PendingArrays(vars: map<VarKey, LegacyVar>, arrays: seq<ArrayVar>, i: nat)
  {
    && (forall j :: i <= j < |arrays| ==>
          arrays[j].key in vars && vars[arrays[j].key] == LegacyVar(arrays[j].name, Some(LArray(arrays[j].elem, arrays[j].range))))
    && (forall k :: k in vars && IsArrayVar(vars[k]) ==> exists j :: i <= j < |arrays| && arrays[j].key == k)
  }

  /** The array variables left after scalarising `arrays[i]` are those of `arrays[i + 1..]`. */
  lemma ArrayVarsStep(after: VarArena, before: VarArena, name: string, arrays: seq<ArrayVar>, i: nat)
    requires i < |arrays| && Expanded(before, after, {arrays[i].key}, name)
    requires PendingArrays(before.vars, arrays, i)
    requires forall j, j' :: 0 <= j < j' < |arrays| ==> arrays[j].key < arrays[j'].key
    ensures PendingArrays(after.vars, arrays, i + 1)
  {
    forall k | k in after.vars && IsArrayVar(after.vars[k])
      ensures exists j :: i + 1 <= j < |arrays| && arrays[j].key == k
    {
      assert k in before.vars && k != arrays[i].key;
      var j :| i <= j < |arrays| && arrays[j].key == k;
    }
  }

  /** Scalarising one collected array variable, as `scalarize_array` does. */
  function ArrayStep(exprs: map<ExprKey, Expr>, oracle: Expr -> Option<Immediate>): (VarArena, ArrayVar) -> Result<VarArena>
  {
    (st: VarArena, a: ArrayVar) => ExpandArray(st, exprs, oracle, a.key, a.name, a.elem, a.range)
  }

  /** The variable arena once the first `n` array variables are scalarised in order, or the first error. */
  function ExpandAll(st: VarArena, exprs: map<ExprKey, Expr>, oracle: Expr -> Option<Immediate>, arrays: seq<ArrayVar>, n: nat)
    : Result<VarArena>
    requires n <= |arrays|
  {
    FoldSteps(st, ArrayStep(exprs, oracle), arrays, n)
  }

  /** The expressions once the first `n` access sites are overwritten in order by their paths, or the first error. */
  function RewriteAll(exprs: map<ExprKey, Expr>, vars: map<VarKey, LegacyVar>, oracle: Expr -> Option<Immediate>,
                      sites: seq<AccessSite>, n: nat): (r: Result<map<ExprKey, Expr>>)
    requires WellFounded(exprs) && n <= |sites|
    ensures r.Ok? ==> WellFounded(r.value)
  {
    if n == 0 then Ok(exprs)
    else
      var prev := RewriteAll(exprs, vars, oracle, sites, n - 1);
      if prev.Err? then prev else RewriteSite(prev.value, vars, oracle, sites[n - 1])
  }

  /** One access site overwritten by the path it names (as `ScalarizeAccess`), or its error. */
  function RewriteSite(exprs: map<ExprKey, Expr>, vars: map<VarKey, LegacyVar>, oracle: Expr -> Option<Immediate>, s: AccessSite)
    : (r: Result<map<ExprKey, Expr>>)
    requires WellFounded(exprs)
    ensures r.Ok? ==> WellFounded(r.value)
  {
    var p := AccessPath(exprs, vars, oracle, s.indexed, s.index);
    if p.Err? then Err(p.error) else Ok(exprs[s.key := PathByName(p.value)])
  }

  /** Once a rewrite fails, rewriting more sites does not change the outcome. */
  lemma {:induction false} RewriteAllFailureStays(exprs: map<ExprKey, Expr>, vars: map<VarKey, LegacyVar>, oracle: Expr -> Option<Immediate>,
                                                  sites: seq<AccessSite>, m: nat, n: nat)
    requires WellFounded(exprs) && m <= n <= |sites| && RewriteAll(exprs, vars, oracle, sites, m).Err?
    ensures RewriteAll(exprs, vars, oracle, sites, n) == RewriteAll(exprs, vars, oracle, sites, m)
    decreases n - m
  {
    if m < n {
      RewriteAllFailureStays(exprs, vars, oracle, sites, m, n - 1);
    }
  }

  /**
   * `states` are the arenas between the scalarisations of `arrays`, in order:
   * each one is the previous one with the next array variable expanded.
   */
  ghost predicate ExpandChain(states: seq<VarArena>, exprs: map<ExprKey, Expr>, oracle: Expr -> Option<Immediate>, arrays: seq<ArrayVar>)
  {
    && 0 < |states| <= |arrays| + 1
    && forall j {:trigger ExpandArray(states[j], exprs, oracle, arrays[j].key, arrays[j].name, arrays[j].elem, arrays[j].range)} ::
         0 <= j < |states| - 1 ==>
           ExpandArray(states[j], exprs, oracle, arrays[j].key, arrays[j].name, arrays[j].elem, arrays[j].range) == Ok(states[j + 1])
  }

  /** A chain of `n + 1` arenas ends where `ExpandAll` is after `n` array variables. */
  lemma {:induction false} ExpandChainFold(states: seq<VarArena>, exprs: map<ExprKey, Expr>, oracle: Expr -> Option<Immediate>,
                                           arrays: seq<ArrayVar>, n: nat)
    requires ExpandChain(states, exprs, oracle, arrays) && n < |states|
    ensures ExpandAll(states[0], exprs, oracle, arrays, n) == Ok(states[n])
  {
    if n > 0 {
      ExpandChainFold(states, exprs, oracle, arrays, n - 1);
      var a := arrays[n - 1];
      assert ExpandArray(states[n - 1], exprs, oracle, a.key, a.name, a.elem, a.range) == Ok(states[n]);
    }
  }

  /** A successful scalarisation of the next array variable extends the chain. */
  lemma ExpandChainExtend(states: seq<VarArena>, exprs: map<ExprKey, Expr>, oracle: Expr -> Option<Immediate>,
                          arrays: seq<ArrayVar>, st: VarArena)
    requires ExpandChain(states, exprs, oracle, arrays) && |states| <= |arrays|
    requires var a := arrays[|states| - 1];
      ExpandArray(states[|states| - 1], exprs, oracle, a.key, a.name, a.elem, a.range) == Ok(st)
    ensures ExpandChain(states + [st], exprs, oracle, arrays)
  {
    var t := states + [st];
    forall j | 0 <= j < |t| - 1
      ensures ExpandArray(t[j], exprs, oracle, arrays[j].key, arrays[j].name, arrays[j].elem, arrays[j].range) == Ok(t[j + 1])
    {
      assert t[j] == states[j];
      if j < |states| - 1 {
        assert ExpandArray(states[j], exprs, oracle, arrays[j].key, arrays[j].name, arrays[j].elem, arrays[j].range) == Ok(states[j + 1]);
      }
    }
  }

  /** A failing scalarisation after a chain is the error of the whole pass over `arrays`. */
  lemma ExpandChainFails(states: seq<VarArena>, exprs: map<ExprKey, Expr>, oracle: Expr -> Option<Immediate>,
                         arrays: seq<ArrayVar>, e: CompileError)
    requires ExpandChain(states, exprs, oracle, arrays) && |states| <= |arrays|
    requires var a := arrays[|states| - 1];
      ExpandArray(states[|states| - 1], exprs, oracle, a.key, a.name, a.elem, a.range) == Err(e)
    ensures ExpandAll(states[0], exprs, oracle, arrays, |arrays|) == Err(e)
  {
    var n := |states| - 1;
    ExpandChainFold(states, exprs, oracle, arrays, n);
    FoldStepsFails(states[0], ArrayStep(exprs, oracle), arrays, n, states[n], e);
  }

  /** Scalarises `arrays[i]` with `scalarize_array`, leaving `arrays[i + 1..]` pending. */
  method ScalarizeArrayVarTurn(ii: LegacyIntent, oracle: Expr -> Option<Immediate>, arrays: seq<ArrayVar>, i: nat)
    returns (r: Result<()>)
    requires ii.Valid() && i < |arrays|
    requires PendingArrays(ii.vars, arrays, i)
    requires forall j, j' :: 0 <= j < j' < |arrays| ==> arrays[j].key < arrays[j'].key
    modifies ii`vars, ii`nextVar
    ensures ii.Valid()
    ensures var a := arrays[i];
      var s := ExpandArray(VarArena(old(ii.vars), old(ii.nextVar)), ii.exprs, oracle, a.key, a.name, a.elem, a.range);
      && (r.Err? ==> s == Err(r.error))
      && (r.Ok? ==> s == Ok(VarArena(ii.vars, ii.nextVar)) && PendingArrays(ii.vars, arrays, i + 1))
  {
    var a := arrays[i];
    ghost var before := VarArena(ii.vars, ii.nextVar);
    r := ScalarizeArrayVar(ii, oracle, a.key, a.name, a.elem, a.range);
    if r.Ok? {
      ExpandArrayShape(before, ii.exprs, oracle, a.key, a.name, a.elem, a.range);
      ArrayVarsStep(VarArena(ii.vars, ii.nextVar), before, a.name, arrays, i);
    }
  }

  /** Scalarises the collected array variables in order, stopping at the first error. */
  method ScalarizeArrayVars(ii: LegacyIntent, oracle: Expr -> Option<Immediate>, arrays: seq<ArrayVar>) returns (r: Result<()>)
    requires ii.Valid()
    requires PendingArrays(ii.vars, arrays, 0)
    requires forall j, j' :: 0 <= j < j' < |arrays| ==> arrays[j].key < arrays[j'].key
    modifies ii`vars, ii`nextVar
    ensures ii.Valid()
    ensures r.Ok? ==> forall k :: k in ii.vars ==> !IsArrayVar(ii.vars[k])
    ensures var e := ExpandAll(VarArena(old(ii.vars), old(ii.nextVar)), ii.exprs, oracle, arrays, |arrays|);
      && (e.Err? ==> r == Err(e.error))
      && (e.Ok? ==> r == Ok(()) && ii.vars == e.value.vars && ii.nextVar == e.value.next)
  {
    ghost var states := [VarArena(ii.vars, ii.nextVar)];
    var i := 0;
    while i < |arrays|
      invariant i <= |arrays| && ii.Valid()
      invariant |states| == i + 1 && states[0] == VarArena(old(ii.vars), old(ii.nextVar))
      invariant states[i] == VarArena(ii.vars, ii.nextVar)
      invariant ExpandChain(states, ii.exprs, oracle, arrays)
      invariant PendingArrays(ii.vars, arrays, i)
    {
      var step := ScalarizeArrayVarTurn(ii, oracle, arrays, i);
      if step.Err? {
        ExpandChainFails(states, ii.exprs, oracle, arrays, step.error);
        return Err(step.error);
      }
      ExpandChainExtend(states, ii.exprs, oracle, arrays, VarArena(ii.vars, ii.nextVar));
      states := states + [VarArena(ii.vars, ii.nextVar)];
      i := i + 1;
    }
    ExpandChainFold(states, ii.exprs, oracle, arrays, i);
    r := Ok(());
  }

  /**
   * The accesses still to rewrite are `sites[i..]`: every site's key is in
   * `exprs`, and every array element access of `exprs` is one of `sites[i..]`.
   */
  predicate PendingSites(exprs: map<ExprKey, Expr>, sites: seq<AccessSite>, i: nat)
  {
    && (forall j :: 0 <= j < |sites| ==> sites[j].key in exprs)
    && (forall k :: k in exprs && exprs[k].ArrayElementAccess? ==> exists j :: i <= j < |sites| && sites[j].key == k)
  }

  /**
   * `states` are the expression arenas between the rewrites of `sites`, in
   * order: each one is the previous one with the next access rewritten.
   */
  ghost predicate RewriteChain(states: seq<map<ExprKey, Expr>>, vars: map<VarKey, LegacyVar>, oracle: Expr -> Option<Immediate>,
                               sites: seq<AccessSite>)
  {
    && 0 < |states| <= |sites| + 1
    && (forall j :: 0 <= j < |states| ==> WellFounded(states[j]))
    && forall j {:trigger RewriteSite(states[j], vars, oracle, sites[j])} ::
         0 <= j < |states| - 1 ==> RewriteSite(states[j], vars, oracle, sites[j]) == Ok(states[j + 1])
  }

  /** A chain of `n + 1` arenas ends where `RewriteAll` is after `n` accesses. */
  lemma {:induction false} RewriteChainFold(states: seq<map<ExprKey, Expr>>, vars: map<VarKey, LegacyVar>, oracle: Expr -> Option<Immediate>,
                                            sites: seq<AccessSite>, n: nat)
    requires RewriteChain(states, vars, oracle, sites) && n < |states|
    ensures RewriteAll(states[0], vars, oracle, sites, n) == Ok(states[n])
  {
    if n > 0 {
      RewriteChainFold(states, vars, oracle, sites, n - 1);
      assert RewriteSite(states[n - 1], vars, oracle, sites[n - 1]) == Ok(states[n]);
    }
  }

  /** A successful rewrite of the next access extends the chain. */
  lemma RewriteChainExtend(states: seq<map<ExprKey, Expr>>, vars: map<VarKey, LegacyVar>, oracle: Expr -> Option<Immediate>,
                           sites: seq<AccessSite>, e: map<ExprKey, Expr>)
    requires RewriteChain(states, vars, oracle, sites) && |states| <= |sites|
    requires RewriteSite(states[|states| - 1], vars, oracle, sites[|states| - 1]) == Ok(e)
    ensures RewriteChain(states + [e], vars, oracle, sites)
  {
    var t := states + [e];
    forall j | 0 <= j < |t| - 1
      ensures RewriteSite(t[j], vars, oracle, sites[j]) == Ok(t[j + 1])
    {
      assert t[j] == states[j];
      if j < |states| - 1 {
        assert RewriteSite(states[j], vars, oracle, sites[j]) == Ok(states[j + 1]);
      }
    }
  }

  /** A failing rewrite after a chain is the error of the whole pass over `sites`. */
  lemma RewriteChainFails(states: seq<map<ExprKey, Expr>>, vars: map<VarKey, LegacyVar>, oracle: Expr -> Option<Immediate>,
                          sites: seq<AccessSite>, err: CompileError)
    requires RewriteChain(states, vars, oracle, sites) && |states| <= |sites|
    requires RewriteSite(states[|states| - 1], vars, oracle, sites[|states| - 1]) == Err(err)
    ensures RewriteAll(states[0], vars, oracle, sites, |sites|) == Err(err)
  {
    var n := |states| - 1;
    RewriteChainFold(states, vars, oracle, sites, n);
    RewriteAllFailureStays(states[0], vars, oracle, sites, n + 1, |sites|);
  }

  /** Rewrites `sites[i]` with `scalarize_array_access`, leaving `sites[i + 1..]` pending. */
  method ScalarizeAccessTurn(ii: LegacyIntent, oracle: Expr -> Option<Immediate>, sites: seq<AccessSite>, i: nat)
    returns (r: Result<()>)
    requires ii.Valid() && i < |sites|
    requires PendingSites(ii.exprs, sites, i)
    modifies ii`exprs
    ensures ii.Valid()
    ensures var w := RewriteSite(old(ii.exprs), ii.vars, oracle, sites[i]);
      && (r.Err? ==> w == Err(r.error))
      && (r.Ok? ==> w == Ok(ii.exprs) && PendingSites(ii.exprs, sites, i + 1))
  {
    var s := sites[i];
    var step := ScalarizeAccess(ii, oracle, s.key, s.indexed, s.index);
    if step.Err? {
      return Err(step.error);
    }
    forall k | k in ii.exprs && ii.exprs[k].ArrayElementAccess?
      ensures exists j :: i + 1 <= j < |sites| && sites[j].key == k
    {
      var j :| i <= j < |sites| && sites[j].key == k;
    }
    r := Ok(());
  }

  /** Rewrites the collected accesses in order, stopping at the first error. */
  method ScalarizeAccessSites(ii: LegacyIntent, oracle: Expr -> Option<Immediate>, sites: seq<AccessSite>) returns (r: Result<()>)
    requires ii.Valid()
    requires PendingSites(ii.exprs, sites, 0)
    modifies ii`exprs
    ensures ii.Valid()
    ensures r.Ok? ==> forall k :: k in ii.exprs ==> !ii.exprs[k].ArrayElementAccess?
    ensures var w := RewriteAll(old(ii.exprs), ii.vars, oracle, sites, |sites|);
      && (w.Err? ==> r == Err(w.error))
      && (w.Ok? ==> r == Ok(()) && ii.exprs == w.value)
  {
    ghost var states := [ii.exprs];
    var i := 0;
    while i < |sites|
      invariant i <= |sites| && ii.Valid()
      invariant |states| == i + 1 && states[0] == old(ii.exprs) && states[i] == ii.exprs
      invariant RewriteChain(states, ii.vars, oracle, sites)
      invariant PendingSites(ii.exprs, sites, i)
    {
      var step := ScalarizeAccessTurn(ii, oracle, sites, i);
      if step.Err? {
        RewriteChainFails(states, ii.vars, oracle, sites, step.error);
        return Err(step.error);
      }
      RewriteChainExtend(states, ii.vars, oracle, sites, ii.exprs);
      states := states + [ii.exprs];
      i := i + 1;
    }
    RewriteChainFold(states, ii.vars, oracle, sites, i);
    r := Ok(());
  }

  /**
   * `scalarize`: every array variable, then every array element access,
   * stopping at the first error. On success no variable has an array type
   * and no array element access is left.
   */
  method ScalarizeIntent(ii: LegacyIntent, oracle: Expr -> Option<Immediate>) returns (r: Result<()>)
    requires ii.Valid()
    modifies ii`vars, ii`nextVar, ii`exprs
    ensures ii.Valid()
    ensures r.Ok? ==> forall k :: k in ii.vars ==> !IsArrayVar(ii.vars[k])
    ensures r.Ok? ==> forall k :: k in ii.exprs ==> !ii.exprs[k].ArrayElementAccess?
    ensures var arrays := ArrayVarsBelow(old(ii.vars), old(ii.nextVar));
      var e := ExpandAll(VarArena(old(ii.vars), old(ii.nextVar)), old(ii.exprs), oracle, arrays, |arrays|);
      && (e.Err? ==> r == Err(e.error) && ii.exprs == old(ii.exprs))
      && (e.Ok? ==>
            var sites := AccessSitesBelow(old(ii.exprs), old(ii.nextExpr));
            var w := RewriteAll(old(ii.exprs), e.value.vars, oracle, sites, |sites|);
            && ii.vars == e.value.vars && ii.nextVar == e.value.next
            && (w.Err? ==> r == Err(w.error))
            && (w.Ok? ==> r == Ok(()) && ii.exprs == w.value))
  {
    var arrays := CollectArrayVars(ii);
    r := ScalarizeArrayVars(ii, oracle, arrays);
    if r.Err? {
      return;
    }
    var sites := CollectAccessSites(ii);
    r := ScalarizeAccessSites(ii, oracle, sites);
  }
}
