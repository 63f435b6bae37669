/**
 * Lowering whole-array and whole-tuple `==`/`!=` (`lower_array_compares`,
 * `lower_tuple_compares`): every such comparison is replaced by a chain of
 * element (or field) comparisons built in fresh arena slots, and removed.
 * The chain is joined with `ChainOp(op)`; see the `Chains` module for why
 * that is not the source's `&&` when `op` is `!=`.
 */
module Compares {
  import opened Util
  import opened Intermediate
  import opened Scalarize
  import opened Chains

  const NoArrayElementsMsg := "there must be 1 or more array elements"
  const NoTupleFieldsMsg := "there must be 1 or more tuple fields"
  const MissingRhsTupleTypeMsg := "missing rhs tuple type in lower_tuple_compares()"
  const RhsNotTupleMsg := "rhs of a tuple comparison is not a tuple"
  const MissingTupleTypeMsg := "failed to get tuple type in lower_tuple_compares()"
  const LhsFieldsMsg := "failed to get lhs tuple field types in lower_tuple_compares()"
  const RhsFieldsMsg := "failed to get rhs tuple field types in lower_tuple_compares()"
  const FieldIndexMsg := "index out of bounds"

  // ---------------------------------------------------------------------
  // Finding the array comparisons

  /** An array comparison as collected: its key, operator, operands, their sizes and the element type. */
  datatype ArrayCompare = ArrayCompare(key: ExprKey, op: BinaryOp, lhs: ExprKey, lhsSize: Option<int>,
                                       rhs: ExprKey, rhsSize: Option<int>, elTy: Type)

  /** Expression `k` is an `==`/`!=` whose operands both have array types. */
  function ArrayCompareAt(exprs: map<ExprKey, Expr>, exprTypes: map<ExprKey, Type>, k: ExprKey): (r: Option<ArrayCompare>)
    ensures r.Some? ==> r.value.key == k && IsEquality(r.value.op)
  {
    if k in exprs && exprs[k].BinaryOpExpr? && IsEquality(exprs[k].op)
       && exprs[k].lhs in exprTypes && GetArrayParams(exprTypes[exprs[k].lhs]).Some?
       && exprs[k].rhs in exprTypes && GetArrayParams(exprTypes[exprs[k].rhs]).Some?
    then
      var e := exprs[k];
      var lp := GetArrayParams(exprTypes[e.lhs]).value;
      var rp := GetArrayParams(exprTypes[e.rhs]).value;
      Some(ArrayCompare(k, e.op, e.lhs, lp.size, e.rhs, rp.size, lp.elem))
    else None
  }

  /** The array comparisons among the keys below `n`, in key order. */
  function ArrayComparesBelow(exprs: map<ExprKey, Expr>, exprTypes: map<ExprKey, Type>, n: nat): seq<ArrayCompare>
  {
    if n == 0 then []
    else
      var at := ArrayCompareAt(exprs, exprTypes, n - 1);
      ArrayComparesBelow(exprs, exprTypes, n - 1) + (if at.Some? then [at.value] else [])
  }

  /** The collected comparisons are exactly the array comparisons below `n`, in increasing key order. */
  lemma ArrayComparesBelowSpec(exprs: map<ExprKey, Expr>, exprTypes: map<ExprKey, Type>, n: nat)
    ensures var cs := ArrayComparesBelow(exprs, exprTypes, n);
      && (forall i :: 0 <= i < |cs| ==> cs[i].key < n && ArrayCompareAt(exprs, exprTypes, cs[i].key) == Some(cs[i]))
      && (forall i, j :: 0 <= i < j < |cs| ==> cs[i].key < cs[j].key)
      && (forall k :: 0 <= k < n && ArrayCompareAt(exprs, exprTypes, k).Some? ==> exists i :: 0 <= i < |cs| && cs[i].key == k)
  {
    ArrayComparesBelowSound(exprs, exprTypes, n);
    ArrayComparesBelowComplete(exprs, exprTypes, n);
  }

  /** Each of `cs` is the array comparison at its key, a key below `n`. */
  predicate CollectedAt(exprs: map<ExprKey, Expr>, exprTypes: map<ExprKey, Type>, cs: seq<ArrayCompare>, n: nat)
  {
    forall i :: 0 <= i < |cs| ==> cs[i].key < n && ArrayCompareAt(exprs, exprTypes, cs[i].key) == Some(cs[i])
  }

  predicate KeysIncrease(cs: seq<ArrayCompare>)
  {
    forall i, j :: 0 <= i < j < |cs| ==> cs[i].key < cs[j].key
  }

  /** Every array comparison below `n` has its key among `cs`. */
  predicate CollectsAll(exprs: map<ExprKey, Expr>, exprTypes: map<ExprKey, Type>, cs: seq<ArrayCompare>, n: nat)
  {
    forall k :: 0 <= k < n && ArrayCompareAt(exprs, exprTypes, k).Some? ==> exists i :: 0 <= i < |cs| && cs[i].key == k
  }

  /** Each collected comparison is the one at its key, and the keys increase. */
  lemma {:induction false} ArrayComparesBelowSound(exprs: map<ExprKey, Expr>, exprTypes: map<ExprKey, Type>, n: nat)
    ensures CollectedAt(exprs, exprTypes, ArrayComparesBelow(exprs, exprTypes, n), n)
    ensures KeysIncrease(ArrayComparesBelow(exprs, exprTypes, n))
  {
    if n > 0 {
      ArrayComparesBelowSound(exprs, exprTypes, n - 1);
      var cs := ArrayComparesBelow(exprs, exprTypes, n);
      var prev := ArrayComparesBelow(exprs, exprTypes, n - 1);
      var at := ArrayCompareAt(exprs, exprTypes, n - 1);
      if at.Some? {
        assert cs == prev + [at.value];
        forall i | 0 <= i < |cs|
          ensures cs[i].key < n && ArrayCompareAt(exprs, exprTypes, cs[i].key) == Some(cs[i])
        {
          if i < |prev| {
            assert cs[i] == prev[i];
          } else {
            assert cs[i] == at.value;
          }
        }
        forall i, j | 0 <= i < j < |cs|
          ensures cs[i].key < cs[j].key
        {
          assert cs[i] == prev[i];
          if j < |prev| {
            assert cs[j] == prev[j];
          } else {
            assert cs[j] == at.value;
          }
        }
      } else {
        assert cs == prev;
      }
    }
  }

  /** Every array comparison below `n` is collected. */
  lemma {:induction false} ArrayComparesBelowComplete(exprs: map<ExprKey, Expr>, exprTypes: map<ExprKey, Type>, n: nat)
    ensures CollectsAll(exprs, exprTypes, ArrayComparesBelow(exprs, exprTypes, n), n)
  {
    if n > 0 {
      ArrayComparesBelowComplete(exprs, exprTypes, n - 1);
      var cs := ArrayComparesBelow(exprs, exprTypes, n);
      var prev := ArrayComparesBelow(exprs, exprTypes, n - 1);
      var at := ArrayCompareAt(exprs, exprTypes, n - 1);
      forall k | 0 <= k < n && ArrayCompareAt(exprs, exprTypes, k).Some?
        ensures exists i :: 0 <= i < |cs| && cs[i].key == k
      {
        if k == n - 1 {
          assert cs == prev + [at.value];
          assert cs[|prev|].key == k;
        } else {
          var i :| 0 <= i < |prev| && prev[i].key == k;
          assert cs[i] == prev[i];
        }
      }
    }
  }

  /** The collecting pass over the arena, in key order. */
  method CollectArrayCompares(ii: Intent) returns (cs: seq<ArrayCompare>)
    ensures cs == ArrayComparesBelow(ii.exprs, ii.exprTypes, ii.nextExpr)
  {
    cs := [];
    var k := 0;
    while k < ii.nextExpr
      invariant k <= ii.nextExpr
      invariant cs == ArrayComparesBelow(ii.exprs, ii.exprTypes, k)
    {
      var at := ArrayCompareAt(ii.exprs, ii.exprTypes, k);
      if at.Some? {
        cs := cs + [at.value];
      }
      k := k + 1;
    }
  }

  // ---------------------------------------------------------------------
  // The element comparisons of an array comparison

  /** Slot `j` (0: index, 1: lhs access, 2: rhs access, 3: comparison) of element `i`. */
  function ArraySlot(base: ExprKey, i: nat, j: nat): ExprKey
  {
    base + 4 * i + j
  }

  /** The element comparison keys. */
  function ArrayCompareKeys(base: ExprKey, n: nat): seq<ExprKey>
  {
    seq(n, i requires 0 <= i < n => ArraySlot(base, i, 3))
  }

  /** For each element `i < n`: the index `i`, `lhs[i]`, `rhs[i]` and `lhs[i] op rhs[i]`. */
  function ArrayElementExprs(base: ExprKey, n: nat, op: BinaryOp, lhs: ExprKey, rhs: ExprKey): map<ExprKey, Expr>
  {
    if n == 0 then map[]
    else
      var i := n - 1;
      ArrayElementExprs(base, i, op, lhs, rhs)
        [ArraySlot(base, i, 0) := Immediate(IntImm(i))]
        [ArraySlot(base, i, 1) := ArrayElementAccess(lhs, ArraySlot(base, i, 0))]
        [ArraySlot(base, i, 2) := ArrayElementAccess(rhs, ArraySlot(base, i, 0))]
        [ArraySlot(base, i, 3) := BinaryOpExpr(op, ArraySlot(base, i, 1), ArraySlot(base, i, 2))]
  }

  /** The index is an `int`, both accesses have the element type; the comparison gets no type. */
  function ArrayElementTypes(base: ExprKey, n: nat, elTy: Type): map<ExprKey, Type>
  {
    if n == 0 then map[]
    else
      var i := n - 1;
      ArrayElementTypes(base, i, elTy)
        [ArraySlot(base, i, 0) := Primitive(Int)]
        [ArraySlot(base, i, 1) := elTy]
        [ArraySlot(base, i, 2) := elTy]
  }

  lemma {:induction false} ArrayElementExprsKeys(base: ExprKey, n: nat, op: BinaryOp, lhs: ExprKey, rhs: ExprKey)
    ensures forall k :: k in ArrayElementExprs(base, n, op, lhs, rhs) <==> base <= k < base + 4 * n
  {
    if n > 0 {
      ArrayElementExprsKeys(base, n - 1, op, lhs, rhs);
    }
  }

  /** Element `i` holds its index, its two accesses and its comparison. */
  lemma {:induction false} ArrayElementExprsAt(base: ExprKey, n: nat, op: BinaryOp, lhs: ExprKey, rhs: ExprKey, i: nat)
    requires i < n
    ensures LoweredElement(ArrayElementExprs(base, n, op, lhs, rhs), base, i, op, lhs, rhs)
  {
    if i < n - 1 {
      ArrayElementExprsAt(base, n - 1, op, lhs, rhs, i);
    }
  }

  lemma {:induction false} ArrayElementTypesKeys(base: ExprKey, n: nat, elTy: Type)
    ensures forall k :: k in ArrayElementTypes(base, n, elTy) ==> base <= k < base + 4 * n
  {
    if n > 0 {
      ArrayElementTypesKeys(base, n - 1, elTy);
    }
  }

  /** One element more, seen from the arena it is added to. */
  lemma ArrayElementStep(exprs: map<ExprKey, Expr>, exprTypes: map<ExprKey, Type>, base: ExprKey, i: nat,
                         op: BinaryOp, lhs: ExprKey, rhs: ExprKey, elTy: Type)
    ensures exprs + ArrayElementExprs(base, i + 1, op, lhs, rhs)
         == (exprs + ArrayElementExprs(base, i, op, lhs, rhs))
              [ArraySlot(base, i, 0) := Immediate(IntImm(i))]
              [ArraySlot(base, i, 1) := ArrayElementAccess(lhs, ArraySlot(base, i, 0))]
              [ArraySlot(base, i, 2) := ArrayElementAccess(rhs, ArraySlot(base, i, 0))]
              [ArraySlot(base, i, 3) := BinaryOpExpr(op, ArraySlot(base, i, 1), ArraySlot(base, i, 2))]
    ensures exprTypes + ArrayElementTypes(base, i + 1, elTy)
         == (exprTypes + ArrayElementTypes(base, i, elTy))
              [ArraySlot(base, i, 0) := Primitive(Int)]
              [ArraySlot(base, i, 1) := elTy]
              [ArraySlot(base, i, 2) := elTy]
  {
    var m0 := ArrayElementExprs(base, i, op, lhs, rhs);
    var m1 := m0[ArraySlot(base, i, 0) := Immediate(IntImm(i))];
    var m2 := m1[ArraySlot(base, i, 1) := ArrayElementAccess(lhs, ArraySlot(base, i, 0))];
    var m3 := m2[ArraySlot(base, i, 2) := ArrayElementAccess(rhs, ArraySlot(base, i, 0))];
    UnionUpdate(exprs, m0, ArraySlot(base, i, 0), Immediate(IntImm(i)));
    UnionUpdate(exprs, m1, ArraySlot(base, i, 1), ArrayElementAccess(lhs, ArraySlot(base, i, 0)));
    UnionUpdate(exprs, m2, ArraySlot(base, i, 2), ArrayElementAccess(rhs, ArraySlot(base, i, 0)));
    UnionUpdate(exprs, m3, ArraySlot(base, i, 3), BinaryOpExpr(op, ArraySlot(base, i, 1), ArraySlot(base, i, 2)));
    var t0 := ArrayElementTypes(base, i, elTy);
    var t1 := t0[ArraySlot(base, i, 0) := Primitive(Int)];
    var t2 := t1[ArraySlot(base, i, 1) := elTy];
    UnionUpdate(exprTypes, t0, ArraySlot(base, i, 0), Primitive(Int));
    UnionUpdate(exprTypes, t1, ArraySlot(base, i, 1), elTy);
    UnionUpdate(exprTypes, t2, ArraySlot(base, i, 2), elTy);
  }

  /** Adds the index, the two accesses and the comparison of element `i`, in that order. */
  method AddArrayElementCompare(ii: Intent, op: BinaryOp, lhs: ExprKey, rhs: ExprKey, ghost base: ExprKey, i: nat, elTy: Type)
    returns (cmp: ExprKey)
    requires ii.Valid() && ii.nextExpr == ArraySlot(base, i, 0)
    modifies ii`exprs, ii`exprTypes, ii`nextExpr
    ensures ii.Valid()
    ensures ii.nextExpr == ArraySlot(base, i + 1, 0) && cmp == ArraySlot(base, i, 3)
    ensures ii.exprs == old(ii.exprs)
              [ArraySlot(base, i, 0) := Immediate(IntImm(i))]
              [ArraySlot(base, i, 1) := ArrayElementAccess(lhs, ArraySlot(base, i, 0))]
              [ArraySlot(base, i, 2) := ArrayElementAccess(rhs, ArraySlot(base, i, 0))]
              [ArraySlot(base, i, 3) := BinaryOpExpr(op, ArraySlot(base, i, 1), ArraySlot(base, i, 2))]
    ensures ii.exprTypes == old(ii.exprTypes)
              [ArraySlot(base, i, 0) := Primitive(Int)]
              [ArraySlot(base, i, 1) := elTy]
              [ArraySlot(base, i, 2) := elTy]
  {
    var imm := ii.InsertTypedExpr(Immediate(IntImm(i)), Primitive(Int));
    var lhsAccess := ii.InsertTypedExpr(ArrayElementAccess(lhs, imm), elTy);
    var rhsAccess := ii.InsertTypedExpr(ArrayElementAccess(rhs, imm), elTy);
    cmp := ii.InsertExpr(BinaryOpExpr(op, lhsAccess, rhsAccess));
  }

  /** Adds the index, the two accesses and the comparison of every element `0 .. n`, in that order. */
  method AddArrayElementCompares(ii: Intent, op: BinaryOp, lhs: ExprKey, rhs: ExprKey, n: nat, elTy: Type)
    returns (cmps: seq<ExprKey>)
    requires ii.Valid()
    modifies ii`exprs, ii`exprTypes, ii`nextExpr
    ensures ii.Valid()
    ensures ii.nextExpr == old(ii.nextExpr) + 4 * n
    ensures cmps == ArrayCompareKeys(old(ii.nextExpr), n)
    ensures ii.exprs == old(ii.exprs) + ArrayElementExprs(old(ii.nextExpr), n, op, lhs, rhs)
    ensures ii.exprTypes == old(ii.exprTypes) + ArrayElementTypes(old(ii.nextExpr), n, elTy)
  {
    ghost var base := ii.nextExpr;
    cmps := [];
    var idx := 0;
    while idx < n
      invariant idx <= n
      invariant ii.Valid() && ii.nextExpr == base + 4 * idx
      invariant cmps == ArrayCompareKeys(base, idx)
      invariant ii.exprs == old(ii.exprs) + ArrayElementExprs(base, idx, op, lhs, rhs)
      invariant ii.exprTypes == old(ii.exprTypes) + ArrayElementTypes(base, idx, elTy)
    {
      ArrayElementStep(old(ii.exprs), old(ii.exprTypes), base, idx, op, lhs, rhs, elTy);
      var cmp := AddArrayElementCompare(ii, op, lhs, rhs, base, idx, elTy);
      cmps := cmps + [cmp];
      assert cmps == ArrayCompareKeys(base, idx + 1);
      idx := idx + 1;
    }
  }

  /** All the expressions the lowering of one array comparison adds: the element comparisons and their chain. */
  function LoweredArrayExprs(base: ExprKey, n: nat, op: BinaryOp, lhs: ExprKey, rhs: ExprKey): map<ExprKey, Expr>
  {
    ArrayElementExprs(base, n, op, lhs, rhs) + ChainExprs(base + 4 * n, ChainOp(op), ArrayCompareKeys(base, n), n)
  }

  /** The key of the lowered expression: the last chain node, or the only comparison. */
  function ArrayChainRoot(base: ExprKey, n: nat): ExprKey
    requires n >= 1
  {
    ChainAcc(base + 4 * n, ArraySlot(base, 0, 3), n - 1)
  }

  /**
   * The expression types once the comparison `key` is lowered: the index and
   * element accesses and the chain links are added, the root of the chain
   * is a `bool` and `key` is gone.
   */
  function LoweredArrayTypes(types: map<ExprKey, Type>, base: ExprKey, n: nat, elTy: Type, key: ExprKey): map<ExprKey, Type>
    requires n >= 1
  {
    ArrayChainTypes(types, base, n, elTy)[ArrayChainRoot(base, n) := Primitive(Bool)] - {key}
  }

  /** The expression types once the index and element accesses, their comparisons and the chain links are added. */
  function ArrayChainTypes(types: map<ExprKey, Type>, base: ExprKey, n: nat, elTy: Type): map<ExprKey, Type>
    requires n >= 1
  {
    types + ArrayElementTypes(base, n, elTy) + ChainTypes(base + 4 * n, n - 1)
  }

  /** Element `i` of arena `e` is the comparison `lhs[i] op rhs[i]` over the constant index `i`. */
  predicate LoweredElement(e: map<ExprKey, Expr>, base: ExprKey, i: nat, op: BinaryOp, lhs: ExprKey, rhs: ExprKey)
  {
    && ArraySlot(base, i, 0) in e && e[ArraySlot(base, i, 0)] == Immediate(IntImm(i))
    && ArraySlot(base, i, 1) in e && e[ArraySlot(base, i, 1)] == ArrayElementAccess(lhs, ArraySlot(base, i, 0))
    && ArraySlot(base, i, 2) in e && e[ArraySlot(base, i, 2)] == ArrayElementAccess(rhs, ArraySlot(base, i, 0))
    && ArraySlot(base, i, 3) in e && e[ArraySlot(base, i, 3)] == BinaryOpExpr(op, ArraySlot(base, i, 1), ArraySlot(base, i, 2))
  }

  /**
   * What the lowering builds: the `ChainOp(op)`-chain whose leaves are, in
   * order, the comparisons `lhs[i] op rhs[i]` for `i = 0 .. n`, each over
   * the constant index `i`.
   */
  lemma LoweredArrayShape(base: ExprKey, n: nat, op: BinaryOp, lhs: ExprKey, rhs: ExprKey)
    requires IsEquality(op) && n >= 1
    ensures var e := LoweredArrayExprs(base, n, op, lhs, rhs);
      && ChainLeaves(e, ChainOp(op), ArrayChainRoot(base, n)) == ArrayCompareKeys(base, n)
      && forall i :: 0 <= i < n ==> LoweredElement(e, base, i, op, lhs, rhs)
  {
    var conn := ChainOp(op);
    var cmps := ArrayCompareKeys(base, n);
    var chainBase := base + 4 * n;
    var e := LoweredArrayExprs(base, n, op, lhs, rhs);
    LoweredArrayElements(base, n, op, lhs, rhs);
    forall i | 0 <= i < n
      ensures cmps[i] in e && e[cmps[i]].BinaryOpExpr? && e[cmps[i]].op != conn
    {
      assert cmps[i] == ArraySlot(base, i, 3);
      assert LoweredElement(e, base, i, op, lhs, rhs);
    }
    ChainLeavesAreCompares(e, chainBase, conn, cmps, n);
    assert cmps[..n] == cmps;
  }

  /** Each element comparison of the lowering is in place, untouched by the chain links. */
  lemma LoweredArrayElements(base: ExprKey, n: nat, op: BinaryOp, lhs: ExprKey, rhs: ExprKey)
    requires n >= 1
    ensures forall i :: 0 <= i < n ==> LoweredElement(LoweredArrayExprs(base, n, op, lhs, rhs), base, i, op, lhs, rhs)
  {
    var chainBase := base + 4 * n;
    ChainExprsKeys(chainBase, ChainOp(op), ArrayCompareKeys(base, n), n);
    forall i | 0 <= i < n
      ensures LoweredElement(LoweredArrayExprs(base, n, op, lhs, rhs), base, i, op, lhs, rhs)
    {
      ArrayElementExprsAt(base, n, op, lhs, rhs, i);
      assert ArraySlot(base, i, 3) < chainBase;
    }
  }

  // ---------------------------------------------------------------------
  // Lowering the array comparisons

  /** Adds the element comparisons of `lhs op rhs` over `n` elements and their chain; returns the chain's key. */
  method BuildArrayChain(ii: Intent, op: BinaryOp, lhs: ExprKey, rhs: ExprKey, n: nat, elTy: Type) returns (root: ExprKey)
    requires ii.Valid() && n >= 1
    modifies ii`exprs, ii`exprTypes, ii`nextExpr
    ensures ii.Valid()
    ensures root == ArrayChainRoot(old(ii.nextExpr), n) && root < ii.nextExpr
    ensures ii.nextExpr == old(ii.nextExpr) + 4 * n + n - 1
    ensures ii.exprs == old(ii.exprs) + LoweredArrayExprs(old(ii.nextExpr), n, op, lhs, rhs)
    ensures ii.exprTypes == ArrayChainTypes(old(ii.exprTypes), old(ii.nextExpr), n, elTy)
    ensures forall k :: k in ii.exprs && k < old(ii.nextExpr) ==> k in old(ii.exprs)
  {
    ghost var base := ii.nextExpr;
    var cmps := AddArrayElementCompares(ii, op, lhs, rhs, n, elTy);
    var chained := ReduceChain(ii, ChainOp(op), cmps);
    root := chained.value;
    UnionAssociative(old(ii.exprs), ArrayElementExprs(base, n, op, lhs, rhs), ChainExprs(base + 4 * n, ChainOp(op), cmps, n));
    LoweredArrayExprsAbove(base, n, op, lhs, rhs);
    UnionAbove(old(ii.exprs), LoweredArrayExprs(base, n, op, lhs, rhs), base);
  }

  /** Everything the lowering adds lies at or above the first fresh key. */
  lemma LoweredArrayExprsAbove(base: ExprKey, n: nat, op: BinaryOp, lhs: ExprKey, rhs: ExprKey)
    ensures forall k :: k in LoweredArrayExprs(base, n, op, lhs, rhs) ==> base <= k
  {
    ArrayElementExprsKeys(base, n, op, lhs, rhs);
    ChainExprsKeys(base + 4 * n, ChainOp(op), ArrayCompareKeys(base, n), n);
  }

  /**
   * Lowers one collected comparison: both sizes must be known and equal and
   * at least 1; then the element comparisons and their chain are added, the
   * chain is typed `bool`, replaces the comparison everywhere, and the
   * comparison is removed.
   */
  method LowerArrayCompare(ii: Intent, c: ArrayCompare) returns (r: Result<()>)
    requires ii.Valid()
    modifies ii`exprs, ii`exprTypes, ii`nextExpr, ii`constraints, ii`directives
    ensures ii.Valid() && ii.nextExpr >= old(ii.nextExpr)
    ensures forall k :: k in ii.exprs && k < old(ii.nextExpr) ==> k in old(ii.exprs)
    ensures c.lhsSize.None? ==> r == Err(Internal(MissingCompareSizeMsg)) && unchanged(ii)
    ensures c.lhsSize.Some? && c.rhsSize.None? ==> r == Err(Internal(MissingCompareSizeMsg)) && unchanged(ii)
    ensures c.lhsSize.Some? && c.rhsSize.Some? && c.lhsSize != c.rhsSize ==>
      r == Err(MismatchedArrayComparisonSizes(c.op, c.lhsSize.value, c.rhsSize.value)) && unchanged(ii)
    ensures c.lhsSize.Some? && c.lhsSize == c.rhsSize && c.lhsSize.value <= 0 ==>
      r == Err(Panic(NoArrayElementsMsg)) && unchanged(ii)
    ensures c.lhsSize.Some? && c.lhsSize == c.rhsSize && c.lhsSize.value > 0 ==>
      var base := old(ii.nextExpr);
      var n := c.lhsSize.value;
      var root := ArrayChainRoot(base, n);
      && r == Ok(())
      && ii.nextExpr == base + 4 * n + n - 1
      && ii.exprs == ReplaceInExprs(old(ii.exprs) + LoweredArrayExprs(base, n, c.op, c.lhs, c.rhs), c.key, root) - {c.key}
      && ii.exprTypes == LoweredArrayTypes(old(ii.exprTypes), base, n, c.elTy, c.key)
      && ii.constraints == ReplaceKeys(old(ii.constraints), c.key, root)
      && ii.directives == ReplaceDirectives(old(ii.directives), c.key, root)
  {
    if c.lhsSize.None? || c.rhsSize.None? {
      return Err(Internal(MissingCompareSizeMsg));
    }
    var lhsSize, rhsSize := c.lhsSize.value, c.rhsSize.value;
    if lhsSize != rhsSize {
      return Err(MismatchedArrayComparisonSizes(c.op, lhsSize, rhsSize));
    }
    if lhsSize <= 0 {
      // No element comparisons: the `reduce` has nothing to join.
      return Err(Panic(NoArrayElementsMsg));
    }
    ReplaceWithArrayChain(ii, c, lhsSize);
    r := Ok(());
  }

  /** The success tail of `LowerArrayCompare`: builds the element chain and puts its root in place of the comparison. */
  method ReplaceWithArrayChain(ii: Intent, c: ArrayCompare, n: int)
    requires ii.Valid() && n > 0
    modifies ii`exprs, ii`exprTypes, ii`nextExpr, ii`constraints, ii`directives
    ensures ii.Valid() && ii.nextExpr >= old(ii.nextExpr)
    ensures forall k :: k in ii.exprs && k < old(ii.nextExpr) ==> k in old(ii.exprs)
    ensures var base := old(ii.nextExpr);
      var root := ArrayChainRoot(base, n);
      && ii.nextExpr == base + 4 * n + n - 1
      && ii.exprs == ReplaceInExprs(old(ii.exprs) + LoweredArrayExprs(base, n, c.op, c.lhs, c.rhs), c.key, root) - {c.key}
      && ii.exprTypes == LoweredArrayTypes(old(ii.exprTypes), base, n, c.elTy, c.key)
      && ii.constraints == ReplaceKeys(old(ii.constraints), c.key, root)
      && ii.directives == ReplaceDirectives(old(ii.directives), c.key, root)
  {
    var root := BuildArrayChain(ii, c.op, c.lhs, c.rhs, n, c.elTy);
    ii.SetExprType(root, Primitive(Bool));
    ii.ReplaceAndRemove(c.key, root);
  }

  /** One comparison of the `lower_array_compares` loop, with only what the loop needs. */
  method LowerArrayCompareTurn(ii: Intent, c: ArrayCompare) returns (r: Result<()>)
    requires ii.Valid()
    modifies ii`exprs, ii`exprTypes, ii`nextExpr, ii`constraints, ii`directives
    ensures ii.Valid() && ii.nextExpr >= old(ii.nextExpr)
    ensures r.Ok? ==> ArrayLowerStep(old(ii.Arena()), c) == Ok(ii.Arena())
    ensures r.Err? ==> ArrayLowerStep(old(ii.Arena()), c) == Err(r.error)
  {
    r := LowerArrayCompare(ii, c);
  }

  /**
   * The arena once a comparison `from` is lowered: the expressions `added`
   * and their types `addedTypes` and `chainTypes` come in, `to` takes the
   * place of `from` everywhere (typed `bool` when `typeRoot`), `from` is
   * removed and the counter moves to `next`.
   */
  function LoweredArena(t: ExprArena, from: ExprKey, to: ExprKey, added: map<ExprKey, Expr>, addedTypes: map<ExprKey, Type>,
                        chainTypes: map<ExprKey, Type>, typeRoot: bool, next: nat): ExprArena
  {
    var types := t.exprTypes + addedTypes + chainTypes;
    ExprArena(ReplaceInExprs(t.exprs + added, from, to) - {from},
              (if typeRoot then types[to := Primitive(Bool)] else types) - {from},
              next,
              ReplaceKeys(t.constraints, from, to),
              ReplaceDirectives(t.directives, from, to))
  }

  /** The arena after lowering comparison `c`, or the error that stops the lowering (as `LowerArrayCompare`). */
  function ArrayLowerStep(s: ExprArena, c: ArrayCompare): Result<ExprArena>
  {
    if c.lhsSize.None? || c.rhsSize.None? then Err(Internal(MissingCompareSizeMsg))
    else if c.lhsSize.value != c.rhsSize.value then
      Err(MismatchedArrayComparisonSizes(c.op, c.lhsSize.value, c.rhsSize.value))
    else if c.lhsSize.value <= 0 then Err(Panic(NoArrayElementsMsg))
    else Ok(ArrayLowered(s, c))
  }

  /**
   * The arena once `c` is lowered over its `n >= 1` elements: the element
   * comparisons and their chain come in at the counter, and the chain's root,
   * typed `bool`, takes the place of the comparison.
   */
  function ArrayLowered(s: ExprArena, c: ArrayCompare): ExprArena
    requires c.lhsSize.Some? && c.lhsSize.value >= 1
  {
    var base := s.nextExpr;
    var n := c.lhsSize.value;
    LoweredArena(s, c.key, ArrayChainRoot(base, n), LoweredArrayExprs(base, n, c.op, c.lhs, c.rhs), ArrayElementTypes(base, n, c.elTy),
                 ChainTypes(base + 4 * n, n - 1), true, base + 4 * n + n - 1)
  }

  /** The key of a collected array comparison. */
  function KeyOfArrayCompare(c: ArrayCompare): ExprKey
  {
    c.key
  }

  /** A successful lowering step removes the comparison and adds keys only from the counter on. */
  lemma ArrayLowerStepRemovesKey(t: ExprArena, c: ArrayCompare)
    requires ArrayLowerStep(t, c).Ok?
    ensures RemovesKey(t, c.key, ArrayLowerStep(t, c).value)
  {
    LoweredArrayExprsAbove(t.nextExpr, c.lhsSize.value, c.op, c.lhs, c.rhs);
  }

  /** Every successful lowering step removes its comparison. */
  lemma ArrayLowerStepsRemoveKeys()
    ensures forall t, c :: ArrayLowerStep(t, c).Ok? ==> RemovesKey(t, KeyOfArrayCompare(c), ArrayLowerStep(t, c).value)
  {
    forall t, c | ArrayLowerStep(t, c).Ok?
      ensures RemovesKey(t, KeyOfArrayCompare(c), ArrayLowerStep(t, c).value)
    {
      ArrayLowerStepRemovesKey(t, c);
    }
  }

  /** The lowering loop of `lower_array_compares`: lowers `cs` in order, stopping at the first failure. */
  method LowerArrayCompareList(ii: Intent, cs: seq<ArrayCompare>) returns (r: Result<bool>)
    requires ii.Valid()
    requires forall j :: 0 <= j < |cs| ==> cs[j].key < ii.nextExpr
    modifies ii`exprs, ii`exprTypes, ii`nextExpr, ii`constraints, ii`directives
    ensures ii.Valid()
    ensures r.Ok? ==> r == Ok(true) && forall i :: 0 <= i < |cs| ==> cs[i].key !in ii.exprs
    ensures var f := FoldSteps(old(ii.Arena()), ArrayLowerStep, cs, |cs|);
      && (f.Ok? ==> r == Ok(true) && ii.Arena() == f.value)
      && (f.Err? ==> r == Err(f.error))
  {
    ghost var s0 := ii.Arena();
    var i := 0;
    while i < |cs|
      invariant 0 <= i <= |cs|
      invariant ii.Valid()
      invariant FoldSteps(s0, ArrayLowerStep, cs, i) == Ok(ii.Arena())
    {
      ghost var prev := ii.Arena();
      var step := LowerArrayCompareTurn(ii, cs[i]);
      if step.Err? {
        FoldStepsFails(s0, ArrayLowerStep, cs, i, prev, step.error);
        return Err(step.error);
      }
      FoldStepsExtends(s0, ArrayLowerStep, cs, i, prev, ii.Arena());
      i := i + 1;
    }
    ArrayLowerStepsRemoveKeys();
    FoldStepsKeysGone(s0, ArrayLowerStep, KeyOfArrayCompare, cs, ii.Arena());
    assert ii.Arena().exprs == ii.exprs;
    r := Ok(true);
  }

  /**
   * `lower_array_compares`: collects every array comparison, then lowers
   * them one by one, stopping at the first failure. Reports whether there
   * was any.
   */
  method LowerArrayCompares(ii: Intent) returns (r: Result<bool>)
    requires ii.Valid()
    modifies ii`exprs, ii`exprTypes, ii`nextExpr, ii`constraints, ii`directives
    ensures ii.Valid()
    ensures var cs := ArrayComparesBelow(old(ii.exprs), old(ii.exprTypes), old(ii.nextExpr));
      && (cs == [] <==> r == Ok(false))
      && (cs == [] ==> unchanged(ii))
      && (r.Ok? ==> forall i :: 0 <= i < |cs| ==> cs[i].key !in ii.exprs)
      && (cs != [] ==>
            var f := FoldSteps(old(ii.Arena()), ArrayLowerStep, cs, |cs|);
            && (f.Ok? ==> r == Ok(true) && ii.Arena() == f.value)
            && (f.Err? ==> r == Err(f.error)))
  {
    var cs := CollectArrayCompares(ii);
    if cs == [] {
      return Ok(false);
    }
    ArrayComparesBelowSpec(ii.exprs, ii.exprTypes, ii.nextExpr);
    r := LowerArrayCompareList(ii, cs);
  }

  // ---------------------------------------------------------------------
  // Finding the tuple comparisons

  datatype TupleCompare = TupleCompare(key: ExprKey, op: BinaryOp, lhs: ExprKey, rhs: ExprKey)

  /**
   * Expression `k` is an `==`/`!=` whose lhs has a tuple type; the rhs must
   * then have a tuple type too, or the pass panics.
   */
  function TupleCompareAt(exprs: map<ExprKey, Expr>, exprTypes: map<ExprKey, Type>, k: ExprKey): (r: Result<Option<TupleCompare>>)
    ensures r.Ok? && r.value.Some? ==> r.value.value.key == k && IsEquality(r.value.value.op)
  {
    if k in exprs && exprs[k].BinaryOpExpr? && IsEquality(exprs[k].op)
       && exprs[k].lhs in exprTypes && exprTypes[exprs[k].lhs].Tuple?
    then
      var e := exprs[k];
      if e.rhs !in exprTypes then Err(Panic(MissingRhsTupleTypeMsg))
      else if !exprTypes[e.rhs].Tuple? then Err(Panic(RhsNotTupleMsg))
      else Ok(Some(TupleCompare(k, e.op, e.lhs, e.rhs)))
    else Ok(None)
  }

  /** The tuple comparisons among the keys below `n`, in key order, or the first key's panic. */
  function TupleComparesBelow(exprs: map<ExprKey, Expr>, exprTypes: map<ExprKey, Type>, n: nat): Result<seq<TupleCompare>>
  {
    if n == 0 then Ok([])
    else
      var prev :- TupleComparesBelow(exprs, exprTypes, n - 1);
      var at :- TupleCompareAt(exprs, exprTypes, n - 1);
      Ok(prev + (if at.Some? then [at.value] else []))
  }

  /**
   * On success the collected comparisons are exactly the tuple comparisons
   * below `n`, in increasing key order; a failure is the panic of the first
   * key that panics.
   */
  lemma TupleComparesBelowSpec(exprs: map<ExprKey, Expr>, exprTypes: map<ExprKey, Type>, n: nat)
    ensures var r := TupleComparesBelow(exprs, exprTypes, n);
      && (r.Ok? ==>
            var cs := r.value;
            && (forall i :: 0 <= i < |cs| ==> cs[i].key < n && TupleCompareAt(exprs, exprTypes, cs[i].key) == Ok(Some(cs[i])))
            && (forall i, j :: 0 <= i < j < |cs| ==> cs[i].key < cs[j].key)
            && (forall k :: 0 <= k < n ==> TupleCompareAt(exprs, exprTypes, k).Ok?)
            && (forall k :: 0 <= k < n && TupleCompareAt(exprs, exprTypes, k).value.Some? ==> exists i :: 0 <= i < |cs| && cs[i].key == k))
      && (r.Err? ==> exists k :: 0 <= k < n && TupleCompareAt(exprs, exprTypes, k) == Err(r.error)
                                && forall j :: 0 <= j < k ==> TupleCompareAt(exprs, exprTypes, j).Ok?)
  {
    TupleComparesBelowOk(exprs, exprTypes, n);
    TupleComparesBelowErr(exprs, exprTypes, n);
  }

  /** The successful half of `TupleComparesBelowSpec`. */
  lemma {:induction false} TupleComparesBelowOk(exprs: map<ExprKey, Expr>, exprTypes: map<ExprKey, Type>, n: nat)
    ensures var r := TupleComparesBelow(exprs, exprTypes, n);
      r.Ok? ==>
        var cs := r.value;
        && (forall i :: 0 <= i < |cs| ==> cs[i].key < n && TupleCompareAt(exprs, exprTypes, cs[i].key) == Ok(Some(cs[i])))
        && (forall i, j :: 0 <= i < j < |cs| ==> cs[i].key < cs[j].key)
        && (forall k :: 0 <= k < n ==> TupleCompareAt(exprs, exprTypes, k).Ok?)
        && (forall k :: 0 <= k < n && TupleCompareAt(exprs, exprTypes, k).value.Some? ==> exists i :: 0 <= i < |cs| && cs[i].key == k)
  {
    var r := TupleComparesBelow(exprs, exprTypes, n);
    if r.Ok? {
      TupleComparesBelowSound(exprs, exprTypes, n);
      TupleComparesBelowComplete(exprs, exprTypes, n);
    }
  }

  /** Each of `cs` is the tuple comparison at its key, a key below `n`. */
  predicate TupleCollectedAt(exprs: map<ExprKey, Expr>, exprTypes: map<ExprKey, Type>, cs: seq<TupleCompare>, n: nat)
  {
    forall i :: 0 <= i < |cs| ==> cs[i].key < n && TupleCompareAt(exprs, exprTypes, cs[i].key) == Ok(Some(cs[i]))
  }

  predicate TupleKeysIncrease(cs: seq<TupleCompare>)
  {
    forall i, j :: 0 <= i < j < |cs| ==> cs[i].key < cs[j].key
  }

  /** No key below `n` panics. */
  predicate TupleComparesOkBelow(exprs: map<ExprKey, Expr>, exprTypes: map<ExprKey, Type>, n: nat)
  {
    forall k :: 0 <= k < n ==> TupleCompareAt(exprs, exprTypes, k).Ok?
  }

  /** Every tuple comparison below `n` has its key among `cs`. */
  predicate TupleCollectsAll(exprs: map<ExprKey, Expr>, exprTypes: map<ExprKey, Type>, cs: seq<TupleCompare>, n: nat)
  {
    forall k :: 0 <= k < n && TupleCompareAt(exprs, exprTypes, k) != Ok(None) && TupleCompareAt(exprs, exprTypes, k).Ok? ==>
      exists i :: 0 <= i < |cs| && cs[i].key == k
  }

  /** A successful collection holds only comparisons at their keys, in increasing key order, and met no panic. */
  lemma {:induction false} TupleComparesBelowSound(exprs: map<ExprKey, Expr>, exprTypes: map<ExprKey, Type>, n: nat)
    requires TupleComparesBelow(exprs, exprTypes, n).Ok?
    ensures TupleCollectedAt(exprs, exprTypes, TupleComparesBelow(exprs, exprTypes, n).value, n)
    ensures TupleKeysIncrease(TupleComparesBelow(exprs, exprTypes, n).value)
    ensures TupleComparesOkBelow(exprs, exprTypes, n)
  {
    if n > 0 {
      TupleComparesBelowSound(exprs, exprTypes, n - 1);
      var cs := TupleComparesBelow(exprs, exprTypes, n).value;
      var prev := TupleComparesBelow(exprs, exprTypes, n - 1).value;
      var at := TupleCompareAt(exprs, exprTypes, n - 1).value;
      if at.Some? {
        assert cs == prev + [at.value];
        forall i | 0 <= i < |cs|
          ensures cs[i].key < n && TupleCompareAt(exprs, exprTypes, cs[i].key) == Ok(Some(cs[i]))
        {
          if i < |prev| {
            assert cs[i] == prev[i];
          } else {
            assert cs[i] == at.value;
          }
        }
        forall i, j | 0 <= i < j < |cs|
          ensures cs[i].key < cs[j].key
        {
          assert cs[i] == prev[i];
          if j < |prev| {
            assert cs[j] == prev[j];
          } else {
            assert cs[j] == at.value;
          }
        }
      } else {
        assert cs == prev;
      }
    }
  }

  /** A successful collection holds every tuple comparison below `n`. */
  lemma {:induction false} TupleComparesBelowComplete(exprs: map<ExprKey, Expr>, exprTypes: map<ExprKey, Type>, n: nat)
    requires TupleComparesBelow(exprs, exprTypes, n).Ok?
    ensures TupleCollectsAll(exprs, exprTypes, TupleComparesBelow(exprs, exprTypes, n).value, n)
  {
    if n > 0 {
      TupleComparesBelowComplete(exprs, exprTypes, n - 1);
      var cs := TupleComparesBelow(exprs, exprTypes, n).value;
      var prev := TupleComparesBelow(exprs, exprTypes, n - 1).value;
      var at := TupleCompareAt(exprs, exprTypes, n - 1).value;
      forall k | 0 <= k < n && TupleCompareAt(exprs, exprTypes, k) != Ok(None) && TupleCompareAt(exprs, exprTypes, k).Ok?
        ensures exists i :: 0 <= i < |cs| && cs[i].key == k
      {
        if k == n - 1 {
          assert cs == prev + [at.value];
          assert cs[|prev|].key == k;
        } else {
          var i :| 0 <= i < |prev| && prev[i].key == k;
          assert cs[i] == prev[i];
        }
      }
    }
  }

  /** The failing half of `TupleComparesBelowSpec`. */
  lemma {:induction false} TupleComparesBelowErr(exprs: map<ExprKey, Expr>, exprTypes: map<ExprKey, Type>, n: nat)
    ensures var r := TupleComparesBelow(exprs, exprTypes, n);
      r.Err? ==> exists k :: 0 <= k < n && TupleCompareAt(exprs, exprTypes, k) == Err(r.error)
                             && forall j :: 0 <= j < k ==> TupleCompareAt(exprs, exprTypes, j).Ok?
  {
    if n > 0 {
      TupleComparesBelowErr(exprs, exprTypes, n - 1);
      if TupleComparesBelow(exprs, exprTypes, n - 1).Ok? {
        TupleComparesBelowOk(exprs, exprTypes, n - 1);
      }
    }
  }

  /** Once the collection has panicked, looking further does not change the outcome. */
  lemma {:induction false} TupleComparesPanicStays(exprs: map<ExprKey, Expr>, exprTypes: map<ExprKey, Type>, m: nat, n: nat)
    requires m <= n && TupleComparesBelow(exprs, exprTypes, m).Err?
    ensures TupleComparesBelow(exprs, exprTypes, n) == TupleComparesBelow(exprs, exprTypes, m)
    decreases n - m
  {
    if m < n {
      TupleComparesPanicStays(exprs, exprTypes, m, n - 1);
    }
  }

  /** The collecting pass over the arena, in key order, panicking at the first ill-typed comparison. */
  method CollectTupleCompares(ii: Intent) returns (r: Result<seq<TupleCompare>>)
    ensures r == TupleComparesBelow(ii.exprs, ii.exprTypes, ii.nextExpr)
  {
    var cs := [];
    var k := 0;
    while k < ii.nextExpr
      invariant k <= ii.nextExpr
      invariant TupleComparesBelow(ii.exprs, ii.exprTypes, k) == Ok(cs)
    {
      var at := TupleCompareAt(ii.exprs, ii.exprTypes, k);
      if at.Err? {
        TupleComparesPanicStays(ii.exprs, ii.exprTypes, k + 1, ii.nextExpr);
        return Err(at.error);
      }
      var next := cs + (if at.value.Some? then [at.value.value] else []);
      assert TupleComparesBelow(ii.exprs, ii.exprTypes, k + 1) == Ok(next);
      cs := next;
      k := k + 1;
    }
    r := Ok(cs);
  }

  // ---------------------------------------------------------------------
  // Field accessors

  predicate AllNamed(fs: seq<TupleField>)
  {
    forall i :: 0 <= i < |fs| ==> fs[i].name.Some?
  }

  /** Named accessors are used for the rhs only when every field of both tuples is named. */
  predicate UseNamedAccessors(lf: seq<TupleField>, rf: seq<TupleField>)
  {
    AllNamed(lf) && AllNamed(rf)
  }

  /** A field is accessed by its name if it has one, otherwise by its position. */
  function FieldAccessor(f: TupleField, i: nat): TupleAccess
  {
    if f.name.Some? then Name(f.name.value) else Index(i)
  }

  function LhsAccessors(lf: seq<TupleField>): seq<TupleAccess>
  {
    seq(|lf|, i requires 0 <= i < |lf| => FieldAccessor(lf[i], i))
  }

  /** The rhs accessor of field `i`: the lhs one in named mode, else the rhs field `i`'s own. */
  function RhsAccessors(lf: seq<TupleField>, rf: seq<TupleField>): seq<TupleAccess>
    requires UseNamedAccessors(lf, rf) || |lf| <= |rf|
  {
    seq(|lf|, i requires 0 <= i < |lf| =>
      if UseNamedAccessors(lf, rf) then FieldAccessor(lf[i], i) else FieldAccessor(rf[i], i))
  }

  /** The first field carrying `name`. */
  function FieldIndexByName(fs: seq<TupleField>, name: string): (r: Option<nat>)
    ensures r.Some? ==> r.value < |fs| && fs[r.value].name == Some(name)
    ensures r.Some? ==> forall j :: 0 <= j < r.value ==> fs[j].name != Some(name)
    ensures r.None? ==> forall j :: 0 <= j < |fs| ==> fs[j].name != Some(name)
  {
    if fs == [] then None
    else if fs[0].name == Some(name) then Some(0)
    else
      match FieldIndexByName(fs[1..], name)
      case None => None
      case Some(j) => Some(j + 1)
  }

  /** The position a tuple access selects in a tuple with fields `fs`. */
  function ResolveAccess(fs: seq<TupleField>, a: TupleAccess): Option<nat>
  {
    match a
    case Index(i) => if i < |fs| then Some(i) else None
    case Name(name) => FieldIndexByName(fs, name)
    case InvalidAccess => None
  }

  /**
   * Field `i` of the lhs is compared with the rhs field at the same
   * position, except in named mode, where it is compared with the rhs field
   * of the same name.
   */
  lemma AccessorsSelectFields(lf: seq<TupleField>, rf: seq<TupleField>)
    requires UniqueNames(lf) && UniqueNames(rf)
    requires UseNamedAccessors(lf, rf) || |lf| <= |rf|
    ensures forall i :: 0 <= i < |lf| ==> ResolveAccess(lf, LhsAccessors(lf)[i]) == Some(i)
    ensures !UseNamedAccessors(lf, rf) ==> forall i :: 0 <= i < |lf| ==> ResolveAccess(rf, RhsAccessors(lf, rf)[i]) == Some(i)
    ensures UseNamedAccessors(lf, rf) ==> forall i :: 0 <= i < |lf| ==>
      var j := ResolveAccess(rf, RhsAccessors(lf, rf)[i]);
      (j.Some? ==> rf[j.value].name == lf[i].name) && (j.None? ==> forall k :: 0 <= k < |rf| ==> rf[k].name != lf[i].name)
  {
    forall i | 0 <= i < |lf|
      ensures ResolveAccess(lf, LhsAccessors(lf)[i]) == Some(i)
    {
      if lf[i].name.Some? {
        var r := FieldIndexByName(lf, lf[i].name.value);
        assert r.Some? && r.value <= i;
      }
    }
    if !UseNamedAccessors(lf, rf) {
      forall i | 0 <= i < |lf|
        ensures ResolveAccess(rf, RhsAccessors(lf, rf)[i]) == Some(i)
      {
        if rf[i].name.Some? {
          var r := FieldIndexByName(rf, rf[i].name.value);
          assert r.Some? && r.value <= i;
        }
      }
    }
  }

  // ---------------------------------------------------------------------
  // The field comparisons of a tuple comparison

  /** Slot `j` (0: lhs access, 1: rhs access, 2: comparison) of field `i`. */
  function TupleSlot(base: ExprKey, i: nat, j: nat): ExprKey
  {
    base + 3 * i + j
  }

  function TupleCompareKeys(base: ExprKey, n: nat): seq<ExprKey>
  {
    seq(n, i requires 0 <= i < n => TupleSlot(base, i, 2))
  }

  /** For each field `i < n`: the two field accesses and their comparison. */
  function TupleFieldExprs(base: ExprKey, n: nat, op: BinaryOp, lhs: ExprKey, rhs: ExprKey,
                           la: seq<TupleAccess>, ra: seq<TupleAccess>): map<ExprKey, Expr>
    requires n <= |la| && n <= |ra|
  {
    if n == 0 then map[]
    else
      var i := n - 1;
      TupleFieldExprs(base, i, op, lhs, rhs, la, ra)
        [TupleSlot(base, i, 0) := TupleFieldAccess(lhs, la[i])]
        [TupleSlot(base, i, 1) := TupleFieldAccess(rhs, ra[i])]
        [TupleSlot(base, i, 2) := BinaryOpExpr(op, TupleSlot(base, i, 0), TupleSlot(base, i, 1))]
  }

  /** Both accesses have the lhs field's type; the comparison is a `bool`. */
  function TupleFieldTypes(base: ExprKey, n: nat, lf: seq<TupleField>): map<ExprKey, Type>
    requires n <= |lf|
  {
    if n == 0 then map[]
    else
      var i := n - 1;
      TupleFieldTypes(base, i, lf)
        [TupleSlot(base, i, 0) := lf[i].ty]
        [TupleSlot(base, i, 1) := lf[i].ty]
        [TupleSlot(base, i, 2) := Primitive(Bool)]
  }

  /** Field `i` of arena `e` is the comparison `lhs.la op rhs.ra`. */
  predicate LoweredField(e: map<ExprKey, Expr>, base: ExprKey, i: nat, op: BinaryOp, lhs: ExprKey, rhs: ExprKey,
                         la: TupleAccess, ra: TupleAccess)
  {
    && TupleSlot(base, i, 0) in e && e[TupleSlot(base, i, 0)] == TupleFieldAccess(lhs, la)
    && TupleSlot(base, i, 1) in e && e[TupleSlot(base, i, 1)] == TupleFieldAccess(rhs, ra)
    && TupleSlot(base, i, 2) in e && e[TupleSlot(base, i, 2)] == BinaryOpExpr(op, TupleSlot(base, i, 0), TupleSlot(base, i, 1))
  }

  lemma {:induction false} TupleFieldExprsKeys(base: ExprKey, n: nat, op: BinaryOp, lhs: ExprKey, rhs: ExprKey,
                                               la: seq<TupleAccess>, ra: seq<TupleAccess>)
    requires n <= |la| && n <= |ra|
    ensures forall k :: k in TupleFieldExprs(base, n, op, lhs, rhs, la, ra) <==> base <= k < base + 3 * n
  {
    if n > 0 {
      TupleFieldExprsKeys(base, n - 1, op, lhs, rhs, la, ra);
    }
  }

  lemma {:induction false} TupleFieldExprsAt(base: ExprKey, n: nat, op: BinaryOp, lhs: ExprKey, rhs: ExprKey,
                                             la: seq<TupleAccess>, ra: seq<TupleAccess>, i: nat)
    requires n <= |la| && n <= |ra| && i < n
    ensures LoweredField(TupleFieldExprs(base, n, op, lhs, rhs, la, ra), base, i, op, lhs, rhs, la[i], ra[i])
  {
    if i < n - 1 {
      TupleFieldExprsAt(base, n - 1, op, lhs, rhs, la, ra, i);
    }
  }

  lemma {:induction false} TupleFieldTypesKeys(base: ExprKey, n: nat, lf: seq<TupleField>)
    requires n <= |lf|
    ensures forall k :: k in TupleFieldTypes(base, n, lf) ==> base <= k < base + 3 * n
  {
    if n > 0 {
      TupleFieldTypesKeys(base, n - 1, lf);
    }
  }

  lemma TupleFieldStep(exprs: map<ExprKey, Expr>, exprTypes: map<ExprKey, Type>, base: ExprKey, i: nat,
                       op: BinaryOp, lhs: ExprKey, rhs: ExprKey, la: seq<TupleAccess>, ra: seq<TupleAccess>, lf: seq<TupleField>)
    requires i < |la| && i < |ra| && i < |lf|
    ensures exprs + TupleFieldExprs(base, i + 1, op, lhs, rhs, la, ra)
         == (exprs + TupleFieldExprs(base, i, op, lhs, rhs, la, ra))
              [TupleSlot(base, i, 0) := TupleFieldAccess(lhs, la[i])]
              [TupleSlot(base, i, 1) := TupleFieldAccess(rhs, ra[i])]
              [TupleSlot(base, i, 2) := BinaryOpExpr(op, TupleSlot(base, i, 0), TupleSlot(base, i, 1))]
    ensures exprTypes + TupleFieldTypes(base, i + 1, lf)
         == (exprTypes + TupleFieldTypes(base, i, lf))
              [TupleSlot(base, i, 0) := lf[i].ty]
              [TupleSlot(base, i, 1) := lf[i].ty]
              [TupleSlot(base, i, 2) := Primitive(Bool)]
  {
    var m0 := TupleFieldExprs(base, i, op, lhs, rhs, la, ra);
    var m1 := m0[TupleSlot(base, i, 0) := TupleFieldAccess(lhs, la[i])];
    var m2 := m1[TupleSlot(base, i, 1) := TupleFieldAccess(rhs, ra[i])];
    UnionUpdate(exprs, m0, TupleSlot(base, i, 0), TupleFieldAccess(lhs, la[i]));
    UnionUpdate(exprs, m1, TupleSlot(base, i, 1), TupleFieldAccess(rhs, ra[i]));
    UnionUpdate(exprs, m2, TupleSlot(base, i, 2), BinaryOpExpr(op, TupleSlot(base, i, 0), TupleSlot(base, i, 1)));
    var t0 := TupleFieldTypes(base, i, lf);
    var t1 := t0[TupleSlot(base, i, 0) := lf[i].ty];
    var t2 := t1[TupleSlot(base, i, 1) := lf[i].ty];
    UnionUpdate(exprTypes, t0, TupleSlot(base, i, 0), lf[i].ty);
    UnionUpdate(exprTypes, t1, TupleSlot(base, i, 1), lf[i].ty);
    UnionUpdate(exprTypes, t2, TupleSlot(base, i, 2), Primitive(Bool));
  }

  /** Adds the two accesses of field `i`, typed `ty`, and their comparison. */
  method AddTupleFieldCompare(ii: Intent, op: BinaryOp, lhs: ExprKey, rhs: ExprKey, ghost base: ExprKey, i: nat,
                              la: TupleAccess, ra: TupleAccess, ty: Type)
    returns (cmp: ExprKey)
    requires ii.Valid() && ii.nextExpr == TupleSlot(base, i, 0)
    modifies ii`exprs, ii`exprTypes, ii`nextExpr
    ensures ii.Valid()
    ensures ii.nextExpr == TupleSlot(base, i + 1, 0) && cmp == TupleSlot(base, i, 2)
    ensures ii.exprs == old(ii.exprs)
              [TupleSlot(base, i, 0) := TupleFieldAccess(lhs, la)]
              [TupleSlot(base, i, 1) := TupleFieldAccess(rhs, ra)]
              [TupleSlot(base, i, 2) := BinaryOpExpr(op, TupleSlot(base, i, 0), TupleSlot(base, i, 1))]
    ensures ii.exprTypes == old(ii.exprTypes)
              [TupleSlot(base, i, 0) := ty]
              [TupleSlot(base, i, 1) := ty]
              [TupleSlot(base, i, 2) := Primitive(Bool)]
  {
    var lhsAccess := ii.InsertTypedExpr(TupleFieldAccess(lhs, la), ty);
    var rhsAccess := ii.InsertTypedExpr(TupleFieldAccess(rhs, ra), ty);
    cmp := ii.InsertTypedExpr(BinaryOpExpr(op, lhsAccess, rhsAccess), Primitive(Bool));
  }

  /** Adds the two accesses and the comparison of every field, in field order. */
  method AddTupleFieldCompares(ii: Intent, op: BinaryOp, lhs: ExprKey, rhs: ExprKey,
                               lf: seq<TupleField>, la: seq<TupleAccess>, ra: seq<TupleAccess>)
    returns (cmps: seq<ExprKey>)
    requires ii.Valid() && |la| == |lf| && |ra| == |lf|
    modifies ii`exprs, ii`exprTypes, ii`nextExpr
    ensures ii.Valid()
    ensures ii.nextExpr == old(ii.nextExpr) + 3 * |lf|
    ensures cmps == TupleCompareKeys(old(ii.nextExpr), |lf|)
    ensures ii.exprs == old(ii.exprs) + TupleFieldExprs(old(ii.nextExpr), |lf|, op, lhs, rhs, la, ra)
    ensures ii.exprTypes == old(ii.exprTypes) + TupleFieldTypes(old(ii.nextExpr), |lf|, lf)
  {
    ghost var base := ii.nextExpr;
    cmps := [];
    var idx := 0;
    while idx < |lf|
      invariant idx <= |lf|
      invariant ii.Valid() && ii.nextExpr == base + 3 * idx
      invariant cmps == TupleCompareKeys(base, idx)
      invariant ii.exprs == old(ii.exprs) + TupleFieldExprs(base, idx, op, lhs, rhs, la, ra)
      invariant ii.exprTypes == old(ii.exprTypes) + TupleFieldTypes(base, idx, lf)
    {
      TupleFieldStep(old(ii.exprs), old(ii.exprTypes), base, idx, op, lhs, rhs, la, ra, lf);
      var cmp := AddTupleFieldCompare(ii, op, lhs, rhs, base, idx, la[idx], ra[idx], lf[idx].ty);
      cmps := cmps + [cmp];
      assert cmps == TupleCompareKeys(base, idx + 1);
      idx := idx + 1;
    }
  }

  function LoweredTupleExprs(base: ExprKey, n: nat, op: BinaryOp, lhs: ExprKey, rhs: ExprKey,
                             la: seq<TupleAccess>, ra: seq<TupleAccess>): map<ExprKey, Expr>
    requires n <= |la| && n <= |ra|
  {
    TupleFieldExprs(base, n, op, lhs, rhs, la, ra) + ChainExprs(base + 3 * n, ChainOp(op), TupleCompareKeys(base, n), n)
  }

  function TupleChainRoot(base: ExprKey, n: nat): ExprKey
    requires n >= 1
  {
    ChainAcc(base + 3 * n, TupleSlot(base, 0, 2), n - 1)
  }

  /**
   * What the lowering builds: the `ChainOp(op)`-chain whose leaves are, in
   * order, the field comparisons `lhs.la[i] op rhs.ra[i]`.
   */
  lemma LoweredTupleShape(base: ExprKey, n: nat, op: BinaryOp, lhs: ExprKey, rhs: ExprKey,
                          la: seq<TupleAccess>, ra: seq<TupleAccess>)
    requires IsEquality(op) && 1 <= n && n <= |la| && n <= |ra|
    ensures var e := LoweredTupleExprs(base, n, op, lhs, rhs, la, ra);
      && ChainLeaves(e, ChainOp(op), TupleChainRoot(base, n)) == TupleCompareKeys(base, n)
      && forall i :: 0 <= i < n ==> LoweredField(e, base, i, op, lhs, rhs, la[i], ra[i])
  {
    var conn := ChainOp(op);
    var cmps := TupleCompareKeys(base, n);
    var chainBase := base + 3 * n;
    var e := LoweredTupleExprs(base, n, op, lhs, rhs, la, ra);
    LoweredTupleFields(base, n, op, lhs, rhs, la, ra);
    forall i | 0 <= i < n
      ensures cmps[i] in e && e[cmps[i]].BinaryOpExpr? && e[cmps[i]].op != conn
    {
      assert cmps[i] == TupleSlot(base, i, 2);
      assert LoweredField(e, base, i, op, lhs, rhs, la[i], ra[i]);
    }
    ChainLeavesAreCompares(e, chainBase, conn, cmps, n);
    assert cmps[..n] == cmps;
  }

  /** Each field comparison of the lowering is in place, untouched by the chain links. */
  lemma LoweredTupleFields(base: ExprKey, n: nat, op: BinaryOp, lhs: ExprKey, rhs: ExprKey,
                           la: seq<TupleAccess>, ra: seq<TupleAccess>)
    requires 1 <= n && n <= |la| && n <= |ra|
    ensures forall i :: 0 <= i < n ==> LoweredField(LoweredTupleExprs(base, n, op, lhs, rhs, la, ra), base, i, op, lhs, rhs, la[i], ra[i])
  {
    var chainBase := base + 3 * n;
    ChainExprsKeys(chainBase, ChainOp(op), TupleCompareKeys(base, n), n);
    forall i | 0 <= i < n
      ensures LoweredField(LoweredTupleExprs(base, n, op, lhs, rhs, la, ra), base, i, op, lhs, rhs, la[i], ra[i])
    {
      TupleFieldExprsAt(base, n, op, lhs, rhs, la, ra, i);
      assert TupleSlot(base, i, 2) < chainBase;
    }
  }

  /** The expression types once the field accesses, their comparisons and the chain links are added. */
  function LoweredTupleTypes(types: map<ExprKey, Type>, base: ExprKey, n: nat, lf: seq<TupleField>): map<ExprKey, Type>
    requires n >= 1 && n <= |lf|
  {
    types + TupleFieldTypes(base, n, lf) + ChainTypes(base + 3 * n, n - 1)
  }

  /** Adds the field comparisons and their chain; returns the chain's key. */
  method BuildTupleChain(ii: Intent, op: BinaryOp, lhs: ExprKey, rhs: ExprKey,
                         lf: seq<TupleField>, la: seq<TupleAccess>, ra: seq<TupleAccess>) returns (root: ExprKey)
    requires ii.Valid() && |lf| >= 1 && |la| == |lf| && |ra| == |lf|
    modifies ii`exprs, ii`exprTypes, ii`nextExpr
    ensures ii.Valid()
    ensures root == TupleChainRoot(old(ii.nextExpr), |lf|) && root < ii.nextExpr
    ensures ii.nextExpr == old(ii.nextExpr) + 3 * |lf| + |lf| - 1
    ensures ii.exprs == old(ii.exprs) + LoweredTupleExprs(old(ii.nextExpr), |lf|, op, lhs, rhs, la, ra)
    ensures ii.exprTypes == LoweredTupleTypes(old(ii.exprTypes), old(ii.nextExpr), |lf|, lf)
    ensures forall k :: k in ii.exprs && k < old(ii.nextExpr) ==> k in old(ii.exprs)
  {
    ghost var base := ii.nextExpr;
    var n := |lf|;
    var cmps := AddTupleFieldCompares(ii, op, lhs, rhs, lf, la, ra);
    var chained := ReduceChain(ii, ChainOp(op), cmps);
    root := chained.value;
    UnionAssociative(old(ii.exprs), TupleFieldExprs(base, n, op, lhs, rhs, la, ra), ChainExprs(base + 3 * n, ChainOp(op), cmps, n));
    LoweredTupleExprsAbove(base, n, op, lhs, rhs, la, ra);
    UnionAbove(old(ii.exprs), LoweredTupleExprs(base, n, op, lhs, rhs, la, ra), base);
  }

  /** Everything the lowering adds lies at or above the first fresh key. */
  lemma LoweredTupleExprsAbove(base: ExprKey, n: nat, op: BinaryOp, lhs: ExprKey, rhs: ExprKey,
                               la: seq<TupleAccess>, ra: seq<TupleAccess>)
    requires n <= |la| && n <= |ra|
    ensures forall k :: k in LoweredTupleExprs(base, n, op, lhs, rhs, la, ra) ==> base <= k
  {
    TupleFieldExprsKeys(base, n, op, lhs, rhs, la, ra);
    ChainExprsKeys(base + 3 * n, ChainOp(op), TupleCompareKeys(base, n), n);
  }

  // ---------------------------------------------------------------------
  // Lowering the tuple comparisons

  /**
   * Lowers one collected comparison: both operands must (still) have tuple
   * types; field `i` of the lhs is compared with the rhs field picked by
   * `RhsAccessors`; the chain of field comparisons replaces the comparison
   * everywhere, and the comparison is removed.
   */
  method LowerTupleCompare(ii: Intent, c: TupleCompare) returns (r: Result<()>)
    requires ii.Valid()
    modifies ii`exprs, ii`exprTypes, ii`nextExpr, ii`constraints, ii`directives
    ensures ii.Valid() && ii.nextExpr >= old(ii.nextExpr)
    ensures forall k :: k in ii.exprs && k < old(ii.nextExpr) ==> k in old(ii.exprs)
    ensures c.lhs !in old(ii.exprTypes) ==> r == Err(Panic(MissingTupleTypeMsg))
    ensures c.lhs in old(ii.exprTypes) && !old(ii.exprTypes)[c.lhs].Tuple? ==> r == Err(Panic(LhsFieldsMsg))
    ensures c.lhs in old(ii.exprTypes) && old(ii.exprTypes)[c.lhs].Tuple? ==>
      && (c.rhs !in old(ii.exprTypes) ==> r == Err(Panic(MissingTupleTypeMsg)))
      && (c.rhs in old(ii.exprTypes) && !old(ii.exprTypes)[c.rhs].Tuple? ==> r == Err(Panic(RhsFieldsMsg)))
    ensures c.lhs in old(ii.exprTypes) && old(ii.exprTypes)[c.lhs].Tuple? && c.rhs in old(ii.exprTypes) && old(ii.exprTypes)[c.rhs].Tuple? ==>
      var lf := old(ii.exprTypes)[c.lhs].fields;
      var rf := old(ii.exprTypes)[c.rhs].fields;
      && (!UseNamedAccessors(lf, rf) && |rf| < |lf| ==> r == Err(Panic(FieldIndexMsg)))
      && (UseNamedAccessors(lf, rf) || |lf| <= |rf| ==>
            && (|lf| == 0 ==> r == Err(Panic(NoTupleFieldsMsg)) && unchanged(ii))
            && (|lf| > 0 ==>
                  var base := old(ii.nextExpr);
                  var n := |lf|;
                  var root := TupleChainRoot(base, n);
                  && r == Ok(())
                  && ii.nextExpr == base + 3 * n + n - 1
                  && ii.exprs == ReplaceInExprs(old(ii.exprs) + LoweredTupleExprs(base, n, c.op, c.lhs, c.rhs, LhsAccessors(lf), RhsAccessors(lf, rf)), c.key, root) - {c.key}
                  && ii.exprTypes == LoweredTupleTypes(old(ii.exprTypes), base, n, lf) - {c.key}
                  && ii.constraints == ReplaceKeys(old(ii.constraints), c.key, root)
                  && ii.directives == ReplaceDirectives(old(ii.directives), c.key, root)))
  {
    if c.lhs !in ii.exprTypes {
      return Err(Panic(MissingTupleTypeMsg));
    }
    if !ii.exprTypes[c.lhs].Tuple? {
      return Err(Panic(LhsFieldsMsg));
    }
    if c.rhs !in ii.exprTypes {
      return Err(Panic(MissingTupleTypeMsg));
    }
    if !ii.exprTypes[c.rhs].Tuple? {
      return Err(Panic(RhsFieldsMsg));
    }
    var lf, rf := ii.exprTypes[c.lhs].fields, ii.exprTypes[c.rhs].fields;
    if !UseNamedAccessors(lf, rf) && |rf| < |lf| {
      // Indexing the rhs fields at the first position it lacks.
      return Err(Panic(FieldIndexMsg));
    }
    if |lf| == 0 {
      // No field comparisons: the `reduce` has nothing to join.
      return Err(Panic(NoTupleFieldsMsg));
    }
    ReplaceWithTupleChain(ii, c, lf, rf);
    r := Ok(());
  }

  /** Adds the chain of field comparisons and puts it in place of the comparison, which is removed. */
  method ReplaceWithTupleChain(ii: Intent, c: TupleCompare, lf: seq<TupleField>, rf: seq<TupleField>)
    requires ii.Valid() && |lf| >= 1 && (UseNamedAccessors(lf, rf) || |lf| <= |rf|)
    modifies ii`exprs, ii`exprTypes, ii`nextExpr, ii`constraints, ii`directives
    ensures ii.Valid() && ii.nextExpr >= old(ii.nextExpr)
    ensures forall k :: k in ii.exprs && k < old(ii.nextExpr) ==> k in old(ii.exprs)
    ensures var base := old(ii.nextExpr);
      var n := |lf|;
      var root := TupleChainRoot(base, n);
      && ii.nextExpr == base + 3 * n + n - 1
      && ii.exprs == ReplaceInExprs(old(ii.exprs) + LoweredTupleExprs(base, n, c.op, c.lhs, c.rhs, LhsAccessors(lf), RhsAccessors(lf, rf)), c.key, root) - {c.key}
      && ii.exprTypes == LoweredTupleTypes(old(ii.exprTypes), base, n, lf) - {c.key}
      && ii.constraints == ReplaceKeys(old(ii.constraints), c.key, root)
      && ii.directives == ReplaceDirectives(old(ii.directives), c.key, root)
  {
    var root := BuildTupleChain(ii, c.op, c.lhs, c.rhs, lf, LhsAccessors(lf), RhsAccessors(lf, rf));
    ii.ReplaceAndRemove(c.key, root);
  }

  /** One turn of the lowering loop: what the loop needs of `LowerTupleCompare`. */
  method LowerTupleCompareTurn(ii: Intent, c: TupleCompare) returns (r: Result<()>)
    requires ii.Valid()
    modifies ii`exprs, ii`exprTypes, ii`nextExpr, ii`constraints, ii`directives
    ensures ii.Valid() && ii.nextExpr >= old(ii.nextExpr)
    ensures r.Ok? ==> TupleLowerStep(old(ii.Arena()), c) == Ok(ii.Arena())
    ensures r.Err? ==> TupleLowerStep(old(ii.Arena()), c) == Err(r.error)
  {
    ghost var s := ii.Arena();
    r := LowerTupleCompare(ii, c);
    if r.Ok? {
      assert TupleLowerable(s, c);
      assert ii.Arena() == TupleLowered(s, c);
    }
  }

  /** Both operands of `c` have tuple types, the rhs has the fields the accessors pick, and there is a field to compare. */
  predicate TupleLowerable(s: ExprArena, c: TupleCompare)
  {
    && c.lhs in s.exprTypes && s.exprTypes[c.lhs].Tuple?
    && c.rhs in s.exprTypes && s.exprTypes[c.rhs].Tuple?
    && (UseNamedAccessors(s.exprTypes[c.lhs].fields, s.exprTypes[c.rhs].fields)
        || |s.exprTypes[c.lhs].fields| <= |s.exprTypes[c.rhs].fields|)
    && |s.exprTypes[c.lhs].fields| >= 1
  }

  /** The arena after lowering comparison `c`, or the error that stops the lowering (as `LowerTupleCompare`). */
  function TupleLowerStep(s: ExprArena, c: TupleCompare): Result<ExprArena>
  {
    if c.lhs !in s.exprTypes then Err(Panic(MissingTupleTypeMsg))
    else if !s.exprTypes[c.lhs].Tuple? then Err(Panic(LhsFieldsMsg))
    else if c.rhs !in s.exprTypes then Err(Panic(MissingTupleTypeMsg))
    else if !s.exprTypes[c.rhs].Tuple? then Err(Panic(RhsFieldsMsg))
    else
      var lf, rf := s.exprTypes[c.lhs].fields, s.exprTypes[c.rhs].fields;
      if !UseNamedAccessors(lf, rf) && |rf| < |lf| then Err(Panic(FieldIndexMsg))
      else if |lf| == 0 then Err(Panic(NoTupleFieldsMsg))
      else Ok(TupleLowered(s, c))
  }

  /**
   * The arena once `c` is lowered over its `n >= 1` fields: the field
   * comparisons and their chain come in at the counter, and the chain's root
   * takes the place of the comparison.
   */
  function TupleLowered(s: ExprArena, c: TupleCompare): ExprArena
    requires TupleLowerable(s, c)
  {
    var lf, rf := s.exprTypes[c.lhs].fields, s.exprTypes[c.rhs].fields;
    var base, n := s.nextExpr, |lf|;
    LoweredArena(s, c.key, TupleChainRoot(base, n), LoweredTupleExprs(base, n, c.op, c.lhs, c.rhs, LhsAccessors(lf), RhsAccessors(lf, rf)),
                 TupleFieldTypes(base, n, lf), ChainTypes(base + 3 * n, n - 1), false, base + 3 * n + n - 1)
  }

  /** The key of a collected tuple comparison. */
  function KeyOfTupleCompare(c: TupleCompare): ExprKey
  {
    c.key
  }

  /** A successful lowering step removes the comparison and adds keys only from the counter on. */
  lemma TupleLowerStepRemovesKey(t: ExprArena, c: TupleCompare)
    requires TupleLowerStep(t, c).Ok?
    ensures RemovesKey(t, c.key, TupleLowerStep(t, c).value)
  {
    var lf, rf := t.exprTypes[c.lhs].fields, t.exprTypes[c.rhs].fields;
    LoweredTupleExprsAbove(t.nextExpr, |lf|, c.op, c.lhs, c.rhs, LhsAccessors(lf), RhsAccessors(lf, rf));
  }

  /** Every successful lowering step removes its comparison. */
  lemma TupleLowerStepsRemoveKeys()
    ensures forall t, c :: TupleLowerStep(t, c).Ok? ==> RemovesKey(t, KeyOfTupleCompare(c), TupleLowerStep(t, c).value)
  {
    forall t, c | TupleLowerStep(t, c).Ok?
      ensures RemovesKey(t, KeyOfTupleCompare(c), TupleLowerStep(t, c).value)
    {
      TupleLowerStepRemovesKey(t, c);
    }
  }

  /** The lowering loop of `lower_tuple_compares`: lowers `cs` in order, stopping at the first failure. */
  method LowerTupleCompareList(ii: Intent, cs: seq<TupleCompare>) returns (r: Result<bool>)
    requires ii.Valid()
    requires forall j :: 0 <= j < |cs| ==> cs[j].key < ii.nextExpr
    modifies ii`exprs, ii`exprTypes, ii`nextExpr, ii`constraints, ii`directives
    ensures ii.Valid()
    ensures r.Ok? ==> r == Ok(true) && forall i :: 0 <= i < |cs| ==> cs[i].key !in ii.exprs
    ensures var f := FoldSteps(old(ii.Arena()), TupleLowerStep, cs, |cs|);
      && (f.Ok? ==> r == Ok(true) && ii.Arena() == f.value)
      && (f.Err? ==> r == Err(f.error))
  {
    ghost var s0 := ii.Arena();
    var i := 0;
    while i < |cs|
      invariant 0 <= i <= |cs|
      invariant ii.Valid()
      invariant FoldSteps(s0, TupleLowerStep, cs, i) == Ok(ii.Arena())
    {
      ghost var prev := ii.Arena();
      var step := LowerTupleCompareTurn(ii, cs[i]);
      if step.Err? {
        FoldStepsFails(s0, TupleLowerStep, cs, i, prev, step.error);
        return Err(step.error);
      }
      FoldStepsExtends(s0, TupleLowerStep, cs, i, prev, ii.Arena());
      i := i + 1;
    }
    TupleLowerStepsRemoveKeys();
    FoldStepsKeysGone(s0, TupleLowerStep, KeyOfTupleCompare, cs, ii.Arena());
    assert ii.Arena().exprs == ii.exprs;
    r := Ok(true);
  }

  /**
   * `lower_tuple_compares`: collects every tuple comparison (panicking on an
   * ill-typed rhs), then lowers them one by one, stopping at the first
   * failure. Reports whether there was any.
   */
  method LowerTupleCompares(ii: Intent) returns (r: Result<bool>)
    requires ii.Valid()
    modifies ii`exprs, ii`exprTypes, ii`nextExpr, ii`constraints, ii`directives
    ensures ii.Valid()
    ensures var cs := TupleComparesBelow(old(ii.exprs), old(ii.exprTypes), old(ii.nextExpr));
      && (cs.Err? ==> r == Err(cs.error) && unchanged(ii))
      && (cs == Ok([]) <==> r == Ok(false))
      && (cs == Ok([]) ==> unchanged(ii))
      && (r.Ok? ==> cs.Ok? && forall i :: 0 <= i < |cs.value| ==> cs.value[i].key !in ii.exprs)
      && (cs.Ok? && cs.value != [] ==>
            var f := FoldSteps(old(ii.Arena()), TupleLowerStep, cs.value, |cs.value|);
            && (f.Ok? ==> r == Ok(true) && ii.Arena() == f.value)
            && (f.Err? ==> r == Err(f.error)))
  {
    var collected := CollectTupleCompares(ii);
    if collected.Err? {
      return Err(collected.error);
    }
    var cs := collected.value;
    if cs == [] {
      return Ok(false);
    }
    TupleComparesBelowSpec(ii.exprs, ii.exprTypes, ii.nextExpr);
    r := LowerTupleCompareList(ii, cs);
  }
}
