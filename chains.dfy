/**
 * Comparison chains, shared by the lowering of whole-array and whole-tuple
 * `==`/`!=`: the element comparisons are joined, left to right, into one
 * left-nested boolean chain `((c0 conn c1) conn c2) ...`.
 *
 * The source joins them with `&&` for both `==` and `!=`; for `!=` that
 * asks every element to differ. `AsWrittenNotEqualChainWrong` exhibits the
 * discrepancy and `ChainOp` is the corrected connective (`||` for `!=`),
 * proved right by `ChainOpMeaning`.
 */
module Chains {
  import opened Util
  import opened Intermediate

  /** The operators a whole-aggregate comparison can use. */
  predicate IsEquality(op: BinaryOp)
  {
    op == Equal || op == NotEqual
  }

  /** The connective the source uses to join the element comparisons of `op`: always `&&`. */
  function AsWrittenChainOp(op: BinaryOp): BinaryOp
  {
    LogicalAnd
  }

  /** The connective that makes the chain mean the whole comparison: `&&` for `==`, `||` for `!=`. */
  function ChainOp(op: BinaryOp): (conn: BinaryOp)
    ensures conn == LogicalAnd || conn == LogicalOr
    ensures IsEquality(op) ==> conn != op
  {
    if op == NotEqual then LogicalOr else LogicalAnd
  }

  // ---------------------------------------------------------------------
  // What a chain means

  function Connect(conn: BinaryOp, x: bool, y: bool): bool
  {
    if conn == LogicalOr then x || y else x && y
  }

  /** The value of the left-nested chain `((bs[0] conn bs[1]) conn bs[2]) ...`. */
  function ChainValue(conn: BinaryOp, bs: seq<bool>): bool
    requires bs != []
  {
    if |bs| == 1 then bs[0] else Connect(conn, ChainValue(conn, bs[..|bs| - 1]), bs[|bs| - 1])
  }

  lemma {:induction false} ChainValueAnd(bs: seq<bool>)
    requires bs != []
    ensures ChainValue(LogicalAnd, bs) <==> forall i :: 0 <= i < |bs| ==> bs[i]
  {
    if |bs| > 1 {
      var front := bs[..|bs| - 1];
      ChainValueAnd(front);
      assert forall i :: 0 <= i < |front| ==> front[i] == bs[i];
    }
  }

  lemma {:induction false} ChainValueOr(bs: seq<bool>)
    requires bs != []
    ensures ChainValue(LogicalOr, bs) <==> exists i :: 0 <= i < |bs| && bs[i]
  {
    if |bs| > 1 {
      var front := bs[..|bs| - 1];
      ChainValueOr(front);
      assert forall i :: 0 <= i < |front| ==> front[i] == bs[i];
    }
  }

  /** The element-by-element results of comparing `a` and `b` with `op`. */
  function ElementResults<T(==)>(op: BinaryOp, a: seq<T>, b: seq<T>): seq<bool>
    requires |a| == |b|
  {
    seq(|a|, i requires 0 <= i < |a| => if op == Equal then a[i] == b[i] else a[i] != b[i])
  }

  /** The comparison of two whole aggregates. */
  function WholeCompare<T(==)>(op: BinaryOp, a: seq<T>, b: seq<T>): bool
  {
    if op == Equal then a == b else a != b
  }

  /** Joined by `ChainOp(op)`, the element comparisons mean the whole comparison. */
  lemma ChainOpMeaning<T>(op: BinaryOp, a: seq<T>, b: seq<T>)
    requires IsEquality(op) && |a| == |b| && a != []
    ensures ChainValue(ChainOp(op), ElementResults(op, a, b)) == WholeCompare(op, a, b)
  {
    var bs := ElementResults(op, a, b);
    if op == Equal {
      ChainValueAnd(bs);
      if forall i :: 0 <= i < |bs| ==> bs[i] {
        assert forall i :: 0 <= i < |a| ==> a[i] == b[i] by {
          forall i | 0 <= i < |a| ensures a[i] == b[i] {
            assert bs[i];
          }
        }
      }
    } else {
      ChainValueOr(bs);
      if a != b {
        var i :| 0 <= i < |a| && a[i] != b[i];
        assert bs[i];
      }
    }
  }

  /** As written, the `!=` chain is false as soon as one pair of elements is equal, whatever the others. */
  lemma AsWrittenNotEqualChainWrong<T>(a: seq<T>, b: seq<T>, i: nat)
    requires |a| == |b| && i < |a| && a[i] == b[i]
    ensures !ChainValue(AsWrittenChainOp(NotEqual), ElementResults(NotEqual, a, b))
  {
    var bs := ElementResults(NotEqual, a, b);
    ChainValueAnd(bs);
    assert !bs[i];
  }

  /** `[1, 2] != [1, 3]` holds, yet the as-written chain `(1 != 1) && (2 != 3)` is false. */
  lemma AsWrittenNotEqualCounterexample()
    ensures WholeCompare(NotEqual, [1, 2], [1, 3])
    ensures !ChainValue(AsWrittenChainOp(NotEqual), ElementResults(NotEqual, [1, 2], [1, 3]))
  {
    AsWrittenNotEqualChainWrong([1, 2], [1, 3], 0);
  }

  // ---------------------------------------------------------------------
  // The chain in the expression arena

  /** The key holding the chain over the first `j + 1` comparisons. */
  function ChainAcc(chainBase: ExprKey, first: ExprKey, j: nat): ExprKey
  {
    if j == 0 then first else chainBase + j - 1
  }

  /**
   * The connective nodes of the chain over the first `j` comparisons: node
   * `chainBase + i - 1` joins the chain so far with `cmps[i]`.
   */
  function ChainExprs(chainBase: ExprKey, conn: BinaryOp, cmps: seq<ExprKey>, j: nat): map<ExprKey, Expr>
    requires j <= |cmps|
  {
    if j <= 1 then map[]
    else ChainExprs(chainBase, conn, cmps, j - 1)[chainBase + j - 2 := BinaryOpExpr(conn, ChainAcc(chainBase, cmps[0], j - 2), cmps[j - 1])]
  }

  /** Every connective node is typed `bool`. */
  function ChainTypes(chainBase: ExprKey, m: nat): map<ExprKey, Type>
  {
    if m == 0 then map[] else ChainTypes(chainBase, m - 1)[chainBase + m - 1 := Primitive(Bool)]
  }

  lemma {:induction false} ChainTypesKeys(chainBase: ExprKey, m: nat)
    ensures forall k :: k in ChainTypes(chainBase, m) <==> chainBase <= k < chainBase + m
  {
    if m > 0 {
      ChainTypesKeys(chainBase, m - 1);
    }
  }

  lemma {:induction false} ChainExprsKeys(chainBase: ExprKey, conn: BinaryOp, cmps: seq<ExprKey>, j: nat)
    requires j <= |cmps|
    ensures forall k :: k in ChainExprs(chainBase, conn, cmps, j) <==> chainBase <= k < chainBase + j - 1
  {
    if j > 1 {
      ChainExprsKeys(chainBase, conn, cmps, j - 1);
    }
  }

  /** Node `i` of the chain joins the chain over the first `i` comparisons with comparison `i`. */
  lemma {:induction false} ChainExprsAt(chainBase: ExprKey, conn: BinaryOp, cmps: seq<ExprKey>, j: nat, i: nat)
    requires j <= |cmps| && 1 <= i < j
    ensures ChainAcc(chainBase, cmps[0], i) in ChainExprs(chainBase, conn, cmps, j)
    ensures ChainExprs(chainBase, conn, cmps, j)[ChainAcc(chainBase, cmps[0], i)] == BinaryOpExpr(conn, ChainAcc(chainBase, cmps[0], i - 1), cmps[i])
  {
    if i < j - 1 {
      ChainExprsAt(chainBase, conn, cmps, j - 1, i);
    }
  }

  lemma {:induction false} ChainTypesSpec(chainBase: ExprKey, m: nat)
    ensures forall k :: k in ChainTypes(chainBase, m) <==> chainBase <= k < chainBase + m
    ensures forall k :: k in ChainTypes(chainBase, m) ==> ChainTypes(chainBase, m)[k] == Primitive(Bool)
  {
    if m > 0 {
      ChainTypesSpec(chainBase, m - 1);
    }
  }

  /**
   * The leaves of the `conn`-chain rooted at `k`: a `conn` node over two
   * earlier keys is flattened, anything else is a leaf.
   */
  function ChainLeaves(exprs: map<ExprKey, Expr>, conn: BinaryOp, k: ExprKey): seq<ExprKey>
    decreases k
  {
    if k in exprs && exprs[k].BinaryOpExpr? && exprs[k].op == conn && exprs[k].lhs < k && exprs[k].rhs < k
    then ChainLeaves(exprs, conn, exprs[k].lhs) + ChainLeaves(exprs, conn, exprs[k].rhs)
    else [k]
  }

  /**
   * In an arena holding the chain, the leaves under the chain over the first
   * `j` comparisons are exactly those comparisons, in order.
   */
  lemma {:induction false} ChainLeavesAreCompares(exprs: map<ExprKey, Expr>, chainBase: ExprKey, conn: BinaryOp, cmps: seq<ExprKey>, j: nat)
    requires 1 <= j <= |cmps|
    requires forall i :: 0 <= i < |cmps| ==> cmps[i] < chainBase
    requires forall i :: 0 <= i < |cmps| ==> cmps[i] in exprs && exprs[cmps[i]].BinaryOpExpr? && exprs[cmps[i]].op != conn
    requires forall k :: k in ChainExprs(chainBase, conn, cmps, |cmps|) ==> k in exprs && exprs[k] == ChainExprs(chainBase, conn, cmps, |cmps|)[k]
    ensures ChainLeaves(exprs, conn, ChainAcc(chainBase, cmps[0], j - 1)) == cmps[..j]
  {
    if j == 1 {
    } else {
      ChainExprsAt(chainBase, conn, cmps, |cmps|, j - 1);
      var k := ChainAcc(chainBase, cmps[0], j - 1);
      assert k == chainBase + j - 2;
      assert exprs[k] == BinaryOpExpr(conn, ChainAcc(chainBase, cmps[0], j - 2), cmps[j - 1]);
      ChainLeavesAreCompares(exprs, chainBase, conn, cmps, j - 1);
      assert ChainLeaves(exprs, conn, cmps[j - 1]) == [cmps[j - 1]];
      assert cmps[..j] == cmps[..j - 1] + [cmps[j - 1]];
    }
  }

  /**
   * The `reduce` over the comparison keys: joins them left to right with
   * `conn`, typing every new node `bool`. `None` when there is nothing to join.
   */
  method ReduceChain(ii: Intent, conn: BinaryOp, cmps: seq<ExprKey>) returns (root: Option<ExprKey>)
    requires ii.Valid()
    modifies ii`exprs, ii`exprTypes, ii`nextExpr
    ensures ii.Valid()
    ensures cmps == [] ==> root == None && unchanged(ii)
    ensures cmps != [] ==>
      && root == Some(ChainAcc(old(ii.nextExpr), cmps[0], |cmps| - 1))
      && ii.nextExpr == old(ii.nextExpr) + |cmps| - 1
      && ii.exprs == old(ii.exprs) + ChainExprs(old(ii.nextExpr), conn, cmps, |cmps|)
      && ii.exprTypes == old(ii.exprTypes) + ChainTypes(old(ii.nextExpr), |cmps| - 1)
  {
    if cmps == [] {
      return None;
    }
    var acc := cmps[0];
    var j := 1;
    while j < |cmps|
      invariant 1 <= j <= |cmps|
      invariant ii.Valid() && ii.nextExpr == old(ii.nextExpr) + j - 1
      invariant acc == ChainAcc(old(ii.nextExpr), cmps[0], j - 1)
      invariant ii.exprs == old(ii.exprs) + ChainExprs(old(ii.nextExpr), conn, cmps, j)
      invariant ii.exprTypes == old(ii.exprTypes) + ChainTypes(old(ii.nextExpr), j - 1)
    {
      var node := BinaryOpExpr(conn, acc, cmps[j]);
      var k := ii.InsertTypedExpr(node, Primitive(Bool));
      UnionUpdate(old(ii.exprs), ChainExprs(old(ii.nextExpr), conn, cmps, j), k, node);
      UnionUpdate(old(ii.exprTypes), ChainTypes(old(ii.nextExpr), j - 1), k, Primitive(Bool));
      acc := k;
      j := j + 1;
    }
    root := Some(acc);
  }
}
