/**
 * Predicate bookkeeping of the `pintc` compiler: the statement trees of a
 * predicate (constraints nested in `if` and `match` blocks), replacing one
 * expression key by another across a predicate, collecting constraints,
 * the root set of a predicate's expressions and the depth-first visitor over
 * the contract's expression arena.
 */
module Predicates {
  import opened Util
  import opened SymbolTables

  /** Keys into the contract's expression arena. */
  type ExprKey = nat
  type VarKey = nat

  /** `key` with `from` replaced by `to`: the per-key step of every `replace_exprs`. */
  function Sub(key: ExprKey, from: ExprKey, to: ExprKey): ExprKey
  {
    if key == from then to else key
  }

  // ---------------------------------------------------------------------
  // Statement trees

  datatype ConstraintDecl = ConstraintDecl(expr: ExprKey, span: Span)

  datatype BlockStatement =
    | ConstraintStmt(constraint: ConstraintDecl)
    | IfStmt(ifDecl: IfDecl)
    | MatchStmt(matchDecl: MatchDecl)

  /** An optional block (`Option<Vec<BlockStatement>>`). */
  datatype OptionalBlock = NoBlock | SomeBlock(stmts: seq<BlockStatement>)

  datatype IfDecl = IfDecl(
    condition: ExprKey,
    thenBlock: seq<BlockStatement>,
    elseBlock: OptionalBlock,
    span: Span)

  datatype MatchDecl = MatchDecl(
    matchExpr: ExprKey,
    branches: seq<MatchDeclBranch>,
    elseBranch: OptionalBlock,
    span: Span)

  datatype MatchDeclBranch = MatchDeclBranch(
    name: string,
    nameSpan: Span,
    binding: Option<Ident>,
    block: seq<BlockStatement>)

  // Replacing a key inside a statement tree.

  function StmtReplace(s: BlockStatement, from: ExprKey, to: ExprKey): BlockStatement
    decreases s, 0
  {
    match s
    case ConstraintStmt(c) => ConstraintStmt(c.(expr := Sub(c.expr, from, to)))
    case IfStmt(d) => IfStmt(IfReplace(d, from, to))
    case MatchStmt(m) => MatchStmt(MatchReplace(m, from, to))
  }

  function BlockReplace(b: seq<BlockStatement>, from: ExprKey, to: ExprKey): (r: seq<BlockStatement>)
    ensures |r| == |b|
    decreases b
  {
    if b == [] then [] else [StmtReplace(b[0], from, to)] + BlockReplace(b[1..], from, to)
  }

  function IfReplace(d: IfDecl, from: ExprKey, to: ExprKey): IfDecl
    decreases d, 1
  {
    IfDecl(
      Sub(d.condition, from, to),
      BlockReplace(d.thenBlock, from, to),
      if d.elseBlock.SomeBlock? then SomeBlock(BlockReplace(d.elseBlock.stmts, from, to)) else NoBlock,
      d.span)
  }

  function BranchesReplace(bs: seq<MatchDeclBranch>, from: ExprKey, to: ExprKey): (r: seq<MatchDeclBranch>)
    ensures |r| == |bs|
    decreases bs
  {
    if bs == [] then []
    else [bs[0].(block := BlockReplace(bs[0].block, from, to))] + BranchesReplace(bs[1..], from, to)
  }

  function MatchReplace(m: MatchDecl, from: ExprKey, to: ExprKey): MatchDecl
    decreases m, 1
  {
    MatchDecl(
      Sub(m.matchExpr, from, to),
      BranchesReplace(m.branches, from, to),
      if m.elseBranch.SomeBlock? then SomeBlock(BlockReplace(m.elseBranch.stmts, from, to)) else NoBlock,
      m.span)
  }

  // Collecting the constraints of a statement tree.

  function StmtConstraints(s: BlockStatement): seq<ConstraintDecl>
    decreases s, 0
  {
    match s
    case ConstraintStmt(c) => [c]
    case IfStmt(d) => IfConstraints(d)
    case MatchStmt(m) => MatchConstraints(m)
  }

  function BlockConstraints(b: seq<BlockStatement>): seq<ConstraintDecl>
    decreases b
  {
    if b == [] then [] else StmtConstraints(b[0]) + BlockConstraints(b[1..])
  }

  /** The then-block's constraints, then the else-block's. */
  function IfConstraints(d: IfDecl): seq<ConstraintDecl>
    decreases d, 1
  {
    BlockConstraints(d.thenBlock) + (if d.elseBlock.SomeBlock? then BlockConstraints(d.elseBlock.stmts) else [])
  }

  function BranchesConstraints(bs: seq<MatchDeclBranch>): seq<ConstraintDecl>
    decreases bs
  {
    if bs == [] then [] else BlockConstraints(bs[0].block) + BranchesConstraints(bs[1..])
  }

  /** The named branches' constraints in branch order; the `else` branch is not consulted. */
  function MatchConstraints(m: MatchDecl): seq<ConstraintDecl>
    decreases m, 1
  {
    BranchesConstraints(m.branches)
  }

  /** Every constraint with its key replaced. */
  function SubConstraints(cs: seq<ConstraintDecl>, from: ExprKey, to: ExprKey): (r: seq<ConstraintDecl>)
    ensures |r| == |cs|
    ensures forall i :: 0 <= i < |cs| ==> r[i] == cs[i].(expr := Sub(cs[i].expr, from, to))
  {
    if cs == [] then [] else [cs[0].(expr := Sub(cs[0].expr, from, to))] + SubConstraints(cs[1..], from, to)
  }

  lemma SubConstraintsAppend(a: seq<ConstraintDecl>, b: seq<ConstraintDecl>, from: ExprKey, to: ExprKey)
    ensures SubConstraints(a + b, from, to) == SubConstraints(a, from, to) + SubConstraints(b, from, to)
  {
  }

  /**
   * Collecting the constraints after a replacement gives the constraints
   * collected before, each with its key replaced: replacement reaches every
   * constraint that collection reports, and changes nothing else about them.
   */
  lemma {:induction false} StmtReplaceConstraints(s: BlockStatement, from: ExprKey, to: ExprKey)
    ensures StmtConstraints(StmtReplace(s, from, to)) == SubConstraints(StmtConstraints(s), from, to)
    decreases s, 0
  {
    match s
    case ConstraintStmt(c) =>
    case IfStmt(d) => IfReplaceConstraints(d, from, to);
    case MatchStmt(m) => MatchReplaceConstraints(m, from, to);
  }

  lemma {:induction false} BlockReplaceConstraints(b: seq<BlockStatement>, from: ExprKey, to: ExprKey)
    ensures BlockConstraints(BlockReplace(b, from, to)) == SubConstraints(BlockConstraints(b), from, to)
    decreases b
  {
    if b != [] {
      StmtReplaceConstraints(b[0], from, to);
      BlockReplaceConstraints(b[1..], from, to);
      SubConstraintsAppend(StmtConstraints(b[0]), BlockConstraints(b[1..]), from, to);
    }
  }

  lemma {:induction false} IfReplaceConstraints(d: IfDecl, from: ExprKey, to: ExprKey)
    ensures IfConstraints(IfReplace(d, from, to)) == SubConstraints(IfConstraints(d), from, to)
    decreases d, 1
  {
    BlockReplaceConstraints(d.thenBlock, from, to);
    if d.elseBlock.SomeBlock? {
      BlockReplaceConstraints(d.elseBlock.stmts, from, to);
    }
    SubConstraintsAppend(BlockConstraints(d.thenBlock),
      if d.elseBlock.SomeBlock? then BlockConstraints(d.elseBlock.stmts) else [], from, to);
  }

  lemma {:induction false} BranchesReplaceConstraints(bs: seq<MatchDeclBranch>, from: ExprKey, to: ExprKey)
    ensures BranchesConstraints(BranchesReplace(bs, from, to)) == SubConstraints(BranchesConstraints(bs), from, to)
    decreases bs
  {
    if bs != [] {
      BlockReplaceConstraints(bs[0].block, from, to);
      BranchesReplaceConstraints(bs[1..], from, to);
      SubConstraintsAppend(BlockConstraints(bs[0].block), BranchesConstraints(bs[1..]), from, to);
    }
  }

  lemma {:induction false} MatchReplaceConstraints(m: MatchDecl, from: ExprKey, to: ExprKey)
    ensures MatchConstraints(MatchReplace(m, from, to)) == SubConstraints(MatchConstraints(m), from, to)
    decreases m, 1
  {
    BranchesReplaceConstraints(m.branches, from, to);
  }

  /** The constraints of a `match` do not depend on its `else` branch. */
  lemma MatchConstraintsIgnoreElse(m: MatchDecl, elseBranch: OptionalBlock)
    ensures MatchConstraints(m.(elseBranch := elseBranch)) == MatchConstraints(m)
  {
  }

  /** Then-block constraints come first, and a missing else-block adds none. */
  lemma IfConstraintsOrder(d: IfDecl)
    ensures BlockConstraints(d.thenBlock) <= IfConstraints(d)
    ensures d.elseBlock.NoBlock? ==> IfConstraints(d) == BlockConstraints(d.thenBlock)
  {
  }

  // Every key a statement tree mentions (conditions, match scrutinees, constraints).

  function StmtKeys(s: BlockStatement): set<ExprKey>
    decreases s, 0
  {
    match s
    case ConstraintStmt(c) => {c.expr}
    case IfStmt(d) => IfKeys(d)
    case MatchStmt(m) => MatchKeys(m)
  }

  function BlockKeys(b: seq<BlockStatement>): set<ExprKey>
    decreases b
  {
    if b == [] then {} else StmtKeys(b[0]) + BlockKeys(b[1..])
  }

  function IfKeys(d: IfDecl): set<ExprKey>
    decreases d, 1
  {
    {d.condition} + BlockKeys(d.thenBlock) + (if d.elseBlock.SomeBlock? then BlockKeys(d.elseBlock.stmts) else {})
  }

  function BranchesKeys(bs: seq<MatchDeclBranch>): set<ExprKey>
    decreases bs
  {
    if bs == [] then {} else BlockKeys(bs[0].block) + BranchesKeys(bs[1..])
  }

  function MatchKeys(m: MatchDecl): set<ExprKey>
    decreases m, 1
  {
    {m.matchExpr} + BranchesKeys(m.branches) + (if m.elseBranch.SomeBlock? then BlockKeys(m.elseBranch.stmts) else {})
  }

  function SubKeys(ks: set<ExprKey>, from: ExprKey, to: ExprKey): set<ExprKey>
  {
    set k | k in ks :: Sub(k, from, to)
  }

  /**
   * After replacing `from` by `to` in a nested `if` (including its nested
   * `match` statements and their `else` branches) the keys it mentions are
   * exactly the old keys with `from` mapped to `to`; in particular no
   * reference to `from` survives when `from != to`.
   */
  lemma {:induction false} StmtReplaceKeys(s: BlockStatement, from: ExprKey, to: ExprKey)
    ensures StmtKeys(StmtReplace(s, from, to)) == SubKeys(StmtKeys(s), from, to)
    decreases s, 0
  {
    match s
    case ConstraintStmt(c) =>
    case IfStmt(d) => IfReplaceKeys(d, from, to);
    case MatchStmt(m) => MatchReplaceKeys(m, from, to);
  }

  lemma {:induction false} BlockReplaceKeys(b: seq<BlockStatement>, from: ExprKey, to: ExprKey)
    ensures BlockKeys(BlockReplace(b, from, to)) == SubKeys(BlockKeys(b), from, to)
    decreases b
  {
    if b != [] {
      StmtReplaceKeys(b[0], from, to);
      BlockReplaceKeys(b[1..], from, to);
    }
  }

  lemma {:induction false} IfReplaceKeys(d: IfDecl, from: ExprKey, to: ExprKey)
    ensures IfKeys(IfReplace(d, from, to)) == SubKeys(IfKeys(d), from, to)
    decreases d, 1
  {
    BlockReplaceKeys(d.thenBlock, from, to);
    if d.elseBlock.SomeBlock? {
      BlockReplaceKeys(d.elseBlock.stmts, from, to);
    }
  }

  lemma {:induction false} BranchesReplaceKeys(bs: seq<MatchDeclBranch>, from: ExprKey, to: ExprKey)
    ensures BranchesKeys(BranchesReplace(bs, from, to)) == SubKeys(BranchesKeys(bs), from, to)
    decreases bs
  {
    if bs != [] {
      BlockReplaceKeys(bs[0].block, from, to);
      BranchesReplaceKeys(bs[1..], from, to);
    }
  }

  lemma {:induction false} MatchReplaceKeys(m: MatchDecl, from: ExprKey, to: ExprKey)
    ensures MatchKeys(MatchReplace(m, from, to)) == SubKeys(MatchKeys(m), from, to)
    decreases m, 1
  {
    BranchesReplaceKeys(m.branches, from, to);
    if m.elseBranch.SomeBlock? {
      BlockReplaceKeys(m.elseBranch.stmts, from, to);
    }
  }

  lemma IfReplaceRemovesKey(d: IfDecl, from: ExprKey, to: ExprKey)
    requires from != to
    ensures from !in IfKeys(IfReplace(d, from, to))
  {
    IfReplaceKeys(d, from, to);
  }

  // ---------------------------------------------------------------------
  // The predicate

  /** Types are carried through these operations unchanged; they are represented by their printed form. */
  type TypeText = string

  datatype State = State(name: string, expr: ExprKey, span: Span)

  datatype EphemeralDecl = EphemeralDecl(name: string, ty: TypeText, span: Span)

  datatype InterfaceInstance = InterfaceInstance(name: Ident, iface: string, address: ExprKey, span: Span)

  datatype PredicateInstance = PredicateInstance(
    name: Ident,
    interfaceInstance: Option<string>,
    pred: Ident,
    address: Option<ExprKey>,
    span: Span)

  predicate DistinctEphemeralNames(eph: seq<EphemeralDecl>)
  {
    forall i, j :: 0 <= i < j < |eph| ==> eph[i].name != eph[j].name
  }

  /**
   * The ephemerals after declaring `decl`: unchanged if one of that name
   * already exists, otherwise `decl` appended.
   */
  function WithEphemeral(eph: seq<EphemeralDecl>, decl: EphemeralDecl): seq<EphemeralDecl>
  {
    if exists i :: 0 <= i < |eph| && eph[i].name == decl.name then eph else eph + [decl]
  }

  /** Declaring an ephemeral adds at most one entry and never duplicates a name. */
  lemma WithEphemeralKeepsNamesDistinct(eph: seq<EphemeralDecl>, decl: EphemeralDecl)
    requires DistinctEphemeralNames(eph)
    ensures DistinctEphemeralNames(WithEphemeral(eph, decl))
    ensures |eph| <= |WithEphemeral(eph, decl)| <= |eph| + 1
    ensures exists i :: 0 <= i < |WithEphemeral(eph, decl)| && WithEphemeral(eph, decl)[i].name == decl.name
  {
    if !exists i :: 0 <= i < |eph| && eph[i].name == decl.name {
      assert WithEphemeral(eph, decl)[|eph|] == decl;
    }
  }

  function SubStates(ss: seq<State>, from: ExprKey, to: ExprKey): (r: seq<State>)
    ensures |r| == |ss|
    ensures forall i :: 0 <= i < |ss| ==> r[i] == ss[i].(expr := Sub(ss[i].expr, from, to))
  {
    if ss == [] then [] else [ss[0].(expr := Sub(ss[0].expr, from, to))] + SubStates(ss[1..], from, to)
  }

  function SubInterfaceInstances(iis: seq<InterfaceInstance>, from: ExprKey, to: ExprKey): (r: seq<InterfaceInstance>)
    ensures |r| == |iis|
    ensures forall i :: 0 <= i < |iis| ==> r[i] == iis[i].(address := Sub(iis[i].address, from, to))
  {
    if iis == [] then []
    else [iis[0].(address := Sub(iis[0].address, from, to))] + SubInterfaceInstances(iis[1..], from, to)
  }

  function SubPredicateInstance(pi: PredicateInstance, from: ExprKey, to: ExprKey): PredicateInstance
  {
    if pi.address.Some? then pi.(address := Some(Sub(pi.address.value, from, to))) else pi
  }

  function SubPredicateInstances(pis: seq<PredicateInstance>, from: ExprKey, to: ExprKey): (r: seq<PredicateInstance>)
    ensures |r| == |pis|
    ensures forall i :: 0 <= i < |pis| ==> r[i] == SubPredicateInstance(pis[i], from, to)
  {
    if pis == [] then [] else [SubPredicateInstance(pis[0], from, to)] + SubPredicateInstances(pis[1..], from, to)
  }

  function ConstraintExprs(cs: seq<ConstraintDecl>): seq<ExprKey>
  {
    if cs == [] then [] else [cs[0].expr] + ConstraintExprs(cs[1..])
  }

  function StateExprs(ss: seq<State>): seq<ExprKey>
  {
    if ss == [] then [] else [ss[0].expr] + StateExprs(ss[1..])
  }

  function Addresses(iis: seq<InterfaceInstance>): seq<ExprKey>
  {
    if iis == [] then [] else [iis[0].address] + Addresses(iis[1..])
  }

  function SomeAddresses(pis: seq<PredicateInstance>): seq<ExprKey>
  {
    if pis == [] then []
    else (if pis[0].address.Some? then [pis[0].address.value] else []) + SomeAddresses(pis[1..])
  }

  /**
   * The root set of a predicate: constraint expressions, then state
   * expressions, then interface-instance addresses, then the addresses of
   * the predicate instances that have one.
   */
  function RootSetOf(cs: seq<ConstraintDecl>, ss: seq<State>, iis: seq<InterfaceInstance>, pis: seq<PredicateInstance>)
    : seq<ExprKey>
  {
    ConstraintExprs(cs) + StateExprs(ss) + Addresses(iis) + SomeAddresses(pis)
  }

  function SubAll(ks: seq<ExprKey>, from: ExprKey, to: ExprKey): (r: seq<ExprKey>)
    ensures |r| == |ks|
    ensures forall i :: 0 <= i < |ks| ==> r[i] == Sub(ks[i], from, to)
  {
    if ks == [] then [] else [Sub(ks[0], from, to)] + SubAll(ks[1..], from, to)
  }

  lemma SubAllAppend(a: seq<ExprKey>, b: seq<ExprKey>, from: ExprKey, to: ExprKey)
    ensures SubAll(a + b, from, to) == SubAll(a, from, to) + SubAll(b, from, to)
  {
  }

  lemma {:induction false} ConstraintExprsSub(cs: seq<ConstraintDecl>, from: ExprKey, to: ExprKey)
    ensures ConstraintExprs(SubConstraints(cs, from, to)) == SubAll(ConstraintExprs(cs), from, to)
  {
    if cs != [] {
      ConstraintExprsSub(cs[1..], from, to);
      assert SubConstraints(cs, from, to)[1..] == SubConstraints(cs[1..], from, to);
    }
  }

  lemma {:induction false} StateExprsSub(ss: seq<State>, from: ExprKey, to: ExprKey)
    ensures StateExprs(SubStates(ss, from, to)) == SubAll(StateExprs(ss), from, to)
  {
    if ss != [] {
      StateExprsSub(ss[1..], from, to);
      assert SubStates(ss, from, to)[1..] == SubStates(ss[1..], from, to);
    }
  }

  lemma {:induction false} AddressesSub(iis: seq<InterfaceInstance>, from: ExprKey, to: ExprKey)
    ensures Addresses(SubInterfaceInstances(iis, from, to)) == SubAll(Addresses(iis), from, to)
  {
    if iis != [] {
      AddressesSub(iis[1..], from, to);
      assert SubInterfaceInstances(iis, from, to)[1..] == SubInterfaceInstances(iis[1..], from, to);
    }
  }

  lemma {:induction false} SomeAddressesSub(pis: seq<PredicateInstance>, from: ExprKey, to: ExprKey)
    ensures SomeAddresses(SubPredicateInstances(pis, from, to)) == SubAll(SomeAddresses(pis), from, to)
  {
    if pis != [] {
      SomeAddressesSub(pis[1..], from, to);
      assert SubPredicateInstances(pis, from, to)[1..] == SubPredicateInstances(pis[1..], from, to);
      var head := if pis[0].address.Some? then [pis[0].address.value] else [];
      SubAllAppend(head, SomeAddresses(pis[1..]), from, to);
    }
  }

  /**
   * Replacing a key across the predicate's roots replaces it in the root set,
   * position by position: the root set keeps its length and order and every
   * other root is unchanged.
   */
  lemma RootSetSub(cs: seq<ConstraintDecl>, ss: seq<State>, iis: seq<InterfaceInstance>, pis: seq<PredicateInstance>,
                   from: ExprKey, to: ExprKey)
    ensures RootSetOf(SubConstraints(cs, from, to), SubStates(ss, from, to),
                      SubInterfaceInstances(iis, from, to), SubPredicateInstances(pis, from, to))
         == SubAll(RootSetOf(cs, ss, iis, pis), from, to)
  {
    ConstraintExprsSub(cs, from, to);
    StateExprsSub(ss, from, to);
    AddressesSub(iis, from, to);
    SomeAddressesSub(pis, from, to);
    var a, b, c, d := ConstraintExprs(cs), StateExprs(ss), Addresses(iis), SomeAddresses(pis);
    SubAllAppend(a, b, from, to);
    SubAllAppend(a + b, c, from, to);
    SubAllAppend(a + b + c, d, from, to);
  }

  class Predicate {
    const name: string
    var states: seq<State>
    var constraints: seq<ConstraintDecl>
    var ifDecls: seq<IfDecl>
    var matchDecls: seq<MatchDecl>
    var ephemerals: seq<EphemeralDecl>
    /** Each initialised variable's initialiser. */
    var varInits: map<VarKey, ExprKey>
    var interfaceInstances: seq<InterfaceInstance>
    var predicateInstances: seq<PredicateInstance>
    const symbols: SymbolTable

    constructor (name: string)
      ensures this.name == name
      ensures states == [] && constraints == [] && ifDecls == [] && matchDecls == []
      ensures ephemerals == [] && varInits == map[]
      ensures interfaceInstances == [] && predicateInstances == []
      ensures fresh(symbols) && symbols.symbols == map[]
    {
      this.name := name;
      states, constraints, ifDecls, matchDecls := [], [], [], [];
      ephemerals, varInits := [], map[];
      interfaceInstances, predicateInstances := [], [];
      symbols := new SymbolTable();
    }

    function RootSet(): seq<ExprKey>
      reads this
    {
      RootSetOf(constraints, states, interfaceInstances, predicateInstances)
    }

    /**
     * Declares an ephemeral: records its full name in the symbol table
     * without reporting a clash, and appends a declaration unless an
     * ephemeral of that full name already exists. Never fails.
     */
    method InsertEphemeral(modPrefix: string, name: Ident, ty: TypeText)
      modifies this`ephemerals, symbols
      ensures var full := MakeFullSymbol(modPrefix, None, name);
        && ephemerals == WithEphemeral(old(ephemerals), EphemeralDecl(full, ty, name.span))
        && symbols.symbols == if full in old(symbols.symbols) then old(symbols.symbols)
                              else old(symbols.symbols)[full := name.span]
      ensures DistinctEphemeralNames(old(ephemerals)) ==> DistinctEphemeralNames(ephemerals)
    {
      var full := symbols.AddSymbolNoClash(modPrefix, None, name, name.span);
      var i := 0;
      var found := false;
      while i < |ephemerals|
        invariant 0 <= i <= |ephemerals|
        invariant found <==> exists j :: 0 <= j < i && ephemerals[j].name == full
      {
        if ephemerals[i].name == full {
          found := true;
        }
        i := i + 1;
      }
      if !found {
        ephemerals := ephemerals + [EphemeralDecl(full, ty, name.span)];
      }
      if DistinctEphemeralNames(old(ephemerals)) {
        WithEphemeralKeepsNamesDistinct(old(ephemerals), EphemeralDecl(full, ty, name.span));
      }
    }

    /**
     * Replaces the expression key `from` by `to` wherever the predicate
     * refers to an expression directly: state expressions, constraints, the
     * nested `if` declarations, variable initialisers, interface-instance
     * addresses and the predicate-instance addresses that are present.
     * The top-level `match` declarations are not visited.
     */
    method ReplaceExprs(from: ExprKey, to: ExprKey)
      modifies this`states, this`constraints, this`ifDecls, this`varInits,
               this`interfaceInstances, this`predicateInstances
      ensures states == SubStates(old(states), from, to)
      ensures constraints == SubConstraints(old(constraints), from, to)
      ensures |ifDecls| == |old(ifDecls)|
      ensures forall i :: 0 <= i < |ifDecls| ==> ifDecls[i] == IfReplace(old(ifDecls[i]), from, to)
      ensures varInits == map k | k in old(varInits) :: Sub(old(varInits)[k], from, to)
      ensures interfaceInstances == SubInterfaceInstances(old(interfaceInstances), from, to)
      ensures predicateInstances == SubPredicateInstances(old(predicateInstances), from, to)
      ensures RootSet() == SubAll(old(RootSet()), from, to)
    {
      ReplaceInStates(from, to);
      ReplaceInConstraints(from, to);
      ReplaceInIfDecls(from, to);
      ReplaceInVarInits(from, to);
      ReplaceInInterfaceInstances(from, to);
      ReplaceInPredicateInstances(from, to);
      RootSetSub(old(constraints), old(states), old(interfaceInstances), old(predicateInstances), from, to);
    }

    method ReplaceInVarInits(from: ExprKey, to: ExprKey)
      modifies this`varInits
      ensures varInits == map k | k in old(varInits) :: Sub(old(varInits)[k], from, to)
    {
      varInits := map k | k in varInits :: Sub(varInits[k], from, to);
    }

    method ReplaceInStates(from: ExprKey, to: ExprKey)
      modifies this`states
      ensures states == SubStates(old(states), from, to)
    {
      var i := 0;
      while i < |states|
        invariant 0 <= i <= |states| == |old(states)|
        invariant forall j :: 0 <= j < i ==> states[j] == old(states[j]).(expr := Sub(old(states[j]).expr, from, to))
        invariant forall j :: i <= j < |states| ==> states[j] == old(states[j])
      {
        if states[i].expr == from {
          states := states[i := states[i].(expr := to)];
        }
        i := i + 1;
      }
    }

    method ReplaceInConstraints(from: ExprKey, to: ExprKey)
      modifies this`constraints
      ensures constraints == SubConstraints(old(constraints), from, to)
    {
      var i := 0;
      while i < |constraints|
        invariant 0 <= i <= |constraints| == |old(constraints)|
        invariant forall j :: 0 <= j < i ==>
          constraints[j] == old(constraints[j]).(expr := Sub(old(constraints[j]).expr, from, to))
        invariant forall j :: i <= j < |constraints| ==> constraints[j] == old(constraints[j])
      {
        if constraints[i].expr == from {
          constraints := constraints[i := constraints[i].(expr := to)];
        }
        i := i + 1;
      }
    }

    method ReplaceInIfDecls(from: ExprKey, to: ExprKey)
      modifies this`ifDecls
      ensures |ifDecls| == |old(ifDecls)|
      ensures forall i :: 0 <= i < |ifDecls| ==> ifDecls[i] == IfReplace(old(ifDecls[i]), from, to)
    {
      var i := 0;
      while i < |ifDecls|
        invariant 0 <= i <= |ifDecls| == |old(ifDecls)|
        invariant forall j :: 0 <= j < i ==> ifDecls[j] == IfReplace(old(ifDecls[j]), from, to)
        invariant forall j :: i <= j < |ifDecls| ==> ifDecls[j] == old(ifDecls[j])
      {
        ifDecls := ifDecls[i := IfReplace(ifDecls[i], from, to)];
        i := i + 1;
      }
    }

    method ReplaceInInterfaceInstances(from: ExprKey, to: ExprKey)
      modifies this`interfaceInstances
      ensures interfaceInstances == SubInterfaceInstances(old(interfaceInstances), from, to)
    {
      var i := 0;
      while i < |interfaceInstances|
        invariant 0 <= i <= |interfaceInstances| == |old(interfaceInstances)|
        invariant forall j :: 0 <= j < i ==>
          interfaceInstances[j] == old(interfaceInstances[j]).(address := Sub(old(interfaceInstances[j]).address, from, to))
        invariant forall j :: i <= j < |interfaceInstances| ==> interfaceInstances[j] == old(interfaceInstances[j])
      {
        if interfaceInstances[i].address == from {
          interfaceInstances := interfaceInstances[i := interfaceInstances[i].(address := to)];
        }
        i := i + 1;
      }
    }

    method ReplaceInPredicateInstances(from: ExprKey, to: ExprKey)
      modifies this`predicateInstances
      ensures predicateInstances == SubPredicateInstances(old(predicateInstances), from, to)
    {
      var i := 0;
      while i < |predicateInstances|
        invariant 0 <= i <= |predicateInstances| == |old(predicateInstances)|
        invariant forall j :: 0 <= j < i ==>
          predicateInstances[j] == SubPredicateInstance(old(predicateInstances[j]), from, to)
        invariant forall j :: i <= j < |predicateInstances| ==> predicateInstances[j] == old(predicateInstances[j])
      {
        var pi := predicateInstances[i];
        if pi.address.Some? && pi.address.value == from {
          predicateInstances := predicateInstances[i := pi.(address := Some(to))];
        }
        i := i + 1;
      }
    }
  }

  // ---------------------------------------------------------------------
  // The contract's expression arena and the depth-first visitor

  datatype VisitorKind = ChildrenBeforeParents | ParentsBeforeChildren

  datatype TupleField = TupleField(name: Option<string>, value: ExprKey)
  datatype MatchBranch = MatchBranch(name: string, constraints: seq<ExprKey>, expr: ExprKey)
  datatype MatchElse = MatchElse(constraints: seq<ExprKey>, expr: ExprKey)
  datatype GenRange = GenRange(index: string, range: ExprKey)

  /**
   * The shape of an expression as far as visiting is concerned: its variant
   * and the keys of its sub-expressions. Operators, immediates' values and
   * spans are omitted.
   */
  datatype Expr =
    | Error
    | Path(path: string)
    | StorageAccess(name: string)
    | ExternalStorageAccess(interfaceInstance: string, name: string)
    | MacroCall(name: string)
    | Immediate
    | Array(elements: seq<ExprKey>, rangeExpr: ExprKey)
    | Tuple(fields: seq<TupleField>)
    | UnionVariant(path: string, payload: Option<ExprKey>)
    | UnaryOp(operand: ExprKey)
    | BinaryOp(lhs: ExprKey, rhs: ExprKey)
    | IntrinsicCall(name: string, args: seq<ExprKey>)
    | Select(condition: ExprKey, thenExpr: ExprKey, elseExpr: ExprKey)
    | Match(matchExpr: ExprKey, matchBranches: seq<MatchBranch>, elseBranch: Option<MatchElse>)
    | Index(expr: ExprKey, index: ExprKey)
    | TupleFieldAccess(tuple: ExprKey, field: string)
    | Cast(value: ExprKey)
    | In(value: ExprKey, collection: ExprKey)
    | Range(lb: ExprKey, ub: ExprKey)
    | Generator(genRanges: seq<GenRange>, conditions: seq<ExprKey>, body: ExprKey)
    | UnionTag(unionExpr: ExprKey)
    | UnionValue(unionExpr: ExprKey)

  function FieldValues(fs: seq<TupleField>): seq<ExprKey>
  {
    if fs == [] then [] else [fs[0].value] + FieldValues(fs[1..])
  }

  function BranchKeys(bs: seq<MatchBranch>): seq<ExprKey>
  {
    if bs == [] then [] else bs[0].constraints + [bs[0].expr] + BranchKeys(bs[1..])
  }

  function RangeKeys(rs: seq<GenRange>): seq<ExprKey>
  {
    if rs == [] then [] else [rs[0].range] + RangeKeys(rs[1..])
  }

  /** The sub-expressions of `e`, in the order the visitor descends into them. */
  function Children(e: Expr): seq<ExprKey>
  {
    match e
    case Error | Path(_) | StorageAccess(_) | ExternalStorageAccess(_, _) | MacroCall(_) | Immediate => []
    case Array(elements, rangeExpr) => elements + [rangeExpr]
    case Tuple(fields) => FieldValues(fields)
    case UnionVariant(_, payload) => if payload.Some? then [payload.value] else []
    case UnaryOp(operand) => [operand]
    case BinaryOp(lhs, rhs) => [lhs, rhs]
    case IntrinsicCall(_, args) => args
    case Select(c, t, f) => [c, t, f]
    case Match(m, branches, elseBranch) =>
      [m] + BranchKeys(branches) + (if elseBranch.Some? then elseBranch.value.constraints + [elseBranch.value.expr] else [])
    case Index(expr, index) => [expr, index]
    case TupleFieldAccess(tuple, _) => [tuple]
    case Cast(value) => [value]
    case In(value, collection) => [value, collection]
    case Range(lb, ub) => [lb, ub]
    case Generator(ranges, conditions, body) => RangeKeys(ranges) + conditions + [body]
    case UnionTag(u) => [u]
    case UnionValue(u) => [u]
  }

  /**
   * The arena is closed and acyclic: every sub-expression key is present
   * and lies strictly lower in the `depth` ranking than its parent.
   */
  predicate Ranked(exprs: map<ExprKey, Expr>, depth: map<ExprKey, nat>)
  {
    forall k :: k in exprs ==>
      k in depth &&
      forall i :: 0 <= i < |Children(exprs[k])| ==>
        Children(exprs[k])[i] in exprs && Children(exprs[k])[i] in depth && depth[Children(exprs[k])[i]] < depth[k]
  }

  /**
   * The keys passed to the callback, in call order, when visiting `key`:
   * the node itself before its sub-expressions (ParentsBeforeChildren) or
   * after them (ChildrenBeforeParents).
   */
  function Visit(exprs: map<ExprKey, Expr>, depth: map<ExprKey, nat>, kind: VisitorKind, key: ExprKey)
    : (trace: seq<ExprKey>)
    requires Ranked(exprs, depth) && key in exprs
    ensures forall i :: 0 <= i < |trace| ==> trace[i] in exprs
    decreases depth[key], 1
  {
    var inner := VisitAll(exprs, depth, kind, Children(exprs[key]), depth[key]);
    if kind == ParentsBeforeChildren then [key] + inner else inner + [key]
  }

  function VisitAll(exprs: map<ExprKey, Expr>, depth: map<ExprKey, nat>, kind: VisitorKind,
                    keys: seq<ExprKey>, bound: nat): (trace: seq<ExprKey>)
    requires Ranked(exprs, depth)
    requires forall i :: 0 <= i < |keys| ==> keys[i] in exprs && keys[i] in depth && depth[keys[i]] < bound
    ensures forall i :: 0 <= i < |trace| ==> trace[i] in exprs
    decreases bound, 0, |keys|
  {
    if keys == [] then []
    else Visit(exprs, depth, kind, keys[0]) + VisitAll(exprs, depth, kind, keys[1..], bound)
  }

  /** A leaf is visited with exactly one call. */
  lemma VisitLeaf(exprs: map<ExprKey, Expr>, depth: map<ExprKey, nat>, kind: VisitorKind, key: ExprKey)
    requires Ranked(exprs, depth) && key in exprs && Children(exprs[key]) == []
    ensures Visit(exprs, depth, kind, key) == [key]
  {
  }

  /** The visited node is the first callback in pre-order and the last in post-order. */
  lemma VisitNodePosition(exprs: map<ExprKey, Expr>, depth: map<ExprKey, nat>, kind: VisitorKind, key: ExprKey)
    requires Ranked(exprs, depth) && key in exprs
    ensures var t := Visit(exprs, depth, kind, key);
      |t| >= 1 && (if kind == ParentsBeforeChildren then t[0] == key else t[|t| - 1] == key)
  {
  }

  /**
   * Both orders make the same calls, only in a different order: each
   * expression is reached the same number of times.
   */
  lemma {:induction false} VisitOrdersAgree(exprs: map<ExprKey, Expr>, depth: map<ExprKey, nat>, key: ExprKey)
    requires Ranked(exprs, depth) && key in exprs
    ensures multiset(Visit(exprs, depth, ParentsBeforeChildren, key))
         == multiset(Visit(exprs, depth, ChildrenBeforeParents, key))
    decreases depth[key], 1
  {
    VisitAllOrdersAgree(exprs, depth, Children(exprs[key]), depth[key]);
  }

  lemma {:induction false} VisitAllOrdersAgree(exprs: map<ExprKey, Expr>, depth: map<ExprKey, nat>,
                                               keys: seq<ExprKey>, bound: nat)
    requires Ranked(exprs, depth)
    requires forall i :: 0 <= i < |keys| ==> keys[i] in exprs && keys[i] in depth && depth[keys[i]] < bound
    ensures multiset(VisitAll(exprs, depth, ParentsBeforeChildren, keys, bound))
         == multiset(VisitAll(exprs, depth, ChildrenBeforeParents, keys, bound))
    decreases bound, 0, |keys|
  {
    if keys != [] {
      VisitOrdersAgree(exprs, depth, keys[0]);
      VisitAllOrdersAgree(exprs, depth, keys[1..], bound);
    }
  }

  /** Every sub-expression of a visited node is visited too. */
  lemma {:induction false} VisitReachesChildren(exprs: map<ExprKey, Expr>, depth: map<ExprKey, nat>,
                                                kind: VisitorKind, key: ExprKey, i: nat)
    requires Ranked(exprs, depth) && key in exprs && i < |Children(exprs[key])|
    ensures Children(exprs[key])[i] in Visit(exprs, depth, kind, key)
  {
    VisitAllContains(exprs, depth, kind, Children(exprs[key]), depth[key], i);
  }

  lemma {:induction false} VisitAllContains(exprs: map<ExprKey, Expr>, depth: map<ExprKey, nat>, kind: VisitorKind,
                                            keys: seq<ExprKey>, bound: nat, i: nat)
    requires Ranked(exprs, depth)
    requires forall j :: 0 <= j < |keys| ==> keys[j] in exprs && keys[j] in depth && depth[keys[j]] < bound
    requires i < |keys|
    ensures keys[i] in VisitAll(exprs, depth, kind, keys, bound)
    decreases |keys|
  {
    VisitNodePosition(exprs, depth, kind, keys[0]);
    if i > 0 {
      VisitAllContains(exprs, depth, kind, keys[1..], bound, i - 1);
    }
  }

  /** `Contract::visitor`: every root of the predicate visited in root-set order. */
  function VisitRoots(exprs: map<ExprKey, Expr>, depth: map<ExprKey, nat>, kind: VisitorKind, roots: seq<ExprKey>)
    : (trace: seq<ExprKey>)
    requires Ranked(exprs, depth)
    requires forall i :: 0 <= i < |roots| ==> roots[i] in exprs
    ensures forall i :: 0 <= i < |roots| ==> roots[i] in trace
  {
    if roots == [] then []
    else
      VisitNodePosition(exprs, depth, kind, roots[0]);
      Visit(exprs, depth, kind, roots[0]) + VisitRoots(exprs, depth, kind, roots[1..])
  }

  // ---------------------------------------------------------------------
  // Storage lookup

  datatype StorageVar = StorageVar(name: Ident, ty: TypeText, span: Span)

  const NoStorageBlockMsg := "a storage block must have been declared"
  const UncheckedStorageMsg := "storage access should have been checked before"

  /** What a storage lookup finds: the position and declaration of the variable, or the reason it panics. */
  datatype StorageLookup = Found(index: nat, decl: StorageVar) | Panic(reason: string)

  /** The position of the first storage variable called `name`, if any (`Iterator::position`). */
  function StoragePosition(vars: seq<StorageVar>, name: string): (r: Option<nat>)
    ensures r.Some? ==> r.value < |vars| && vars[r.value].name.name == name
    ensures r.Some? ==> forall j :: 0 <= j < r.value ==> vars[j].name.name != name
    ensures r.None? ==> forall j :: 0 <= j < |vars| ==> vars[j].name.name != name
  {
    if vars == [] then None
    else if vars[0].name.name == name then Some(0)
    else
      var p := StoragePosition(vars[1..], name);
      if p.None? then None else Some(p.value + 1)
  }

  /**
   * `Contract::storage_var`: the position and declaration of the first
   * storage variable called `name`. A contract without a storage block, or
   * a name it does not declare, panics.
   */
  function StorageVarOf(storage: Option<seq<StorageVar>>, name: string): (r: StorageLookup)
    ensures storage.None? ==> r == Panic(NoStorageBlockMsg)
    ensures storage.Some? ==> (r.Found? <==> exists i :: 0 <= i < |storage.value| && storage.value[i].name.name == name)
    ensures storage.Some? && r.Panic? ==> r == Panic(UncheckedStorageMsg)
    ensures r.Found? ==> storage.Some? && r.index < |storage.value| && r.decl == storage.value[r.index] && r.decl.name.name == name
    ensures r.Found? ==> forall j :: 0 <= j < r.index ==> storage.value[j].name.name != name
  {
    if storage.None? then Panic(NoStorageBlockMsg)
    else
      var p := StoragePosition(storage.value, name);
      if p.None? then Panic(UncheckedStorageMsg) else Found(p.value, storage.value[p.value])
  }
}
