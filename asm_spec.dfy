/**
 * What `pintc`'s code generator emits for one final intermediate intent,
 * written as functions: the constraint code of an expression, the code
 * that reads a decision variable or a state slot, the code that builds a
 * storage key, the state-read program of a state variable, and the
 * decision-variable layout. The class in `AsmGen` is proved against these.
 *
 * A compile step ends in one of three ways: `Ok`, an error reported to the
 * diagnostics handler (`Err`, the compiler carries on with the next state
 * or constraint), or a panic (`Panic`, an `unimplemented!`, `unreachable!`,
 * failed `assert!` or a missing slot-map key, which aborts everything).
 */
module AsmSpec {
  import opened Util

  type ExprKey = nat

  // ---------------------------------------------------------------------
  // Instructions

  /** A constraint instruction (the stack, access, ALU, predicate and crypto ops used). */
  datatype Op =
    | Push(value: int)
    | Pop
    | AccessDecisionVar
    | AccessState
    | AccessStateRange
    | AluAdd | AluSub | AluMul | AluDiv | AluMod
    | PredEq | PredEq4 | PredNot | PredLte | PredLt | PredGte | PredGt | PredAnd | PredOr
    | Sha256

  /** A state-read instruction: an embedded constraint instruction, or a memory, state or control op. */
  datatype StateOp = Constraint(op: Op) | Alloc | WordRange | WordRangeExtern | Halt

  predicate IsStateAccess(op: Op)
  {
    op == AccessState || op == AccessStateRange
  }

  /** Constraint instructions used inside a state-read program. */
  function Embed(c: seq<Op>): (s: seq<StateOp>)
    ensures |s| == |c| && forall i :: 0 <= i < |c| ==> s[i] == Constraint(c[i])
  {
    seq(|c|, i requires 0 <= i < |c| => Constraint(c[i]))
  }

  lemma EmbedAppend(a: seq<Op>, b: seq<Op>)
    ensures Embed(a + b) == Embed(a) + Embed(b)
  {
  }

  // ---------------------------------------------------------------------
  // Types, sizes and immediates

  /**
   * The types the code generator distinguishes; every other type is
   * `Other`. A tuple lists its field names (`None` for a positional field)
   * and its field types.
   */
  datatype Type = Int | Bool | B256 | Tuple(names: seq<Option<string>>, tys: seq<Type>) | Map(from: Type, to: Type) | Other

  /** The size of a type in words: a `b256` is four, a tuple the sum of its fields, anything else one. */
  function Size(t: Type): nat
  {
    match t
    case B256 => 4
    case Tuple(_, tys) => Sum(TypeSizes(tys))
    case _ => 1
  }

  function TypeSizes(tys: seq<Type>): seq<nat>
  {
    if tys == [] then [] else TypeSizes(tys[..|tys| - 1]) + [Size(tys[|tys| - 1])]
  }

  lemma {:induction false} TypeSizesAt(tys: seq<Type>)
    ensures |TypeSizes(tys)| == |tys| && forall i :: 0 <= i < |tys| ==> TypeSizes(tys)[i] == Size(tys[i])
  {
    if tys != [] {
      TypeSizesAt(tys[..|tys| - 1]);
    }
  }

  const TwoTo63: int := 0x8000_0000_0000_0000
  const TwoTo64: int := 0x1_0000_0000_0000_0000

  /** Rust's `w as i64` on a `u64` word: the same 64 bits read as two's complement. */
  function AsI64(w: nat): (r: int)
    ensures -TwoTo63 <= r < TwoTo63
    ensures (w - r) % TwoTo64 == 0
    ensures w < TwoTo63 ==> r == w
  {
    var u := w % TwoTo64;
    assert w == (w / TwoTo64) * TwoTo64 + u;
    if u < TwoTo63 then u else u - TwoTo64
  }

  /** An immediate; a `b256` holds four 64-bit words. */
  datatype Immediate = IntImm(n: int) | B256Imm(w0: nat, w1: nat, w2: nat, w3: nat) | OtherImm

  /** The four pushes of a `b256` value, most significant word first. */
  function B256Pushes(v: Immediate): (c: seq<Op>)
    requires v.B256Imm?
    ensures |c| == 4 && forall i :: 0 <= i < 4 ==> c[i].Push?
  {
    [Push(AsI64(v.w0)), Push(AsI64(v.w1)), Push(AsI64(v.w2)), Push(AsI64(v.w3))]
  }

  // ---------------------------------------------------------------------
  // The final intermediate intent, as the code generator reads it

  datatype BinaryOp =
    | Add | Sub | Mul | Div | Mod
    | Equal | NotEqual | LessThanOrEqual | LessThan | GreaterThanOrEqual | GreaterThan
    | LogicalAnd | LogicalOr

  datatype UnaryOp = Not | NextState | Neg | UnaryError

  datatype TupleAccess = FieldIndex(index: nat) | FieldName(name: string) | AccessError

  /**
   * The expression forms. `Unsupported` stands for every form left after
   * the middle end has lowered them away (error, macro call, array, tuple,
   * cast, `in`, range, generator).
   */
  datatype Expr =
    | Immediate(value: Immediate)
    | BinaryOpExpr(op: BinaryOp, lhs: ExprKey, rhs: ExprKey)
    | UnaryOpExpr(uop: UnaryOp, operand: ExprKey)
    | PathByName(path: string)
    | PathByKey(varKey: nat)
    | StorageAccess(name: string)
    | ExternalStorageAccess(externPath: string, name: string)
    | FnCall(name: string, args: seq<ExprKey>)
    | IfExpr
    | Index(indexed: ExprKey, index: ExprKey)
    | TupleFieldAccess(tuple: ExprKey, field: TupleAccess)
    | Unsupported

  /** Sub-expressions are created before the expressions that use them. */
  predicate ChildrenBelow(e: Expr, k: ExprKey)
  {
    match e
    case BinaryOpExpr(_, lhs, rhs) => lhs < k && rhs < k
    case UnaryOpExpr(_, operand) => operand < k
    case FnCall(_, args) => forall i :: 0 <= i < |args| ==> args[i] < k
    case Index(indexed, index) => indexed < k && index < k
    case TupleFieldAccess(tuple, _) => tuple < k
    case _ => true
  }

  predicate WellFounded(exprs: map<ExprKey, Expr>)
  {
    forall k :: k in exprs ==> ChildrenBelow(exprs[k], k)
  }

  /** A decision variable, in the intent's iteration order, with its key, name and type. */
  datatype Var = Var(key: nat, name: string, ty: Type)
  /** A state variable, in iteration order, with the expression it reads and its declared type. */
  datatype StateVar = StateVar(name: string, expr: ExprKey, ty: Type)
  datatype StorageVar = StorageVar(name: string, ty: Type)
  datatype Extern = Extern(name: string, address: Immediate, storageVars: seq<StorageVar>)

  datatype IntermediateIntent = IntermediateIntent(
    vars: seq<Var>,
    states: seq<StateVar>,
    exprs: map<ExprKey, Expr>,
    exprTypes: map<ExprKey, Type>,
    constraints: seq<ExprKey>,
    storage: Option<seq<StorageVar>>,
    externs: seq<Extern>)

  // ---------------------------------------------------------------------
  // Outcomes

  datatype Outcome<T> = Ok(value: T) | Err(msg: string) | Panic(reason: string)
  {
    predicate IsFailure() { !Ok? }

    function PropagateFailure<U>(): Outcome<U>
      requires IsFailure()
    {
      if Err? then Err(msg) else Panic(reason)
    }

    function Extract(): T
      requires Ok?
    {
      value
    }
  }

  /** The same outcome with the value dropped. */
  function Drop<T>(o: Outcome<T>): Outcome<()>
  {
    match o
    case Ok(_) => Ok(())
    case Err(m) => Err(m)
    case Panic(p) => Panic(p)
  }

  /** Code appended to what was emitted before. */
  function Appended(pre: seq<Op>, o: Outcome<seq<Op>>): Outcome<seq<Op>>
  {
    match o
    case Ok(c) => Ok(pre + c)
    case Err(m) => Err(m)
    case Panic(p) => Panic(p)
  }

  const StorageAccessMsg := "unexpected storage access"
  const SenderMsg := "Encountered removed `sender` op during assembly generation"
  const UnexpectedExprMsg := "Unexpected expression during assembly generation"

  const MissingKey := "slot map key not present"
  const Unimplemented := "not yet supported"
  const Unreachable := "guaranteed by semantic analysis"
  const AssertionFailed := "assertion failed"

  const SenderSuffix := "::context::sender"
  const GetSuffix := "::storage_lib::get"
  const GetExternSuffix := "::storage_lib::get_extern"

  predicate EndsWith(s: string, suffix: string)
  {
    |suffix| <= |s| && s[|s| - |suffix|..] == suffix
  }

  // ---------------------------------------------------------------------
  // Searching by name (`Iterator::position` / `find`)

  /** The first position holding `x`. */
  function IndexOf<T(==)>(xs: seq<T>, x: T): (r: Option<nat>)
    ensures r.Some? ==> r.value < |xs| && xs[r.value] == x && forall j :: 0 <= j < r.value ==> xs[j] != x
    ensures r.None? <==> x !in xs
  {
    if xs == [] then None
    else if xs[0] == x then Some(0)
    else match IndexOf(xs[1..], x)
      case None => None
      case Some(i) => Some(i + 1)
  }

  function VarNames(vars: seq<Var>): seq<string>
  {
    seq(|vars|, i requires 0 <= i < |vars| => vars[i].name)
  }

  function VarKeys(vars: seq<Var>): seq<nat>
  {
    seq(|vars|, i requires 0 <= i < |vars| => vars[i].key)
  }

  function StateNames(states: seq<StateVar>): seq<string>
  {
    seq(|states|, i requires 0 <= i < |states| => states[i].name)
  }

  function StorageNames(vs: seq<StorageVar>): seq<string>
  {
    seq(|vs|, i requires 0 <= i < |vs| => vs[i].name)
  }

  function ExternNames(es: seq<Extern>): seq<string>
  {
    seq(|es|, i requires 0 <= i < |es| => es[i].name)
  }

  // ---------------------------------------------------------------------
  // Prefix sums: decision variables, state slots, storage keys, tuple fields

  lemma PrefixSumStep(xs: seq<nat>, i: nat)
    requires i < |xs|
    ensures Sum(xs[..i + 1]) == Sum(xs[..i]) + xs[i]
  {
    assert xs[..i + 1][..i] == xs[..i];
  }

  /** The range `[Sum(xs[..i]), Sum(xs[..i]) + xs[i])` ends before the `j`-th prefix sum starts, for `i < j`. */
  lemma {:induction false} PrefixSumGap(xs: seq<nat>, i: nat, j: nat)
    requires i < j <= |xs|
    ensures Sum(xs[..i]) + xs[i] <= Sum(xs[..j])
    decreases j
  {
    if j == i + 1 {
      PrefixSumStep(xs, i);
    } else {
      PrefixSumGap(xs, i, j - 1);
      PrefixSumStep(xs, j - 1);
    }
  }

  /** `b256` variables are four words wide, every other variable one. */
  function Width(t: Type): nat
  {
    if t == B256 then 4 else 1
  }

  function Widths(vars: seq<Var>): seq<nat>
  {
    seq(|vars|, i requires 0 <= i < |vars| => Width(vars[i].ty))
  }

  function DVarRange(lo: nat, n: nat): seq<nat>
  {
    seq(n, j requires 0 <= j < n => lo + j)
  }

  /** Variable `i` (by position) is given the next `Width` word-wide decision variables. */
  function DVarMap(vars: seq<Var>): map<nat, seq<nat>>
  {
    map i | 0 <= i < |vars| :: DVarRange(Sum(Widths(vars)[..i]), Width(vars[i].ty))
  }

  /** The decision variables of the first `n` variables, as the allocation loop has them after `n` turns. */
  function DVarMapUpTo(vars: seq<Var>, n: nat): map<nat, seq<nat>>
    requires n <= |vars|
  {
    map i | 0 <= i < n :: DVarRange(Sum(Widths(vars)[..i]), Width(vars[i].ty))
  }

  lemma DVarMapUpToStep(vars: seq<Var>, n: nat)
    requires n < |vars|
    ensures DVarMapUpTo(vars, n)[n := DVarRange(Sum(Widths(vars)[..n]), Width(vars[n].ty))] == DVarMapUpTo(vars, n + 1)
  {
  }

  lemma DVarMapUpToAll(vars: seq<Var>)
    ensures DVarMapUpTo(vars, |vars|) == DVarMap(vars)
  {
  }

  /** Every variable gets at least one decision variable. */
  predicate NonEmptyDVars(dvars: map<nat, seq<nat>>)
  {
    forall i :: i in dvars ==> dvars[i] != []
  }

  lemma DVarMapNonEmpty(vars: seq<Var>)
    ensures NonEmptyDVars(DVarMap(vars))
  {
    forall i | i in DVarMap(vars)
      ensures DVarMap(vars)[i] != []
    {
      assert |DVarMap(vars)[i]| == Width(vars[i].ty);
    }
  }

  /** Decision variables of earlier variables come strictly before those of later ones (so none is shared). */
  lemma DVarsOrdered(vars: seq<Var>, i: nat, j: nat, x: nat, y: nat)
    requires i < j < |vars|
    requires x < |DVarMap(vars)[i]| && y < |DVarMap(vars)[j]|
    ensures DVarMap(vars)[i][x] < DVarMap(vars)[j][y]
  {
    PrefixSumGap(Widths(vars), i, j);
  }

  /** Every decision variable below the total belongs to some variable. */
  lemma DVarsCover(vars: seq<Var>, n: nat, d: nat)
    requires n <= |vars| && d < Sum(Widths(vars)[..n])
    ensures exists i, x :: 0 <= i < n && 0 <= x < |DVarMap(vars)[i]| && DVarMap(vars)[i][x] == d
  {
    var i, x := DVarOwner(vars, n, d);
  }

  /** The variable `i` among the first `n` that decision variable `d` belongs to, and its position `x` there. */
  lemma {:induction false} DVarOwner(vars: seq<Var>, n: nat, d: nat) returns (i: nat, x: nat)
    requires n <= |vars| && d < Sum(Widths(vars)[..n])
    ensures i < n && x < |DVarMap(vars)[i]| && DVarMap(vars)[i][x] == d
    decreases n
  {
    var ws := Widths(vars);
    PrefixSumStep(ws, n - 1);
    if d < Sum(ws[..n - 1]) {
      i, x := DVarOwner(vars, n - 1, d);
    } else {
      var lo := Sum(ws[..n - 1]);
      i, x := n - 1, d - lo;
      var ds := DVarRange(lo, Width(vars[n - 1].ty));
      assert ws[n - 1] == Width(vars[n - 1].ty);
      assert DVarMap(vars)[n - 1] == ds;
      assert ds[x] == d;
    }
  }

  function StateSizes(states: seq<StateVar>): seq<nat>
  {
    seq(|states|, i requires 0 <= i < |states| => Size(states[i].ty))
  }

  /** The first slot of state `i`: the sizes of the states declared before it, added up. */
  function SlotIndex(states: seq<StateVar>, i: nat): nat
    requires i <= |states|
  {
    Sum(StateSizes(states)[..i])
  }

  /** The slots of two different states do not overlap. */
  lemma StateSlotsDisjoint(states: seq<StateVar>, i: nat, j: nat)
    requires i < j < |states|
    ensures SlotIndex(states, i) + Size(states[i].ty) <= SlotIndex(states, j)
  {
    PrefixSumGap(StateSizes(states), i, j);
  }

  function StorageSizes(vs: seq<StorageVar>): seq<nat>
  {
    seq(|vs|, i requires 0 <= i < |vs| => Size(vs[i].ty))
  }

  /** The base key of storage variable `i`: the sizes of the variables declared before it, added up. */
  function StorageKeyOf(vs: seq<StorageVar>, i: nat): nat
    requires i <= |vs|
  {
    Sum(StorageSizes(vs)[..i])
  }

  /** The keys of two different storage variables do not overlap. */
  lemma StorageKeysDisjoint(vs: seq<StorageVar>, i: nat, j: nat)
    requires i < j < |vs|
    ensures StorageKeyOf(vs, i) + Size(vs[i].ty) <= StorageKeyOf(vs, j)
  {
    PrefixSumGap(StorageSizes(vs), i, j);
  }

  /** The offset of field `i` within a tuple (all fields when `i` is past the end, as `take` does). */
  function FieldOffset(tys: seq<Type>, i: nat): nat
  {
    var sizes := TypeSizes(tys);
    Sum(sizes[..if i <= |sizes| then i else |sizes|])
  }

  /** Every field lies inside the tuple, and two different fields do not overlap. */
  lemma FieldsDisjoint(names: seq<Option<string>>, tys: seq<Type>, i: nat, j: nat)
    requires i < j <= |tys|
    ensures FieldOffset(tys, i) + Size(tys[i]) <= FieldOffset(tys, j) <= Size(Tuple(names, tys))
  {
    TypeSizesAt(tys);
    PrefixSumGap(TypeSizes(tys), i, j);
    if j < |tys| {
      PrefixSumGap(TypeSizes(tys), j, |tys|);
    }
    assert TypeSizes(tys)[..|tys|] == TypeSizes(tys);
  }

  // ---------------------------------------------------------------------
  // Constraint code

  /** The operator code pushed after both operands. */
  function BinaryOpCode(op: BinaryOp, lhsIsB256: bool): (c: seq<Op>)
    ensures op == Equal ==> c == (if lhsIsB256 then [PredEq4] else [PredEq])
    ensures op == NotEqual ==> c == [PredEq, PredNot]
    ensures op != NotEqual ==> |c| == 1 && !IsStateAccess(c[0])
  {
    match op
    case Add => [AluAdd]
    case Sub => [AluSub]
    case Mul => [AluMul]
    case Div => [AluDiv]
    case Mod => [AluMod]
    case Equal => if lhsIsB256 then [PredEq4] else [PredEq]
    case NotEqual => [PredEq, PredNot]
    case LessThanOrEqual => [PredLte]
    case LessThan => [PredLt]
    case GreaterThanOrEqual => [PredGte]
    case GreaterThan => [PredGt]
    case LogicalAnd => [PredAnd]
    case LogicalOr => [PredOr]
  }

  function ImmediateCode(v: Immediate): Outcome<seq<Op>>
  {
    match v
    case IntImm(n) => Ok([Push(n)])
    case B256Imm(_, _, _, _) => Ok(B256Pushes(v))
    case OtherImm => Panic(Unimplemented)
  }

  /** Reads decision variables `ds`: each is pushed, then accessed. */
  function DVarReads(ds: seq<nat>): seq<Op>
  {
    if ds == [] then [] else DVarReads(ds[..|ds| - 1]) + [Push(ds[|ds| - 1]), AccessDecisionVar]
  }

  lemma {:induction false} DVarReadsAt(ds: seq<nat>)
    ensures |DVarReads(ds)| == 2 * |ds|
    ensures forall p :: 0 <= p < |DVarReads(ds)| ==>
      DVarReads(ds)[p] == if p % 2 == 0 then Push(ds[p / 2]) else AccessDecisionVar
  {
    if ds != [] {
      DVarReadsAt(ds[..|ds| - 1]);
    }
  }

  /** Reads the `size` words of the slot starting at `slot`; `delta` 0 is the current state, 1 the next. */
  function StateReadCode(slot: nat, size: nat, delta: int): seq<Op>
  {
    if size == 1 then [Push(slot), Push(delta), AccessState]
    else [Push(slot), Push(size), Push(delta), AccessStateRange]
  }

  /**
   * `compile_path`: a name that is a decision variable (and no state)
   * reads its decision variables; a name that is a state (and no
   * variable) reads the state's slot; anything else cannot happen.
   */
  function PathCode(ii: IntermediateIntent, dvars: map<nat, seq<nat>>, path: string): Outcome<seq<Op>>
  {
    var vi := IndexOf(VarNames(ii.vars), path);
    var si := IndexOf(StateNames(ii.states), path);
    if vi.Some? && si.None? then
      if vi.value in dvars then Ok(DVarReads(dvars[vi.value])) else Panic(MissingKey)
    else if vi.None? && si.Some? then
      Ok(StateReadCode(SlotIndex(ii.states, si.value), Size(ii.states[si.value].ty), 0))
    else
      Panic(Unreachable)
  }

  /** The code after the operand's, or the operand's with its state read switched to the next state. */
  function UnaryOpCode(uop: UnaryOp, c: seq<Op>): Outcome<seq<Op>>
  {
    match uop
    case Not => Ok(c + [PredNot])
    case NextState =>
      if |c| >= 2 && IsStateAccess(c[|c| - 1]) && c[|c| - 2] == Push(0) then Ok(c[|c| - 2 := Push(1)])
      else Panic(AssertionFailed)
    case Neg => Panic(Unimplemented)
    case UnaryError => Panic(Unreachable)
  }

  /** `compile_expr`: the constraint code of expression `k`, operands first. */
  function ExprCode(ii: IntermediateIntent, dvars: map<nat, seq<nat>>, k: ExprKey): Outcome<seq<Op>>
    requires WellFounded(ii.exprs)
    decreases k
  {
    if k !in ii.exprs then Panic(MissingKey)
    else match ii.exprs[k]
      case Immediate(v) => ImmediateCode(v)
      case BinaryOpExpr(op, lhs, rhs) =>
        var l :- ExprCode(ii, dvars, lhs);
        var r :- ExprCode(ii, dvars, rhs);
        if op == Equal && lhs !in ii.exprTypes then Panic(MissingKey)
        else Ok(l + r + BinaryOpCode(op, lhs in ii.exprTypes && ii.exprTypes[lhs] == B256))
      case UnaryOpExpr(uop, operand) =>
        var c :- ExprCode(ii, dvars, operand);
        UnaryOpCode(uop, c)
      case PathByName(path) => PathCode(ii, dvars, path)
      case PathByKey(varKey) =>
        var i := IndexOf(VarKeys(ii.vars), varKey);
        if i.None? then Panic(MissingKey) else PathCode(ii, dvars, ii.vars[i.value].name)
      case StorageAccess(_) => Err(StorageAccessMsg)
      case ExternalStorageAccess(_, _) => Err(StorageAccessMsg)
      case FnCall(name, args) =>
        if !EndsWith(name, SenderSuffix) then Panic(Unimplemented)
        else if args != [] then Panic(AssertionFailed)
        else Err(SenderMsg)
      case IfExpr => Panic(Unimplemented)
      case Index(_, _) => Err(UnexpectedExprMsg)
      case TupleFieldAccess(_, _) => Err(UnexpectedExprMsg)
      case Unsupported => Err(UnexpectedExprMsg)
  }

  /**
   * Generated code is never empty, and code ending in a state access has
   * at least two instructions, so the next-state rewrite only ever looks
   * at the operand's own code, never at what was emitted before it.
   */
  lemma CodeShape(ii: IntermediateIntent, dvars: map<nat, seq<nat>>, k: ExprKey)
    requires WellFounded(ii.exprs) && NonEmptyDVars(dvars)
    requires ExprCode(ii, dvars, k).Ok?
    ensures var c := ExprCode(ii, dvars, k).value;
      c != [] && (IsStateAccess(c[|c| - 1]) ==> |c| >= 2)
  {
    var c := ExprCode(ii, dvars, k).value;
    match ii.exprs[k]
    case PathByName(path) =>
      PathShape(ii, dvars, path);
    case PathByKey(varKey) =>
      PathShape(ii, dvars, ii.vars[IndexOf(VarKeys(ii.vars), varKey).value].name);
    case _ =>
  }

  lemma PathShape(ii: IntermediateIntent, dvars: map<nat, seq<nat>>, path: string)
    requires NonEmptyDVars(dvars) && PathCode(ii, dvars, path).Ok?
    ensures var c := PathCode(ii, dvars, path).value;
      c != [] && (IsStateAccess(c[|c| - 1]) ==> |c| >= 2)
  {
    var vi := IndexOf(VarNames(ii.vars), path);
    if vi.Some? && IndexOf(StateNames(ii.states), path).None? {
      var ds := dvars[vi.value];
      assert DVarReads(ds) == DVarReads(ds[..|ds| - 1]) + [Push(ds[|ds| - 1]), AccessDecisionVar];
    }
  }

  /**
   * A path naming decision variable `i` (and no state) reads, in order,
   * the `Width` consecutive decision variables allocated to it: four for
   * a `b256`, one otherwise.
   */
  lemma VarPathCode(ii: IntermediateIntent, path: string, i: nat)
    requires IndexOf(VarNames(ii.vars), path) == Some(i) && IndexOf(StateNames(ii.states), path).None?
    ensures PathCode(ii, DVarMap(ii.vars), path).Ok?
    ensures var c := PathCode(ii, DVarMap(ii.vars), path).value;
      && |c| == 2 * Width(ii.vars[i].ty)
      && forall p :: 0 <= p < |c| ==>
        c[p] == if p % 2 == 0 then Push(Sum(Widths(ii.vars)[..i]) + p / 2) else AccessDecisionVar
  {
    VarPathReads(ii, path, i);
    DVarRangeReads(Sum(Widths(ii.vars)[..i]), Width(ii.vars[i].ty));
  }

  /** A path naming variable `i` reads that variable's decision variables. */
  lemma VarPathReads(ii: IntermediateIntent, path: string, i: nat)
    requires IndexOf(VarNames(ii.vars), path) == Some(i) && IndexOf(StateNames(ii.states), path).None?
    ensures i < |ii.vars|
    ensures PathCode(ii, DVarMap(ii.vars), path) == Ok(DVarReads(DVarRange(Sum(Widths(ii.vars)[..i]), Width(ii.vars[i].ty))))
  {
    assert i < |ii.vars|;
    assert DVarMap(ii.vars)[i] == DVarRange(Sum(Widths(ii.vars)[..i]), Width(ii.vars[i].ty));
  }

  /** Reading `n` consecutive decision variables from `lo` on pushes each index and accesses it. */
  lemma DVarRangeReads(lo: nat, n: nat)
    ensures var c := DVarReads(DVarRange(lo, n));
      && |c| == 2 * n
      && forall p :: 0 <= p < |c| ==> c[p] == if p % 2 == 0 then Push(lo + p / 2) else AccessDecisionVar
  {
    var ds := DVarRange(lo, n);
    DVarReadsAt(ds);
    var c := DVarReads(ds);
    forall p | 0 <= p < |c|
      ensures c[p] == if p % 2 == 0 then Push(lo + p / 2) else AccessDecisionVar
    {
      if p % 2 == 0 {
        assert ds[p / 2] == lo + p / 2;
      }
    }
  }

  /**
   * Applied to a path naming state `i` (and no variable), the next-state
   * operator reads the same slot as the path, with delta 1.
   */
  lemma NextStateReadsNext(ii: IntermediateIntent, dvars: map<nat, seq<nat>>, k: ExprKey, p: ExprKey, i: nat)
    requires WellFounded(ii.exprs)
    requires k in ii.exprs && ii.exprs[k] == UnaryOpExpr(NextState, p)
    requires p in ii.exprs && ii.exprs[p].PathByName?
    requires IndexOf(StateNames(ii.states), ii.exprs[p].path) == Some(i)
    requires IndexOf(VarNames(ii.vars), ii.exprs[p].path).None?
    ensures ExprCode(ii, dvars, p) == Ok(StateReadCode(SlotIndex(ii.states, i), Size(ii.states[i].ty), 0))
    ensures ExprCode(ii, dvars, k) == Ok(StateReadCode(SlotIndex(ii.states, i), Size(ii.states[i].ty), 1))
  {
    var c := StateReadCode(SlotIndex(ii.states, i), Size(ii.states[i].ty), 0);
    assert c[|c| - 2 := Push(1)] == StateReadCode(SlotIndex(ii.states, i), Size(ii.states[i].ty), 1);
  }

  /**
   * The next-state operator succeeds only on code ending in a state access
   * whose delta is `Push(0)`; it turns that delta into `Push(1)` and
   * leaves every other instruction as it was.
   */
  lemma NextStateRewrite(ii: IntermediateIntent, dvars: map<nat, seq<nat>>, k: ExprKey)
    requires WellFounded(ii.exprs)
    requires k in ii.exprs && ii.exprs[k].UnaryOpExpr? && ii.exprs[k].uop == NextState
    requires ExprCode(ii, dvars, k).Ok?
    ensures ExprCode(ii, dvars, ii.exprs[k].operand).Ok?
    ensures var c := ExprCode(ii, dvars, ii.exprs[k].operand).value;
      var n := ExprCode(ii, dvars, k).value;
      && |c| >= 2 && |n| == |c| && IsStateAccess(c[|c| - 1])
      && c[|c| - 2] == Push(0) && n[|c| - 2] == Push(1)
      && forall j :: 0 <= j < |c| && j != |c| - 2 ==> n[j] == c[j]
  {
    UnaryOperandOk(ii, dvars, k);
    UnaryUnfold(ii, dvars, k);
  }

  /** A unary operation compiles only if its operand does. */
  lemma UnaryOperandOk(ii: IntermediateIntent, dvars: map<nat, seq<nat>>, k: ExprKey)
    requires WellFounded(ii.exprs)
    requires k in ii.exprs && ii.exprs[k].UnaryOpExpr? && ExprCode(ii, dvars, k).Ok?
    ensures ExprCode(ii, dvars, ii.exprs[k].operand).Ok?
  {
  }

  /** A decision variable has no state slot: asking for its next state panics. */
  lemma NextStateOfVarPanics(ii: IntermediateIntent, dvars: map<nat, seq<nat>>, k: ExprKey, p: ExprKey)
    requires WellFounded(ii.exprs) && NonEmptyDVars(dvars)
    requires k in ii.exprs && ii.exprs[k] == UnaryOpExpr(NextState, p)
    requires p in ii.exprs && ii.exprs[p].PathByName?
    requires IndexOf(VarNames(ii.vars), ii.exprs[p].path).Some?
    requires IndexOf(StateNames(ii.states), ii.exprs[p].path).None?
    ensures ExprCode(ii, dvars, k).Panic?
  {
    var path := ii.exprs[p].path;
    if PathCode(ii, dvars, path).Ok? {
      var ds := dvars[IndexOf(VarNames(ii.vars), path).value];
      assert DVarReads(ds) == DVarReads(ds[..|ds| - 1]) + [Push(ds[|ds| - 1]), AccessDecisionVar];
    }
  }

  // ---------------------------------------------------------------------
  // Storage keys

  datatype KeyKind = Static(k0: int, k1: int, k2: int, k3: int) | Dynamic

  datatype StorageKey = StorageKey(kind: KeyKind, isExtern: bool)

  /** State-read code that leaves a storage key on the stack, with what is known about the key. */
  datatype KeyAsm = KeyAsm(code: seq<StateOp>, key: StorageKey)

  function AppendedKey(pre: seq<StateOp>, o: Outcome<KeyAsm>): Outcome<KeyAsm>
  {
    match o
    case Ok(ka) => Ok(KeyAsm(pre + ka.code, ka.key))
    case Err(m) => Err(m)
    case Panic(p) => Panic(p)
  }

  /** The position of a field named by index or by name. */
  function FieldPosition(names: seq<Option<string>>, field: TupleAccess): Outcome<nat>
  {
    match field
    case FieldIndex(i) => Ok(i)
    case FieldName(n) =>
      var i := IndexOf(names, Some(n));
      if i.None? then Panic(MissingKey) else Ok(i.value)
    case AccessError => Panic(Unreachable)
  }

  /** The static key of a variable of a storage block: three zero words, then its base key. */
  function StaticKeyCode(key: nat): seq<Op>
  {
    [Push(0), Push(0), Push(0), Push(key)]
  }

  /** The type recorded for expression `k`, if any. */
  function TypeOf(exprTypes: map<ExprKey, Type>, k: ExprKey): Option<Type>
  {
    if k in exprTypes then Some(exprTypes[k]) else None
  }

  /**
   * The key of a map entry, from the map's key and the index's code: the
   * index is hashed together with the four key words.
   */
  function EntryKey(inner: Outcome<KeyAsm>, index: Outcome<seq<Op>>, indexTy: Option<Type>): Outcome<KeyAsm>
  {
    var ka :- inner;
    var c :- index;
    if indexTy.None? then Panic(MissingKey)
    else Ok(KeyAsm(ka.code + Embed(c) + Embed([Push(4 + Size(indexTy.value)), Sha256]), StorageKey(Dynamic, ka.key.isExtern)))
  }

  /**
   * The key of a tuple field, from the tuple's key: a dynamic key is moved
   * on at run time, a static one has its last word replaced.
   */
  function FieldKey(inner: Outcome<KeyAsm>, tupleTy: Option<Type>, field: TupleAccess): Outcome<KeyAsm>
  {
    var ka :- inner;
    if tupleTy.None? || !tupleTy.value.Tuple? then Panic(AssertionFailed)
    else
      var t := tupleTy.value;
      var i :- FieldPosition(t.names, field);
      var offset := FieldOffset(t.tys, i);
      match ka.key.kind
      case Dynamic =>
        Ok(KeyAsm(ka.code + Embed([Push(offset), AluAdd]), StorageKey(Dynamic, ka.key.isExtern)))
      case Static(k0, k1, k2, k3) =>
        Ok(KeyAsm(ka.code + Embed([Pop, Push(k3 + offset)]), StorageKey(Static(k0, k1, k2, k3 + offset), ka.key.isExtern)))
  }

  /** The key of `get(key)`: the argument's code, a dynamic key of this intent's own storage. */
  function GetKey(c: Outcome<seq<Op>>): Outcome<KeyAsm>
  {
    var x :- c;
    Ok(KeyAsm(Embed(x), StorageKey(Dynamic, false)))
  }

  /** The key of `get_extern(address, key)`: both arguments' code, a dynamic key of external storage. */
  function GetExternKey(address: Outcome<seq<Op>>, key: Outcome<seq<Op>>): Outcome<KeyAsm>
  {
    var a :- address;
    var b :- key;
    Ok(KeyAsm(Embed(a + b), StorageKey(Dynamic, true)))
  }

  /**
   * `compile_state_key`: the code computing the key under which the value
   * of expression `k` is stored.
   */
  function KeyCode(ii: IntermediateIntent, dvars: map<nat, seq<nat>>, k: ExprKey): Outcome<KeyAsm>
    requires WellFounded(ii.exprs)
    decreases k
  {
    if k !in ii.exprs then Panic(MissingKey)
    else match ii.exprs[k]
      case FnCall(name, args) =>
        if EndsWith(name, GetSuffix) then
          if |args| != 1 then Panic(AssertionFailed)
          else GetKey(ExprCode(ii, dvars, args[0]))
        else if EndsWith(name, GetExternSuffix) then
          if |args| != 2 then Panic(AssertionFailed)
          else GetExternKey(ExprCode(ii, dvars, args[0]), ExprCode(ii, dvars, args[1]))
        else Panic(Unimplemented)
      case StorageAccess(name) =>
        if ii.storage.None? then Panic(MissingKey)
        else
          var vs := ii.storage.value;
          var pos := IndexOf(StorageNames(vs), name);
          if pos.None? then Panic(MissingKey)
          else
            var key := StorageKeyOf(vs, pos.value);
            Ok(KeyAsm(Embed(StaticKeyCode(key)), StorageKey(Static(0, 0, 0, key), false)))
      case ExternalStorageAccess(externPath, name) =>
        var e := IndexOf(ExternNames(ii.externs), externPath);
        if e.None? then Panic(MissingKey)
        else
          var ext := ii.externs[e.value];
          var pos := IndexOf(StorageNames(ext.storageVars), name);
          if pos.None? then Panic(MissingKey)
          else if !ext.address.B256Imm? then Panic(AssertionFailed)
          else
            var key := StorageKeyOf(ext.storageVars, pos.value);
            Ok(KeyAsm(Embed(B256Pushes(ext.address) + StaticKeyCode(key)), StorageKey(Static(0, 0, 0, key), true)))
      case Index(indexed, index) =>
        EntryKey(KeyCode(ii, dvars, indexed), ExprCode(ii, dvars, index), TypeOf(ii.exprTypes, index))
      case TupleFieldAccess(tuple, field) =>
        FieldKey(KeyCode(ii, dvars, tuple), TypeOf(ii.exprTypes, tuple), field)
      case _ => Panic(Unreachable)
  }

  /** Through map indexing and tuple fields, the key starts from an external storage block. */
  predicate ExternRoot(exprs: map<ExprKey, Expr>, k: ExprKey)
    requires WellFounded(exprs)
    decreases k
  {
    k in exprs &&
    match exprs[k]
    case ExternalStorageAccess(_, _) => true
    case FnCall(name, _) => !EndsWith(name, GetSuffix) && EndsWith(name, GetExternSuffix)
    case Index(indexed, _) => ExternRoot(exprs, indexed)
    case TupleFieldAccess(tuple, _) => ExternRoot(exprs, tuple)
    case _ => false
  }

  /** The key is a storage variable, or a field of one, reached without a map index or a call. */
  predicate StaticRoot(exprs: map<ExprKey, Expr>, k: ExprKey)
    requires WellFounded(exprs)
    decreases k
  {
    k in exprs &&
    match exprs[k]
    case StorageAccess(_) => true
    case ExternalStorageAccess(_, _) => true
    case TupleFieldAccess(tuple, _) => StaticRoot(exprs, tuple)
    case _ => false
  }

  /**
   * A compiled key reads external storage exactly when its root is an
   * external block; it is known at compile time exactly when no map index
   * or call lies on the way; a static key is `[0, 0, 0, k3]` and its code
   * ends by pushing `k3`, the word a tuple-field offset is added to.
   */
  lemma {:induction false} KeyCodeKind(ii: IntermediateIntent, dvars: map<nat, seq<nat>>, k: ExprKey)
    requires WellFounded(ii.exprs)
    requires KeyCode(ii, dvars, k).Ok?
    ensures KeyFacts(KeyCode(ii, dvars, k).value, ExternRoot(ii.exprs, k), StaticRoot(ii.exprs, k))
    decreases k
  {
    match ii.exprs[k]
    case Index(indexed, _) =>
      IndexKeyCode(ii, dvars, k);
      KeyCodeKind(ii, dvars, indexed);
      IndexKeyKind(ii, dvars, k);
    case TupleFieldAccess(tuple, field) =>
      FieldKeyUnfold(ii, dvars, k);
      FieldKeyKind(KeyCode(ii, dvars, tuple), TypeOf(ii.exprTypes, tuple), field);
      KeyCodeKind(ii, dvars, tuple);
    case StorageAccess(_) =>
      StorageKeyKind(ii, dvars, k);
    case ExternalStorageAccess(_, _) =>
      ExternKeyKind(ii, dvars, k);
    case FnCall(_, _) =>
      CallKeyUnfold(ii, dvars, k);
    case _ =>
  }

  /**
   * What a compiled key says of its root: it reads external storage
   * exactly when `extern`, it is static exactly when `fixed`, and a
   * static key is `[0, 0, 0, k3]` with code ending by pushing `k3`.
   */
  predicate KeyFacts(ka: KeyAsm, extern: bool, fixed: bool)
  {
    && ka.key.isExtern == extern
    && (ka.key.kind.Static? <==> fixed)
    && (ka.key.kind.Static? ==>
          && ka.key.kind.k0 == 0 && ka.key.kind.k1 == 0 && ka.key.kind.k2 == 0
          && ka.code != [] && ka.code[|ka.code| - 1] == Constraint(Push(ka.key.kind.k3)))
  }

  /** A map entry's key is dynamic and as external as the map's. */
  lemma IndexKeyKind(ii: IntermediateIntent, dvars: map<nat, seq<nat>>, k: ExprKey)
    requires WellFounded(ii.exprs)
    requires k in ii.exprs && ii.exprs[k].Index? && KeyCode(ii, dvars, k).Ok?
    requires var m := ii.exprs[k].indexed;
      KeyCode(ii, dvars, m).Ok? && KeyFacts(KeyCode(ii, dvars, m).value, ExternRoot(ii.exprs, m), StaticRoot(ii.exprs, m))
    ensures KeyFacts(KeyCode(ii, dvars, k).value, ExternRoot(ii.exprs, k), StaticRoot(ii.exprs, k))
  {
    IndexKeyCode(ii, dvars, k);
  }

  /** One step of `KeyCode` on a tuple field. */
  lemma FieldKeyUnfold(ii: IntermediateIntent, dvars: map<nat, seq<nat>>, k: ExprKey)
    requires WellFounded(ii.exprs)
    requires k in ii.exprs && ii.exprs[k].TupleFieldAccess?
    ensures KeyCode(ii, dvars, k)
      == FieldKey(KeyCode(ii, dvars, ii.exprs[k].tuple), TypeOf(ii.exprTypes, ii.exprs[k].tuple), ii.exprs[k].field)
    ensures ExternRoot(ii.exprs, k) == ExternRoot(ii.exprs, ii.exprs[k].tuple)
    ensures StaticRoot(ii.exprs, k) == StaticRoot(ii.exprs, ii.exprs[k].tuple)
  {
  }

  /** A storage variable's key is static, of local storage, and its code pushes its slot last. */
  lemma StorageKeyKind(ii: IntermediateIntent, dvars: map<nat, seq<nat>>, k: ExprKey)
    requires WellFounded(ii.exprs)
    requires k in ii.exprs && ii.exprs[k].StorageAccess? && KeyCode(ii, dvars, k).Ok?
    ensures KeyFacts(KeyCode(ii, dvars, k).value, ExternRoot(ii.exprs, k), StaticRoot(ii.exprs, k))
  {
    var vs := ii.storage.value;
    StaticKeyCodeLast([], StorageKeyOf(vs, IndexOf(StorageNames(vs), ii.exprs[k].name).value));
    assert [] + StaticKeyCode(StorageKeyOf(vs, IndexOf(StorageNames(vs), ii.exprs[k].name).value))
        == StaticKeyCode(StorageKeyOf(vs, IndexOf(StorageNames(vs), ii.exprs[k].name).value));
  }

  /** An external storage variable's key is static, of external storage, and its code pushes its slot last. */
  lemma ExternKeyKind(ii: IntermediateIntent, dvars: map<nat, seq<nat>>, k: ExprKey)
    requires WellFounded(ii.exprs)
    requires k in ii.exprs && ii.exprs[k].ExternalStorageAccess? && KeyCode(ii, dvars, k).Ok?
    ensures KeyFacts(KeyCode(ii, dvars, k).value, ExternRoot(ii.exprs, k), StaticRoot(ii.exprs, k))
  {
    var ext := ii.externs[IndexOf(ExternNames(ii.externs), ii.exprs[k].externPath).value];
    StaticKeyCodeLast(B256Pushes(ext.address), StorageKeyOf(ext.storageVars, IndexOf(StorageNames(ext.storageVars), ii.exprs[k].name).value));
  }

  /** Code ending in a static key ends by pushing its base key. */
  lemma StaticKeyCodeLast(pre: seq<Op>, key: nat)
    ensures var c := Embed(pre + StaticKeyCode(key)); c != [] && c[|c| - 1] == Constraint(Push(key))
  {
  }

  /** A tuple field keeps its tuple's key kind and root; a static key gets a new last word, which its code pushes last. */
  lemma FieldKeyKind(inner: Outcome<KeyAsm>, tupleTy: Option<Type>, field: TupleAccess)
    requires FieldKey(inner, tupleTy, field).Ok?
    ensures inner.Ok?
    ensures var r := FieldKey(inner, tupleTy, field).value;
      && r.key.isExtern == inner.value.key.isExtern
      && (r.key.kind.Static? <==> inner.value.key.kind.Static?)
      && (r.key.kind.Static? ==>
            && r.key.kind.k0 == inner.value.key.kind.k0 && r.key.kind.k1 == inner.value.key.kind.k1
            && r.key.kind.k2 == inner.value.key.kind.k2
            && r.code != [] && r.code[|r.code| - 1] == Constraint(Push(r.key.kind.k3)))
  {
  }

  /**
   * The key of a map entry: the map's key, then the index, then the
   * length of the hashed data (four key words and the index) and a
   * `Sha256`. It is dynamic and external exactly when the map is.
   */
  lemma IndexKeyCode(ii: IntermediateIntent, dvars: map<nat, seq<nat>>, k: ExprKey)
    requires WellFounded(ii.exprs)
    requires k in ii.exprs && ii.exprs[k].Index? && KeyCode(ii, dvars, k).Ok?
    ensures var e := ii.exprs[k];
      && KeyCode(ii, dvars, e.indexed).Ok? && ExprCode(ii, dvars, e.index).Ok? && e.index in ii.exprTypes
      && KeyCode(ii, dvars, k).value ==
         KeyAsm(KeyCode(ii, dvars, e.indexed).value.code + Embed(ExprCode(ii, dvars, e.index).value)
                  + [Constraint(Push(4 + Size(ii.exprTypes[e.index]))), Constraint(Sha256)],
                StorageKey(Dynamic, KeyCode(ii, dvars, e.indexed).value.key.isExtern))
  {
    var e := ii.exprs[k];
    IndexKeyUnfold(ii, dvars, k);
    EntryKeyOk(KeyCode(ii, dvars, e.indexed), ExprCode(ii, dvars, e.index), TypeOf(ii.exprTypes, e.index));
  }

  /** An entry key is only built from a map key, an index and the index's type, all present. */
  lemma EntryKeyOk(inner: Outcome<KeyAsm>, index: Outcome<seq<Op>>, indexTy: Option<Type>)
    requires EntryKey(inner, index, indexTy).Ok?
    ensures inner.Ok? && index.Ok? && indexTy.Some?
    ensures EntryKey(inner, index, indexTy).value ==
      KeyAsm(inner.value.code + Embed(index.value) + [Constraint(Push(4 + Size(indexTy.value))), Constraint(Sha256)],
             StorageKey(Dynamic, inner.value.key.isExtern))
  {
    assert Embed([Push(4 + Size(indexTy.value)), Sha256]) == [Constraint(Push(4 + Size(indexTy.value))), Constraint(Sha256)];
  }

  /** One step of `KeyCode` on a storage-library call. */
  lemma CallKeyUnfold(ii: IntermediateIntent, dvars: map<nat, seq<nat>>, k: ExprKey)
    requires WellFounded(ii.exprs)
    requires k in ii.exprs && ii.exprs[k].FnCall?
    ensures var name, args := ii.exprs[k].name, ii.exprs[k].args;
      KeyCode(ii, dvars, k) ==
        if EndsWith(name, GetSuffix) then
          if |args| != 1 then Panic(AssertionFailed) else GetKey(ExprCode(ii, dvars, args[0]))
        else if EndsWith(name, GetExternSuffix) then
          if |args| != 2 then Panic(AssertionFailed) else GetExternKey(ExprCode(ii, dvars, args[0]), ExprCode(ii, dvars, args[1]))
        else Panic(Unimplemented)
  {
  }

  /** The code of a binary operation from its operands' outcomes: both operands, then the operator. */
  function BinaryCode(l: Outcome<seq<Op>>, r: Outcome<seq<Op>>, missingType: bool, opc: seq<Op>): Outcome<seq<Op>>
  {
    match l
    case Err(m) => Err(m)
    case Panic(p) => Panic(p)
    case Ok(lc) =>
      match r
      case Err(m) => Err(m)
      case Panic(p) => Panic(p)
      case Ok(rc) => if missingType then Panic(MissingKey) else Ok(lc + rc + opc)
  }

  /** One step of `ExprCode` on a binary operation. */
  lemma BinaryUnfold(ii: IntermediateIntent, dvars: map<nat, seq<nat>>, k: ExprKey)
    requires WellFounded(ii.exprs)
    requires k in ii.exprs && ii.exprs[k].BinaryOpExpr?
    ensures var op, lhs, rhs := ii.exprs[k].op, ii.exprs[k].lhs, ii.exprs[k].rhs;
      ExprCode(ii, dvars, k) ==
        BinaryCode(ExprCode(ii, dvars, lhs), ExprCode(ii, dvars, rhs), op == Equal && lhs !in ii.exprTypes,
                   BinaryOpCode(op, lhs in ii.exprTypes && ii.exprTypes[lhs] == B256))
  {
  }

  /** One step of `ExprCode` on a unary operation whose operand compiles. */
  lemma UnaryUnfold(ii: IntermediateIntent, dvars: map<nat, seq<nat>>, k: ExprKey)
    requires WellFounded(ii.exprs)
    requires k in ii.exprs && ii.exprs[k].UnaryOpExpr? && ExprCode(ii, dvars, ii.exprs[k].operand).Ok?
    ensures ExprCode(ii, dvars, k) == UnaryOpCode(ii.exprs[k].uop, ExprCode(ii, dvars, ii.exprs[k].operand).value)
  {
  }

  /**
   * The next-state rewrite looked up on the whole buffer `asm + own` finds
   * the operand's own final state read, since that code is not empty and
   * a final state access comes with its delta.
   */
  lemma NextStateOnBuffer(asm: seq<Op>, own: seq<Op>)
    requires own != [] && (IsStateAccess(own[|own| - 1]) ==> |own| >= 2)
    ensures var out := asm + own;
      Appended(asm, UnaryOpCode(NextState, own)) ==
        if out == [] || !IsStateAccess(out[|out| - 1]) || |out| < 2 || out[|out| - 2] != Push(0) then Panic(AssertionFailed)
        else Ok(out[|out| - 2 := Push(1)])
  {
    var out := asm + own;
    assert out[|out| - 1] == own[|own| - 1];
    if IsStateAccess(own[|own| - 1]) {
      assert out[|out| - 2] == own[|own| - 2];
      assert out[|out| - 2 := Push(1)] == asm + own[|own| - 2 := Push(1)];
    }
  }

  /** One step of `KeyCode` on a map entry. */
  lemma IndexKeyUnfold(ii: IntermediateIntent, dvars: map<nat, seq<nat>>, k: ExprKey)
    requires WellFounded(ii.exprs)
    requires k in ii.exprs && ii.exprs[k].Index?
    ensures KeyCode(ii, dvars, k)
      == EntryKey(KeyCode(ii, dvars, ii.exprs[k].indexed), ExprCode(ii, dvars, ii.exprs[k].index), TypeOf(ii.exprTypes, ii.exprs[k].index))
  {
  }

  /** Code emitted after earlier code is the entry key built on the map key emitted after it. */
  lemma EntryKeyAppended(pre: seq<StateOp>, inner: Outcome<KeyAsm>, index: Outcome<seq<Op>>, indexTy: Option<Type>)
    ensures AppendedKey(pre, EntryKey(inner, index, indexTy)) == EntryKey(AppendedKey(pre, inner), index, indexTy)
  {
    if inner.Ok? && index.Ok? && indexTy.Some? {
      var tail := Embed(index.value) + Embed([Push(4 + Size(indexTy.value)), Sha256]);
      assert pre + (inner.value.code + Embed(index.value) + Embed([Push(4 + Size(indexTy.value)), Sha256]))
        == (pre + inner.value.code) + Embed(index.value) + Embed([Push(4 + Size(indexTy.value)), Sha256]);
    }
  }

  /** Code appended to nothing is the code itself. */
  lemma AppendedToNothing(o: Outcome<seq<Op>>)
    ensures Appended([], o) == o
  {
    if o.Ok? {
      assert [] + o.value == o.value;
    }
  }

  /** A storage variable's key is three zero words and the sizes of the variables before it. */
  lemma StorageAccessKey(ii: IntermediateIntent, dvars: map<nat, seq<nat>>, k: ExprKey, i: nat)
    requires WellFounded(ii.exprs)
    requires k in ii.exprs && ii.exprs[k].StorageAccess? && ii.storage.Some?
    requires IndexOf(StorageNames(ii.storage.value), ii.exprs[k].name) == Some(i)
    ensures KeyCode(ii, dvars, k) == Ok(KeyAsm(
      [Constraint(Push(0)), Constraint(Push(0)), Constraint(Push(0)), Constraint(Push(StorageKeyOf(ii.storage.value, i)))],
      StorageKey(Static(0, 0, 0, StorageKeyOf(ii.storage.value, i)), false)))
  {
    assert Embed(StaticKeyCode(StorageKeyOf(ii.storage.value, i)))
      == [Constraint(Push(0)), Constraint(Push(0)), Constraint(Push(0)), Constraint(Push(StorageKeyOf(ii.storage.value, i)))];
  }

  // ---------------------------------------------------------------------
  // State-read programs and the whole intent

  /** One state slot: where it starts, how many words it holds, and which program fills it. */
  datatype StateSlot = StateSlot(index: nat, amount: nat, programIndex: nat)

  datatype StateAsm = StateAsm(program: seq<StateOp>, amount: nat)

  /**
   * `compile_state`: the key code, then allocate the data size and read
   * that many words (from external storage when the key is external),
   * then halt.
   */
  function StateProgram(ii: IntermediateIntent, dvars: map<nat, seq<nat>>, st: StateVar): Outcome<StateAsm>
    requires WellFounded(ii.exprs)
  {
    if st.expr !in ii.exprTypes then Panic(MissingKey)
    else
      var size := Size(ii.exprTypes[st.expr]);
      var ka :- KeyCode(ii, dvars, st.expr);
      Ok(StateAsm(ka.code + [Constraint(Push(size)), Alloc, Constraint(Push(size)),
                             if ka.key.isExtern then WordRangeExtern else WordRange, Halt], size))
  }

  /** A run that carries on after reported errors and stops at the first panic. */
  datatype Run<T> = Ran(value: T) | Stopped(reason: string)
  {
    predicate IsFailure() { Stopped? }

    function PropagateFailure<U>(): Run<U>
      requires IsFailure()
    {
      Stopped(reason)
    }

    function Extract(): T
      requires Ran?
    {
      value
    }
  }

  datatype StatesRun = StatesRun(programs: seq<seq<StateOp>>, slots: seq<StateSlot>, next: nat, errors: seq<string>)

  /** The outcome of compiling each state, in order. */
  function StatePrograms(ii: IntermediateIntent, dvars: map<nat, seq<nat>>, sts: seq<StateVar>): (r: seq<Outcome<StateAsm>>)
    requires WellFounded(ii.exprs)
    ensures |r| == |sts| && forall j :: 0 <= j < |sts| ==> r[j] == StateProgram(ii, dvars, sts[j])
  {
    seq(|sts|, j requires 0 <= j < |sts| => StateProgram(ii, dvars, sts[j]))
  }

  /**
   * One turn of the state loop: a state that compiles adds its program and
   * a slot at the current slot index and advances the index by its size;
   * an error is recorded; a panic stops the loop.
   */
  function StatesStep(prev: StatesRun, o: Outcome<StateAsm>): Run<StatesRun>
  {
    match o
    case Ok(p) =>
      Ran(StatesRun(prev.programs + [p.program],
                    prev.slots + [StateSlot(prev.next, p.amount, |prev.programs|)],
                    prev.next + p.amount, prev.errors))
    case Err(m) => Ran(prev.(errors := prev.errors + [m]))
    case Panic(r) => Stopped(r)
  }

  /** The state loop of `intent_to_asm` over the states' outcomes, in order. */
  function RunStatesOf(outs: seq<Outcome<StateAsm>>): Run<StatesRun>
  {
    if outs == [] then Ran(StatesRun([], [], 0, []))
    else
      var prev :- RunStatesOf(outs[..|outs| - 1]);
      StatesStep(prev, outs[|outs| - 1])
  }

  function RunStates(ii: IntermediateIntent, dvars: map<nat, seq<nat>>, sts: seq<StateVar>): Run<StatesRun>
    requires WellFounded(ii.exprs)
  {
    RunStatesOf(StatePrograms(ii, dvars, sts))
  }

  function Amounts(slots: seq<StateSlot>): seq<nat>
  {
    seq(|slots|, i requires 0 <= i < |slots| => slots[i].amount)
  }

  /** Slot `j` points at program `j` and starts where the slots before it end. */
  predicate SlotsLaidOut(slots: seq<StateSlot>)
  {
    forall j :: 0 <= j < |slots| ==> slots[j].programIndex == j && slots[j].index == Sum(Amounts(slots[..j]))
  }

  /** A slot placed where the others end, pointing at the next program, keeps the layout. */
  lemma SlotsLaidOutAppend(slots: seq<StateSlot>, s: StateSlot)
    requires SlotsLaidOut(slots) && s.programIndex == |slots| && s.index == Sum(Amounts(slots))
    ensures SlotsLaidOut(slots + [s])
    ensures Sum(Amounts(slots + [s])) == Sum(Amounts(slots)) + s.amount
  {
    var all := slots + [s];
    assert Amounts(all) == Amounts(slots) + [s.amount];
    SumAppend(Amounts(slots), [s.amount]);
    assert all[..|slots|] == slots;
    forall j | 0 <= j < |slots|
      ensures all[..j] == slots[..j]
    {
    }
  }

  /**
   * The slots of the compiled states are laid out back to back: slot `j`
   * starts where slot `j - 1` ends and points at program `j`.
   */
  lemma {:induction false} RunStatesSlots(outs: seq<Outcome<StateAsm>>)
    requires RunStatesOf(outs).Ran?
    ensures var run := RunStatesOf(outs).value;
      |run.slots| == |run.programs| && run.next == Sum(Amounts(run.slots)) && SlotsLaidOut(run.slots)
    decreases |outs|
  {
    if outs != [] {
      var front := outs[..|outs| - 1];
      RunStatesSlots(front);
      var prev := RunStatesOf(front).value;
      match outs[|outs| - 1]
      case Ok(p) =>
        SlotsLaidOutAppend(prev.slots, StateSlot(prev.next, p.amount, |prev.programs|));
      case Err(_) =>
      case Panic(_) =>
    }
  }

  /**
   * When nothing failed, program `j` is state `j`'s and its slot holds the
   * state's data size; when a state failed, an error was recorded.
   */
  lemma {:induction false} RunStatesPrograms(outs: seq<Outcome<StateAsm>>)
    requires RunStatesOf(outs).Ran?
    ensures var run := RunStatesOf(outs).value;
      && (run.errors == [] ==> |run.programs| == |run.slots| == |outs| && forall j :: 0 <= j < |outs| ==>
            outs[j] == Ok(StateAsm(run.programs[j], run.slots[j].amount)))
      && ((exists j :: 0 <= j < |outs| && outs[j].Err?) ==> run.errors != [])
    decreases |outs|
  {
    if outs != [] {
      var front := outs[..|outs| - 1];
      RunStatesPrograms(front);
      assert forall j :: 0 <= j < |front| ==> front[j] == outs[j];
    }
  }

  /** One more turn of the state loop. */
  lemma RunStatesNext(outs: seq<Outcome<StateAsm>>, i: nat)
    requires i < |outs| && RunStatesOf(outs[..i]).Ran?
    ensures RunStatesOf(outs[..i + 1]) == StatesStep(RunStatesOf(outs[..i]).value, outs[i])
  {
    assert outs[..i + 1][..i] == outs[..i];
  }

  datatype ConstraintsRun = ConstraintsRun(programs: seq<seq<Op>>, errors: seq<string>)

  /** The outcome of compiling each constraint, in order. */
  function ConstraintCodes(ii: IntermediateIntent, dvars: map<nat, seq<nat>>, cs: seq<ExprKey>): (r: seq<Outcome<seq<Op>>>)
    requires WellFounded(ii.exprs)
    ensures |r| == |cs| && forall j :: 0 <= j < |cs| ==> r[j] == ExprCode(ii, dvars, cs[j])
  {
    seq(|cs|, j requires 0 <= j < |cs| => ExprCode(ii, dvars, cs[j]))
  }

  /** One turn of the constraint loop: a constraint that compiles is kept; an error is recorded; a panic stops the loop. */
  function ConstraintsStep(prev: ConstraintsRun, o: Outcome<seq<Op>>): Run<ConstraintsRun>
  {
    match o
    case Ok(c) => Ran(ConstraintsRun(prev.programs + [c], prev.errors))
    case Err(m) => Ran(ConstraintsRun(prev.programs, prev.errors + [m]))
    case Panic(r) => Stopped(r)
  }

  /** The constraint loop of `intent_to_asm` over the constraints' outcomes, in order. */
  function RunConstraintsOf(outs: seq<Outcome<seq<Op>>>): Run<ConstraintsRun>
  {
    if outs == [] then Ran(ConstraintsRun([], []))
    else
      var prev :- RunConstraintsOf(outs[..|outs| - 1]);
      ConstraintsStep(prev, outs[|outs| - 1])
  }

  function RunConstraints(ii: IntermediateIntent, dvars: map<nat, seq<nat>>, cs: seq<ExprKey>): Run<ConstraintsRun>
    requires WellFounded(ii.exprs)
  {
    RunConstraintsOf(ConstraintCodes(ii, dvars, cs))
  }

  /** One more turn of the constraint loop. */
  lemma RunConstraintsNext(outs: seq<Outcome<seq<Op>>>, j: nat)
    requires j < |outs| && RunConstraintsOf(outs[..j]).Ran?
    ensures RunConstraintsOf(outs[..j + 1]) == ConstraintsStep(RunConstraintsOf(outs[..j]).value, outs[j])
  {
    assert outs[..j + 1][..j] == outs[..j];
  }

  /** When nothing failed, program `j` is constraint `j`'s code; when a constraint failed, an error was recorded. */
  lemma {:induction false} RunConstraintsCodes(outs: seq<Outcome<seq<Op>>>)
    requires RunConstraintsOf(outs).Ran?
    ensures var run := RunConstraintsOf(outs).value;
      && (run.errors == [] ==> |run.programs| == |outs| && forall j :: 0 <= j < |outs| ==> outs[j] == Ok(run.programs[j]))
      && ((exists j :: 0 <= j < |outs| && outs[j].Err?) ==> run.errors != [])
    decreases |outs|
  {
    if outs != [] {
      var front := outs[..|outs| - 1];
      RunConstraintsCodes(front);
      assert forall j :: 0 <= j < |front| ==> front[j] == outs[j];
    }
  }

  datatype Directive = Satisfy

  /** The assembled intent; programs are kept as instruction lists rather than bytes. */
  datatype CompiledIntent = CompiledIntent(
    stateSlots: seq<StateSlot>,
    decisionVariables: nat,
    stateRead: seq<seq<StateOp>>,
    constraints: seq<seq<Op>>,
    directive: Directive)

  /** Either the result, or every error reported, or the reason of the panic that aborted compilation. */
  datatype Compiled<T> = Success(value: T) | Errors(msgs: seq<string>) | Aborted(reason: string)

  /** The intent assembled from the states' and the constraints' outcomes: states first, then constraints; any reported error fails it. */
  function Assembled(outs: seq<Outcome<StateAsm>>, couts: seq<Outcome<seq<Op>>>, decisionVars: nat): (r: Compiled<CompiledIntent>)
    ensures r.Errors? ==> r.msgs != []
  {
    match RunStatesOf(outs)
    case Stopped(r) => Aborted(r)
    case Ran(sr) =>
      match RunConstraintsOf(couts)
      case Stopped(r) => Aborted(r)
      case Ran(cr) =>
        if sr.errors + cr.errors != [] then Errors(sr.errors + cr.errors)
        else Success(CompiledIntent(sr.slots, decisionVars, sr.programs, cr.programs, Satisfy))
  }

  /** An assembled intent holds one program and slot per state outcome and one program per constraint outcome; one error fails it. */
  lemma AssembledSuccess(outs: seq<Outcome<StateAsm>>, couts: seq<Outcome<seq<Op>>>, decisionVars: nat)
    ensures var r := Assembled(outs, couts, decisionVars);
      r.Success? ==>
        && r.value.decisionVariables == decisionVars
        && |r.value.stateRead| == |outs| == |r.value.stateSlots|
        && |r.value.constraints| == |couts|
        && (forall j :: 0 <= j < |couts| ==> couts[j] == Ok(r.value.constraints[j]))
        && (forall j :: 0 <= j < |outs| ==> outs[j] == Ok(StateAsm(r.value.stateRead[j], r.value.stateSlots[j].amount)))
        && SlotsLaidOut(r.value.stateSlots)
    ensures (exists j :: 0 <= j < |couts| && couts[j].Err?) ==> !Assembled(outs, couts, decisionVars).Success?
    ensures (exists j :: 0 <= j < |outs| && outs[j].Err?) ==> !Assembled(outs, couts, decisionVars).Success?
  {
    if RunStatesOf(outs).Ran? {
      RunStatesSlots(outs);
      RunStatesPrograms(outs);
      if RunConstraintsOf(couts).Ran? {
        RunConstraintsCodes(couts);
      }
    }
  }

  /** `intent_to_asm`: states first, then constraints; any reported error fails the intent. */
  function IntentSpec(ii: IntermediateIntent): Compiled<CompiledIntent>
    requires WellFounded(ii.exprs)
  {
    var dvars := DVarMap(ii.vars);
    Assembled(StatePrograms(ii, dvars, ii.states), ConstraintCodes(ii, dvars, ii.constraints), Sum(Widths(ii.vars)))
  }

  /**
   * A compiled intent has one state-read program and slot per state, laid
   * out back to back, one constraint program per constraint, each the
   * code of its expression, and as many decision variables as its
   * variables' widths add up to. A state or constraint that reports an
   * error makes the whole intent fail.
   */
  lemma IntentSpecSuccess(ii: IntermediateIntent)
    requires WellFounded(ii.exprs)
    ensures var r := IntentSpec(ii);
      r.Success? ==>
        && r.value.decisionVariables == Sum(Widths(ii.vars))
        && |r.value.stateRead| == |ii.states| == |r.value.stateSlots|
        && |r.value.constraints| == |ii.constraints|
        && (forall j :: 0 <= j < |ii.constraints| ==>
              ExprCode(ii, DVarMap(ii.vars), ii.constraints[j]) == Ok(r.value.constraints[j]))
        && (forall j :: 0 <= j < |ii.states| ==>
              StateProgram(ii, DVarMap(ii.vars), ii.states[j]) == Ok(StateAsm(r.value.stateRead[j], r.value.stateSlots[j].amount)))
        && SlotsLaidOut(r.value.stateSlots)
    ensures (exists j :: 0 <= j < |ii.constraints| && ExprCode(ii, DVarMap(ii.vars), ii.constraints[j]).Err?) ==> !IntentSpec(ii).Success?
    ensures (exists j :: 0 <= j < |ii.states| && StateProgram(ii, DVarMap(ii.vars), ii.states[j]).Err?) ==> !IntentSpec(ii).Success?
  {
    var dvars := DVarMap(ii.vars);
    AssembledSuccess(StatePrograms(ii, dvars, ii.states), ConstraintCodes(ii, dvars, ii.constraints), Sum(Widths(ii.vars)));
  }
}
