/**
 * `pintc`'s assembly builder. The builder collects, field by field, the
 * state-read programs, the constraint programs, the state slots and the
 * map from each decision variable to its word-wide decision variables;
 * `intent_to_asm` drives it over one intent and `program_to_intents` over
 * a whole program. Each method is proved to emit exactly what the
 * functions of `AsmSpec` describe.
 */
module AsmGen {
  import opened Util
  import opened AsmSpec

  const UnwrapNone := "called `Option::unwrap()` on a `None` value"

  class AsmBuilder {
    /** One state-read program per compiled state. */
    var sAsm: seq<seq<StateOp>>
    /** One constraint program per compiled constraint. */
    var cAsm: seq<seq<Op>>
    /** One slot per compiled state. */
    var sSlots: seq<StateSlot>
    /** Variable position to its word-wide decision variables. */
    var varToDVars: map<nat, seq<nat>>

    predicate Valid()
      reads this`varToDVars
    {
      NonEmptyDVars(varToDVars)
    }

    constructor ()
      ensures Valid() && sAsm == [] && cAsm == [] && sSlots == [] && varToDVars == map[]
    {
      sAsm := [];
      cAsm := [];
      sSlots := [];
      varToDVars := map[];
    }

    /**
     * The decision-variable loop of `intent_to_asm`: a `b256` variable gets
     * four consecutive word-wide decision variables, any other one, and the
     * total is their count.
     */
    method AllocateDVars(vars: seq<Var>) returns (total: nat)
      requires varToDVars == map[]
      modifies this`varToDVars
      ensures Valid() && varToDVars == DVarMap(vars) && total == Sum(Widths(vars))
    {
      var d := 0;
      var i := 0;
      while i < |vars|
        invariant 0 <= i <= |vars|
        invariant d == Sum(Widths(vars)[..i])
        invariant varToDVars == DVarMapUpTo(vars, i)
      {
        PrefixSumStep(Widths(vars), i);
        DVarMapUpToStep(vars, i);
        if vars[i].ty == B256 {
          assert DVarRange(d, 4) == [d, d + 1, d + 2, d + 3];
          varToDVars := varToDVars[i := [d, d + 1, d + 2, d + 3]];
          d := d + 4;
        } else {
          assert DVarRange(d, 1) == [d];
          varToDVars := varToDVars[i := [d]];
          d := d + 1;
        }
        i := i + 1;
      }
      assert Widths(vars)[..|vars|] == Widths(vars);
      total := d;
      DVarMapUpToAll(vars);
      DVarMapNonEmpty(vars);
    }

    /**
     * `compile_path`: appends the reads of the named decision variable's
     * words, or of the named state's slot (its index the sum of the sizes
     * of the states before it).
     */
    method CompilePath(ii: IntermediateIntent, asm: seq<Op>, path: string) returns (r: Outcome<seq<Op>>)
      ensures r == Appended(asm, PathCode(ii, varToDVars, path))
    {
      var varIndex := IndexOf(VarNames(ii.vars), path);
      var stateIndex := IndexOf(StateNames(ii.states), path);
      if varIndex.Some? && stateIndex.None? {
        if varIndex.value !in varToDVars {
          return Panic(MissingKey);
        }
        var ds := varToDVars[varIndex.value];
        var out := asm;
        var i := 0;
        while i < |ds|
          invariant 0 <= i <= |ds|
          invariant out == asm + DVarReads(ds[..i])
        {
          assert ds[..i + 1][..i] == ds[..i];
          out := out + [Push(ds[i]), AccessDecisionVar];
          i := i + 1;
        }
        assert ds[..|ds|] == ds;
        r := Ok(out);
      } else if varIndex.None? && stateIndex.Some? {
        var si := stateIndex.value;
        var slot := 0;
        var idx := 0;
        while idx < |ii.states|
          invariant 0 <= idx <= si
          invariant slot == Sum(StateSizes(ii.states)[..idx])
        {
          if idx < si {
            PrefixSumStep(StateSizes(ii.states), idx);
            slot := slot + Size(ii.states[idx].ty);
            idx := idx + 1;
          } else {
            break;
          }
        }
        var size := Size(ii.states[si].ty);
        if size == 1 {
          r := Ok(asm + [Push(slot), Push(0), AccessState]);
        } else {
          r := Ok(asm + [Push(slot), Push(size), Push(0), AccessStateRange]);
        }
      } else {
        r := Panic(Unreachable);
      }
    }

    /**
     * `compile_expr`: appends the code of expression `k` to `asm`. The
     * next-state operator rewrites the second-to-last instruction of the
     * whole of `asm`; that instruction is always the operand's own.
     */
    method CompileExpr(ii: IntermediateIntent, asm: seq<Op>, k: ExprKey) returns (r: Outcome<seq<Op>>)
      requires Valid() && WellFounded(ii.exprs)
      ensures r == Appended(asm, ExprCode(ii, varToDVars, k))
      decreases k, 1
    {
      if k !in ii.exprs {
        return Panic(MissingKey);
      }
      match ii.exprs[k] {
        case Immediate(v) =>
          match v {
            case IntImm(n) =>
              r := Ok(asm + [Push(n)]);
            case B256Imm(w0, w1, w2, w3) =>
              r := Ok(asm + [Push(AsI64(w0)), Push(AsI64(w1)), Push(AsI64(w2)), Push(AsI64(w3))]);
            case OtherImm =>
              r := Panic(Unimplemented);
          }
        case BinaryOpExpr(_, _, _) =>
          r := CompileBinary(ii, asm, k);
        case UnaryOpExpr(_, _) =>
          r := CompileUnary(ii, asm, k);
        case PathByName(path) =>
          r := CompilePath(ii, asm, path);
        case PathByKey(varKey) =>
          var i := IndexOf(VarKeys(ii.vars), varKey);
          if i.None? {
            return Panic(MissingKey);
          }
          r := CompilePath(ii, asm, ii.vars[i.value].name);
        case StorageAccess(_) =>
          r := Err(StorageAccessMsg);
        case ExternalStorageAccess(_, _) =>
          r := Err(StorageAccessMsg);
        case FnCall(name, args) =>
          if EndsWith(name, SenderSuffix) {
            if args != [] {
              return Panic(AssertionFailed);
            }
            r := Err(SenderMsg);
          } else {
            r := Panic(Unimplemented);
          }
        case IfExpr =>
          r := Panic(Unimplemented);
        case Index(_, _) =>
          r := Err(UnexpectedExprMsg);
        case TupleFieldAccess(_, _) =>
          r := Err(UnexpectedExprMsg);
        case Unsupported =>
          r := Err(UnexpectedExprMsg);
      }
    }

    /** A binary operation: both operands' code, then the operator's. */
    method CompileBinary(ii: IntermediateIntent, asm: seq<Op>, k: ExprKey) returns (r: Outcome<seq<Op>>)
      requires Valid() && WellFounded(ii.exprs)
      requires k in ii.exprs && ii.exprs[k].BinaryOpExpr?
      ensures r == Appended(asm, ExprCode(ii, varToDVars, k))
      decreases k, 0
    {
      var op, lhs, rhs := ii.exprs[k].op, ii.exprs[k].lhs, ii.exprs[k].rhs;
      BinaryUnfold(ii, varToDVars, k);
      var l := CompileExpr(ii, asm, lhs);
      if !l.Ok? {
        return l;
      }
      var both := CompileExpr(ii, l.value, rhs);
      if !both.Ok? {
        return both;
      }
      ghost var lc, rc := ExprCode(ii, varToDVars, lhs).value, ExprCode(ii, varToDVars, rhs).value;
      var opc := BinaryOpCode(op, lhs in ii.exprTypes && ii.exprTypes[lhs] == B256);
      r := CompileBinaryOp(asm, lc, rc, both.value, op == Equal && lhs !in ii.exprTypes, opc);
    }

    /** The operator of a binary operation, appended to the buffer `out` holding both operands' code after `asm`. */
    method CompileBinaryOp(asm: seq<Op>, ghost lc: seq<Op>, ghost rc: seq<Op>, out: seq<Op>, missingType: bool, opc: seq<Op>)
      returns (r: Outcome<seq<Op>>)
      requires out == asm + lc + rc
      ensures r == Appended(asm, BinaryCode(Ok(lc), Ok(rc), missingType, opc))
    {
      if missingType {
        return Panic(MissingKey);
      }
      assert out + opc == asm + (lc + rc + opc);
      r := Ok(out + opc);
    }

    /**
     * A unary operation: the operand's code, then `PredNot` for `!`, or, for
     * the next-state operator, the operand's final state read switched from
     * the current state (`Push(0)`) to the next (`Push(1)`).
     */
    method CompileUnary(ii: IntermediateIntent, asm: seq<Op>, k: ExprKey) returns (r: Outcome<seq<Op>>)
      requires Valid() && WellFounded(ii.exprs)
      requires k in ii.exprs && ii.exprs[k].UnaryOpExpr?
      ensures r == Appended(asm, ExprCode(ii, varToDVars, k))
      decreases k, 0
    {
      var uop, operand := ii.exprs[k].uop, ii.exprs[k].operand;
      var c := CompileExpr(ii, asm, operand);
      if !c.Ok? {
        return c;
      }
      CodeShape(ii, varToDVars, operand);
      UnaryUnfold(ii, varToDVars, k);
      r := CompileUnaryOp(uop, asm, ExprCode(ii, varToDVars, operand).value, c.value);
    }

    /** The operator of a unary operation, applied to the buffer `out` holding the operand's code `own` after `asm`. */
    method CompileUnaryOp(uop: UnaryOp, asm: seq<Op>, ghost own: seq<Op>, out: seq<Op>) returns (r: Outcome<seq<Op>>)
      requires out == asm + own
      requires own != [] && (IsStateAccess(own[|own| - 1]) ==> |own| >= 2)
      ensures r == Appended(asm, UnaryOpCode(uop, own))
    {
      match uop {
        case Not =>
          assert out + [PredNot] == asm + (own + [PredNot]);
          r := Ok(out + [PredNot]);
        case NextState =>
          NextStateOnBuffer(asm, own);
          if out == [] || !IsStateAccess(out[|out| - 1]) || |out| < 2 || out[|out| - 2] != Push(0) {
            return Panic(AssertionFailed);
          }
          r := Ok(out[|out| - 2 := Push(1)]);
        case Neg =>
          r := Panic(Unimplemented);
        case UnaryError =>
          r := Panic(Unreachable);
      }
    }

    /** `compile_state_key`: appends to `sAsm` the code computing the storage key of expression `k`. */
    method CompileStateKey(ii: IntermediateIntent, sAsm: seq<StateOp>, k: ExprKey) returns (r: Outcome<KeyAsm>)
      requires Valid() && WellFounded(ii.exprs)
      ensures r == AppendedKey(sAsm, KeyCode(ii, varToDVars, k))
      decreases k, 1
    {
      if k !in ii.exprs {
        return Panic(MissingKey);
      }
      match ii.exprs[k] {
        case FnCall(_, _) =>
          r := CompileCallKey(ii, sAsm, k);
        case StorageAccess(_) =>
          r := CompileStorageKey(ii, sAsm, k);
        case ExternalStorageAccess(_, _) =>
          r := CompileStorageKey(ii, sAsm, k);
        case Index(_, _) =>
          r := CompileIndexKey(ii, sAsm, k);
        case TupleFieldAccess(_, _) =>
          r := CompileFieldKey(ii, sAsm, k);
        case _ =>
          r := Panic(Unreachable);
      }
    }

    /** The storage-library calls: `get(key)` and `get_extern(address, key)`, both dynamic. */
    method CompileCallKey(ii: IntermediateIntent, sAsm: seq<StateOp>, k: ExprKey) returns (r: Outcome<KeyAsm>)
      requires Valid() && WellFounded(ii.exprs)
      requires k in ii.exprs && ii.exprs[k].FnCall?
      ensures r == AppendedKey(sAsm, KeyCode(ii, varToDVars, k))
    {
      var name, args := ii.exprs[k].name, ii.exprs[k].args;
      CallKeyUnfold(ii, varToDVars, k);
      if EndsWith(name, GetSuffix) {
        if |args| != 1 {
          return Panic(AssertionFailed);
        }
        r := CompileGetKey(ii, sAsm, args[0]);
      } else if EndsWith(name, GetExternSuffix) {
        if |args| != 2 {
          return Panic(AssertionFailed);
        }
        r := CompileGetExternKey(ii, sAsm, args[0], args[1]);
      } else {
        r := Panic(Unimplemented);
      }
    }

    /** `get(key)`: the key argument's code. */
    method CompileGetKey(ii: IntermediateIntent, sAsm: seq<StateOp>, key: ExprKey) returns (r: Outcome<KeyAsm>)
      requires Valid() && WellFounded(ii.exprs)
      ensures r == AppendedKey(sAsm, GetKey(ExprCode(ii, varToDVars, key)))
    {
      var c := CompileExpr(ii, [], key);
      AppendedToNothing(ExprCode(ii, varToDVars, key));
      if !c.Ok? {
        return c.PropagateFailure();
      }
      r := Ok(KeyAsm(sAsm + Embed(c.value), StorageKey(Dynamic, false)));
    }

    /** `get_extern(address, key)`: the address argument's code, then the key argument's. */
    method CompileGetExternKey(ii: IntermediateIntent, sAsm: seq<StateOp>, address: ExprKey, key: ExprKey) returns (r: Outcome<KeyAsm>)
      requires Valid() && WellFounded(ii.exprs)
      ensures r == AppendedKey(sAsm, GetExternKey(ExprCode(ii, varToDVars, address), ExprCode(ii, varToDVars, key)))
    {
      var a := CompileExpr(ii, [], address);
      AppendedToNothing(ExprCode(ii, varToDVars, address));
      if !a.Ok? {
        return a.PropagateFailure();
      }
      var ab := CompileExpr(ii, a.value, key);
      if !ab.Ok? {
        return ab.PropagateFailure();
      }
      r := Ok(KeyAsm(sAsm + Embed(ab.value), StorageKey(Dynamic, true)));
    }

    /** A variable of the storage block or of an `extern` block: a static key, its base the sizes of the variables before it. */
    method CompileStorageKey(ii: IntermediateIntent, sAsm: seq<StateOp>, k: ExprKey) returns (r: Outcome<KeyAsm>)
      requires WellFounded(ii.exprs)
      requires k in ii.exprs && (ii.exprs[k].StorageAccess? || ii.exprs[k].ExternalStorageAccess?)
      ensures r == AppendedKey(sAsm, KeyCode(ii, varToDVars, k))
    {
      if ii.exprs[k].StorageAccess? {
        if ii.storage.None? {
          return Panic(MissingKey);
        }
        var vs := ii.storage.value;
        var pos := IndexOf(StorageNames(vs), ii.exprs[k].name);
        if pos.None? {
          return Panic(MissingKey);
        }
        var key := StorageKeyOf(vs, pos.value);
        var code := [Constraint(Push(0)), Constraint(Push(0)), Constraint(Push(0)), Constraint(Push(key))];
        assert Embed(StaticKeyCode(key)) == code;
        r := Ok(KeyAsm(sAsm + code, StorageKey(Static(0, 0, 0, key), false)));
      } else {
        var e := IndexOf(ExternNames(ii.externs), ii.exprs[k].externPath);
        if e.None? {
          return Panic(MissingKey);
        }
        var ext := ii.externs[e.value];
        var pos := IndexOf(StorageNames(ext.storageVars), ii.exprs[k].name);
        if pos.None? {
          return Panic(MissingKey);
        }
        var key := StorageKeyOf(ext.storageVars, pos.value);
        if !ext.address.B256Imm? {
          return Panic(AssertionFailed);
        }
        var a := ext.address;
        var code := [Constraint(Push(AsI64(a.w0))), Constraint(Push(AsI64(a.w1))),
                     Constraint(Push(AsI64(a.w2))), Constraint(Push(AsI64(a.w3))),
                     Constraint(Push(0)), Constraint(Push(0)), Constraint(Push(0)), Constraint(Push(key))];
        assert Embed(B256Pushes(a) + StaticKeyCode(key)) == code;
        r := Ok(KeyAsm(sAsm + code, StorageKey(Static(0, 0, 0, key), true)));
      }
    }

    /** A map entry: the map's key, the index, then a `Sha256` over both. */
    method CompileIndexKey(ii: IntermediateIntent, sAsm: seq<StateOp>, k: ExprKey) returns (r: Outcome<KeyAsm>)
      requires Valid() && WellFounded(ii.exprs)
      requires k in ii.exprs && ii.exprs[k].Index?
      ensures r == AppendedKey(sAsm, KeyCode(ii, varToDVars, k))
      decreases k, 0
    {
      var indexed, index := ii.exprs[k].indexed, ii.exprs[k].index;
      IndexKeyUnfold(ii, varToDVars, k);
      EntryKeyAppended(sAsm, KeyCode(ii, varToDVars, indexed), ExprCode(ii, varToDVars, index), TypeOf(ii.exprTypes, index));
      var inner := CompileStateKey(ii, sAsm, indexed);
      if !inner.Ok? {
        return inner;
      }
      var c := CompileExpr(ii, [], index);
      AppendedToNothing(ExprCode(ii, varToDVars, index));
      if !c.Ok? {
        return c.PropagateFailure();
      }
      if index !in ii.exprTypes {
        return Panic(MissingKey);
      }
      r := Ok(KeyAsm(inner.value.code + Embed(c.value) + Embed([Push(4 + Size(ii.exprTypes[index])), Sha256]),
                     StorageKey(Dynamic, inner.value.key.isExtern)));
    }

    /** A tuple field: the tuple's key moved on by the field's offset. */
    method CompileFieldKey(ii: IntermediateIntent, sAsm: seq<StateOp>, k: ExprKey) returns (r: Outcome<KeyAsm>)
      requires Valid() && WellFounded(ii.exprs)
      requires k in ii.exprs && ii.exprs[k].TupleFieldAccess?
      ensures r == AppendedKey(sAsm, KeyCode(ii, varToDVars, k))
      decreases k, 0
    {
      var tuple, field := ii.exprs[k].tuple, ii.exprs[k].field;
      FieldKeyUnfold(ii, varToDVars, k);
      var inner := CompileStateKey(ii, sAsm, tuple);
      r := CompileFieldOffset(sAsm, KeyCode(ii, varToDVars, tuple), inner, TypeOf(ii.exprTypes, tuple), field);
    }

    /** Moves the tuple's key `inner` (the key `own` emitted after `sAsm`) on to the field. */
    method CompileFieldOffset(sAsm: seq<StateOp>, ghost own: Outcome<KeyAsm>, inner: Outcome<KeyAsm>,
                              tupleTy: Option<Type>, field: TupleAccess) returns (r: Outcome<KeyAsm>)
      requires inner == AppendedKey(sAsm, own)
      ensures r == AppendedKey(sAsm, FieldKey(own, tupleTy, field))
    {
      if !inner.Ok? {
        return inner;
      }
      if tupleTy.None? || !tupleTy.value.Tuple? {
        return Panic(AssertionFailed);
      }
      var t := tupleTy.value;
      var i := FieldPosition(t.names, field);
      if !i.Ok? {
        return i.PropagateFailure();
      }
      var offset := FieldOffset(t.tys, i.value);
      match inner.value.key.kind {
        case Dynamic =>
          var code := [Constraint(Push(offset)), Constraint(AluAdd)];
          assert Embed([Push(offset), AluAdd]) == code;
          assert inner.value.code + code == sAsm + (own.value.code + code);
          r := Ok(KeyAsm(inner.value.code + code, StorageKey(Dynamic, inner.value.key.isExtern)));
        case Static(k0, k1, k2, k3) =>
          var code := [Constraint(Pop), Constraint(Push(k3 + offset))];
          assert Embed([Pop, Push(k3 + offset)]) == code;
          assert inner.value.code + code == sAsm + (own.value.code + code);
          r := Ok(KeyAsm(inner.value.code + code, StorageKey(Static(k0, k1, k2, k3 + offset), inner.value.key.isExtern)));
      }
    }

    /** `compile_constraint`: compiles the constraint into a fresh program and keeps it only when that succeeds. */
    method CompileConstraint(ii: IntermediateIntent, k: ExprKey) returns (r: Outcome<()>)
      requires Valid() && WellFounded(ii.exprs)
      modifies this`cAsm
      ensures r == Drop(ExprCode(ii, varToDVars, k))
      ensures cAsm == if r.Ok? then old(cAsm) + [ExprCode(ii, varToDVars, k).value] else old(cAsm)
    {
      var asm := CompileExpr(ii, [], k);
      if !asm.Ok? {
        return Drop(asm);
      }
      assert asm.value == ExprCode(ii, varToDVars, k).value;
      cAsm := cAsm + [asm.value];
      r := Ok(());
    }

    /**
     * `compile_state`: compiles the state's read program; when that
     * succeeds, keeps it and adds a slot starting at `slotIdx`, holding the
     * data size and pointing at the new program, and advances the slot
     * index by the data size.
     */
    method CompileState(ii: IntermediateIntent, st: StateVar, slotIdx: nat) returns (r: Outcome<()>, nextSlot: nat)
      requires Valid() && WellFounded(ii.exprs)
      modifies this`sAsm, this`sSlots
      ensures r == Drop(StateProgram(ii, varToDVars, st))
      ensures r.Ok? ==>
        var p := StateProgram(ii, varToDVars, st).value;
        && sAsm == old(sAsm) + [p.program]
        && sSlots == old(sSlots) + [StateSlot(slotIdx, p.amount, |old(sAsm)|)]
        && nextSlot == slotIdx + p.amount
      ensures !r.Ok? ==> sAsm == old(sAsm) && sSlots == old(sSlots) && nextSlot == slotIdx
    {
      if st.expr !in ii.exprTypes {
        return Panic(MissingKey), slotIdx;
      }
      var dataSize := Size(ii.exprTypes[st.expr]);
      var key := CompileStateKey(ii, [], st.expr);
      if !key.Ok? {
        return Drop(key), slotIdx;
      }
      assert key.value.code == KeyCode(ii, varToDVars, st.expr).value.code;
      var program := key.value.code + [Constraint(Push(dataSize)), Alloc, Constraint(Push(dataSize)),
                                       if key.value.key.isExtern then WordRangeExtern else WordRange, Halt];
      sAsm := sAsm + [program];
      sSlots := sSlots + [StateSlot(slotIdx, dataSize, |sAsm| - 1)];
      nextSlot := slotIdx + dataSize;
      r := Ok(());
    }

    /** One turn of the state loop: compiles the state and records the outcome as the loop does. */
    method StateTurn(ii: IntermediateIntent, st: StateVar, slotIdx: nat, errors: seq<string>) returns (run: Run<StatesRun>)
      requires Valid() && WellFounded(ii.exprs)
      modifies this`sAsm, this`sSlots
      ensures run == StatesStep(StatesRun(old(sAsm), old(sSlots), slotIdx, errors), StateProgram(ii, varToDVars, st))
      ensures run.Ran? ==> sAsm == run.value.programs && sSlots == run.value.slots
    {
      var res, next := CompileState(ii, st, slotIdx);
      match res {
        case Ok(_) =>
          run := Ran(StatesRun(sAsm, sSlots, next, errors));
        case Err(m) =>
          run := Ran(StatesRun(sAsm, sSlots, next, errors + [m]));
        case Panic(reason) =>
          run := Stopped(reason);
      }
    }

    /**
     * The state loop of `intent_to_asm`: compiles every state in order,
     * recording errors and carrying on, stopping at the first panic.
     */
    method CompileStates(ii: IntermediateIntent) returns (run: Run<StatesRun>)
      requires Valid() && WellFounded(ii.exprs) && sAsm == [] && sSlots == []
      modifies this`sAsm, this`sSlots
      ensures run == RunStates(ii, varToDVars, ii.states)
      ensures run.Ran? ==> sAsm == run.value.programs && sSlots == run.value.slots
    {
      var errors: seq<string> := [];
      var slotIdx: nat := 0;
      ghost var outs := StatePrograms(ii, varToDVars, ii.states);
      var i := 0;
      while i < |ii.states|
        invariant 0 <= i <= |ii.states|
        invariant RunStatesOf(outs[..i]) == Ran(StatesRun(sAsm, sSlots, slotIdx, errors))
      {
        RunStatesNext(outs, i);
        var turn := StateTurn(ii, ii.states[i], slotIdx, errors);
        if turn.Stopped? {
          RunStatesStopped(outs, i + 1);
          return turn;
        }
        slotIdx := turn.value.next;
        errors := turn.value.errors;
        i := i + 1;
      }
      assert outs[..|outs|] == outs;
      run := Ran(StatesRun(sAsm, sSlots, slotIdx, errors));
    }

    /** One turn of the constraint loop: compiles the constraint and records the outcome as the loop does. */
    method ConstraintTurn(ii: IntermediateIntent, k: ExprKey, errors: seq<string>) returns (run: Run<ConstraintsRun>)
      requires Valid() && WellFounded(ii.exprs)
      modifies this`cAsm
      ensures run == ConstraintsStep(ConstraintsRun(old(cAsm), errors), ExprCode(ii, varToDVars, k))
      ensures run.Ran? ==> cAsm == run.value.programs
    {
      var res := CompileConstraint(ii, k);
      match res {
        case Ok(_) =>
          run := Ran(ConstraintsRun(cAsm, errors));
        case Err(m) =>
          run := Ran(ConstraintsRun(cAsm, errors + [m]));
        case Panic(reason) =>
          run := Stopped(reason);
      }
    }

    /** Turn `j` of the constraint loop, stated against the outcomes of all the constraints. */
    method ConstraintLoopTurn(ii: IntermediateIntent, ghost outs: seq<Outcome<seq<Op>>>, j: nat, errors: seq<string>)
      returns (turn: Run<ConstraintsRun>)
      requires Valid() && WellFounded(ii.exprs)
      requires outs == ConstraintCodes(ii, varToDVars, ii.constraints) && j < |ii.constraints|
      requires RunConstraintsOf(outs[..j]) == Ran(ConstraintsRun(cAsm, errors))
      modifies this`cAsm
      ensures turn.Stopped? ==> turn == RunConstraintsOf(outs)
      ensures turn.Ran? ==> RunConstraintsOf(outs[..j + 1]) == Ran(ConstraintsRun(cAsm, turn.value.errors))
    {
      RunConstraintsNext(outs, j);
      turn := ConstraintTurn(ii, ii.constraints[j], errors);
      if turn.Stopped? {
        RunConstraintsStopped(outs, j + 1);
      }
    }

    /**
     * The constraint loop of `intent_to_asm`: compiles every constraint in
     * order, recording errors and carrying on, stopping at the first panic.
     */
    method CompileConstraints(ii: IntermediateIntent) returns (run: Run<ConstraintsRun>)
      requires Valid() && WellFounded(ii.exprs) && cAsm == []
      modifies this`cAsm
      ensures run == RunConstraints(ii, varToDVars, ii.constraints)
      ensures run.Ran? ==> cAsm == run.value.programs
    {
      var errors: seq<string> := [];
      ghost var outs := ConstraintCodes(ii, varToDVars, ii.constraints);
      var j := 0;
      while j < |ii.constraints|
        invariant 0 <= j <= |ii.constraints|
        invariant RunConstraintsOf(outs[..j]) == Ran(ConstraintsRun(cAsm, errors))
      {
        var turn := ConstraintLoopTurn(ii, outs, j, errors);
        if turn.Stopped? {
          return turn;
        }
        errors := turn.value.errors;
        j := j + 1;
      }
      assert outs[..|outs|] == outs;
      run := Ran(ConstraintsRun(cAsm, errors));
    }
  }

  /** Once a panic stops the state loop, the later states change nothing. */
  lemma {:induction false} RunStatesStopped(outs: seq<Outcome<StateAsm>>, n: nat)
    requires n <= |outs| && RunStatesOf(outs[..n]).Stopped?
    ensures RunStatesOf(outs) == RunStatesOf(outs[..n])
    decreases |outs| - n
  {
    if n < |outs| {
      assert outs[..n + 1][..n] == outs[..n];
      RunStatesStopped(outs, n + 1);
    } else {
      assert outs[..n] == outs;
    }
  }

  /** Once a panic stops the constraint loop, the later constraints change nothing. */
  lemma {:induction false} RunConstraintsStopped(outs: seq<Outcome<seq<Op>>>, n: nat)
    requires n <= |outs| && RunConstraintsOf(outs[..n]).Stopped?
    ensures RunConstraintsOf(outs) == RunConstraintsOf(outs[..n])
    decreases |outs| - n
  {
    if n < |outs| {
      assert outs[..n + 1][..n] == outs[..n];
      RunConstraintsStopped(outs, n + 1);
    } else {
      assert outs[..n] == outs;
    }
  }

  /**
   * `intent_to_asm`: allocates the decision variables, compiles every
   * state and then every constraint (an error is recorded and compilation
   * carries on; a panic aborts), and fails if any error was recorded.
   */
  method IntentToAsm(ii: IntermediateIntent) returns (r: Compiled<CompiledIntent>)
    requires WellFounded(ii.exprs)
    ensures r == IntentSpec(ii)
  {
    var builder := new AsmBuilder();
    var total := builder.AllocateDVars(ii.vars);
    var states := builder.CompileStates(ii);
    if states.Stopped? {
      return Aborted(states.reason);
    }
    var constraints := builder.CompileConstraints(ii);
    if constraints.Stopped? {
      return Aborted(constraints.reason);
    }
    var errors := states.value.errors + constraints.value.errors;
    if errors != [] {
      return Errors(errors);
    }
    r := Success(CompiledIntent(builder.sSlots, total, builder.sAsm, builder.cAsm, Satisfy));
  }

  datatype ProgramKind = Stateless | Stateful

  /** A program: its kind and its intermediate intents, by name in name order. */
  datatype Program = Program(kind: ProgramKind, iis: seq<(string, IntermediateIntent)>)

  datatype Intents = Intents(kind: ProgramKind, intents: map<string, CompiledIntent>)

  /** The intents `program_to_intents` compiles: the first one of a stateless program, every one but the root of a stateful one. */
  predicate Selected(p: Program, rootName: string, i: int)
  {
    0 <= i < |p.iis| && (if p.kind == Stateless then i == 0 else p.iis[i].0 != rootName)
  }

  predicate AllWellFounded(p: Program)
  {
    forall i :: 0 <= i < |p.iis| ==> WellFounded(p.iis[i].1.exprs)
  }

  /** What `intent_to_asm` makes of each intent of the program, in order. */
  function Results(p: Program): (rs: seq<Compiled<CompiledIntent>>)
    requires AllWellFounded(p)
    ensures |rs| == |p.iis| && forall i :: 0 <= i < |p.iis| ==> rs[i] == IntentSpec(p.iis[i].1)
  {
    seq(|p.iis|, i requires 0 <= i < |p.iis| => IntentSpec(p.iis[i].1))
  }

  /** No intent selected among the first `n` aborts. */
  predicate NoneAborted(p: Program, rootName: string, rs: seq<Compiled<CompiledIntent>>, n: nat)
    requires n <= |rs|
  {
    forall i :: 0 <= i < n && Selected(p, rootName, i) ==> !rs[i].Aborted?
  }

  /** Some intent selected among the first `n` reports errors. */
  predicate SomeErrors(p: Program, rootName: string, rs: seq<Compiled<CompiledIntent>>, n: nat)
    requires n <= |rs|
  {
    exists i :: 0 <= i < n && Selected(p, rootName, i) && rs[i].Errors?
  }

  /** `intents` holds, under its name, exactly each intent selected among the first `n` that compiled. */
  predicate Collected(p: Program, rootName: string, rs: seq<Compiled<CompiledIntent>>, n: nat, intents: map<string, CompiledIntent>)
    requires n <= |rs| == |p.iis|
  {
    && (forall i :: 0 <= i < n && Selected(p, rootName, i) && rs[i].Success? ==>
          p.iis[i].0 in intents && intents[p.iis[i].0] == rs[i].value)
    && (forall name :: name in intents ==>
          exists i :: 0 <= i < n && Selected(p, rootName, i) && rs[i].Success? && p.iis[i].0 == name)
  }

  lemma NoneAbortedStep(p: Program, rootName: string, rs: seq<Compiled<CompiledIntent>>, i: nat)
    requires i < |rs|
    ensures NoneAborted(p, rootName, rs, i + 1) <==>
      NoneAborted(p, rootName, rs, i) && !(Selected(p, rootName, i) && rs[i].Aborted?)
  {
  }

  lemma SomeErrorsStep(p: Program, rootName: string, rs: seq<Compiled<CompiledIntent>>, i: nat)
    requires i < |rs|
    ensures SomeErrors(p, rootName, rs, i + 1) <==>
      SomeErrors(p, rootName, rs, i) || (Selected(p, rootName, i) && rs[i].Errors?)
  {
  }

  /** Names are distinct, so keeping intent `i` under its name disturbs none kept before. */
  lemma CollectedStep(p: Program, rootName: string, rs: seq<Compiled<CompiledIntent>>, i: nat, intents: map<string, CompiledIntent>)
    requires i < |rs| == |p.iis|
    requires forall a, b :: 0 <= a < b < |p.iis| ==> p.iis[a].0 != p.iis[b].0
    requires Collected(p, rootName, rs, i, intents)
    ensures Selected(p, rootName, i) && rs[i].Success? ==>
      Collected(p, rootName, rs, i + 1, intents[p.iis[i].0 := rs[i].value])
    ensures !(Selected(p, rootName, i) && rs[i].Success?) ==>
      Collected(p, rootName, rs, i + 1, intents)
  {
    if Selected(p, rootName, i) && rs[i].Success? {
      var m := intents[p.iis[i].0 := rs[i].value];
      forall name | name in m
        ensures exists j :: 0 <= j < i + 1 && Selected(p, rootName, j) && rs[j].Success? && p.iis[j].0 == name
      {
        if name != p.iis[i].0 {
          assert name in intents;
        }
      }
    }
  }

  /**
   * The loop of `program_to_intents` over a stateful program: every intent
   * but the root is compiled in name order; one that compiles is kept under
   * its name, one that reports errors adds them, and a panic stops the loop.
   */
  method CompileStateful(p: Program, rootName: string) returns (aborted: Option<string>, intents: map<string, CompiledIntent>, errors: seq<string>)
    requires AllWellFounded(p) && p.kind == Stateful
    requires forall i, j :: 0 <= i < j < |p.iis| ==> p.iis[i].0 != p.iis[j].0
    ensures aborted.Some? <==> !NoneAborted(p, rootName, Results(p), |p.iis|)
    ensures aborted.None? ==>
      && (errors != [] <==> SomeErrors(p, rootName, Results(p), |p.iis|))
      && Collected(p, rootName, Results(p), |p.iis|, intents)
  {
    ghost var rs := Results(p);
    intents := map[];
    errors := [];
    var i := 0;
    while i < |p.iis|
      invariant 0 <= i <= |p.iis|
      invariant NoneAborted(p, rootName, rs, i)
      invariant errors != [] <==> SomeErrors(p, rootName, rs, i)
      invariant Collected(p, rootName, rs, i, intents)
    {
      var stop;
      stop, intents, errors := CompileSelected(p, rootName, rs, i, intents, errors);
      if stop.Some? {
        return stop, intents, errors;
      }
      i := i + 1;
    }
    aborted := None;
  }

  /** One turn of `CompileStateful`: compiles intent `i` when it is selected and adds its outcome. */
  method CompileSelected(p: Program, rootName: string, ghost rs: seq<Compiled<CompiledIntent>>, i: nat,
                         intents: map<string, CompiledIntent>, errors: seq<string>)
    returns (stop: Option<string>, intents': map<string, CompiledIntent>, errors': seq<string>)
    requires AllWellFounded(p) && p.kind == Stateful && i < |p.iis| && rs == Results(p)
    requires forall a, b :: 0 <= a < b < |p.iis| ==> p.iis[a].0 != p.iis[b].0
    requires NoneAborted(p, rootName, rs, i)
    requires errors != [] <==> SomeErrors(p, rootName, rs, i)
    requires Collected(p, rootName, rs, i, intents)
    ensures stop.Some? <==> !NoneAborted(p, rootName, rs, i + 1)
    ensures stop.None? ==>
      && (errors' != [] <==> SomeErrors(p, rootName, rs, i + 1))
      && Collected(p, rootName, rs, i + 1, intents')
  {
    NoneAbortedStep(p, rootName, rs, i);
    SomeErrorsStep(p, rootName, rs, i);
    CollectedStep(p, rootName, rs, i, intents);
    stop, intents', errors' := None, intents, errors;
    if p.iis[i].0 != rootName {
      var c := IntentToAsm(p.iis[i].1);
      assert c == rs[i];
      match c {
        case Success(v) =>
          intents' := intents[p.iis[i].0 := v];
        case Errors(ms) =>
          errors' := errors + ms;
        case Aborted(reason) =>
          stop := Some(reason);
      }
    }
  }

  /**
   * `program_to_intents`: compiles the selected intents and keeps those
   * that succeed, under their names; the program fails if any of them
   * reported an error, and aborts if any of them panicked (or a stateless
   * program has no intent at all).
   */
  method ProgramToIntents(p: Program, rootName: string) returns (r: Compiled<Intents>)
    requires AllWellFounded(p)
    requires forall i, j :: 0 <= i < j < |p.iis| ==> p.iis[i].0 != p.iis[j].0
    ensures r.Aborted? <==> (p.kind == Stateless && p.iis == []) || !NoneAborted(p, rootName, Results(p), |p.iis|)
    ensures r.Errors? <==> !r.Aborted? && SomeErrors(p, rootName, Results(p), |p.iis|)
    ensures r.Success? ==> r.value.kind == p.kind && Collected(p, rootName, Results(p), |p.iis|, r.value.intents)
  {
    var intents: map<string, CompiledIntent> := map[];
    var errors: seq<string> := [];
    if p.kind == Stateless {
      if p.iis == [] {
        return Aborted(UnwrapNone);
      }
      var c := IntentToAsm(p.iis[0].1);
      assert c == Results(p)[0];
      match c {
        case Success(v) =>
          intents := map[p.iis[0].0 := v];
        case Errors(ms) =>
          errors := ms;
        case Aborted(reason) =>
          return Aborted(reason);
      }
    } else {
      var aborted;
      aborted, intents, errors := CompileStateful(p, rootName);
      if aborted.Some? {
        return Aborted(aborted.value);
      }
    }
    if errors != [] {
      return Errors(errors);
    }
    r := Success(Intents(p.kind, intents));
  }
}
