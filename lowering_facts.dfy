/**
 * Properties of the lowering: the order in which the pushed instructions run, how many
 * operator instructions an infix chain gets, what target mode changes, which depths a
 * checkpoint captures, and which constructs abort.
 */
module LoweringFacts {
  import opened Wrappers
  import opened Syntax
  import opened Lowering

  // ---------------------------------------------------------------------------
  // Blocks and expression statements
  // ---------------------------------------------------------------------------

  /** A block runs `block_push`, its statements in source order, then `block_pop`. */
  lemma BlockRunsInOrder(ss: seq<Stmt>, t: bool, d: Depths)
    ensures StmtStep(Block(ss), t, d).err == None
    ensures StmtStep(Block(ss), t, d).target == t
    ensures Reverse(StmtStep(Block(ss), t, d).pushed) == [BlockPush] + DecodeStmts(ss) + [BlockPop]
  {
    ReverseConcat([BlockPop] + AddStmtsReversed(ss), [BlockPush]);
    ReverseConcat([BlockPop], AddStmtsReversed(ss));
    AddStmtsReversedRuns(ss);
  }

  /** An expression statement discards its value (a `pop` runs after it) unless it sits
      inside an expression or is a plain method invocation returning `void`. */
  lemma ExpressionStatementDiscards(x: Expr, p: bool, t: bool, d: Depths)
    ensures StmtStep(ExpressionStatement(x, p), t, d).err == None
    ensures Reverse(StmtStep(ExpressionStatement(x, p), t, d).pushed)
            == [DecodeExpr(x)] + (if p || (x.MethodInvocation? && x.callee.returnsVoid) then [] else [Pop])
    ensures Pop in StmtStep(ExpressionStatement(x, p), t, d).pushed
            <==> !p && !(x.MethodInvocation? && x.callee.returnsVoid)
  {
    var keep := KeepsResult(x, p);
    ReverseConcat(if keep then [] else [Pop], [DecodeExpr(x)]);
  }

  /** A `super.m()` statement gets its `pop` even when `m` returns `void`. */
  lemma SuperCallStatementPops(m: MethodBinding, args: seq<Expr>, t: bool, d: Depths)
    ensures StmtStep(ExpressionStatement(SuperMethodInvocation(m, args), false), t, d).pushed
            == [Pop, DecodeExpr(SuperMethodInvocation(m, args))]
  {
  }

  // ---------------------------------------------------------------------------
  // Infix chains
  // ---------------------------------------------------------------------------

  /** Execution order of the operands after the first of a left fold: each operand, then the operator. */
  function LeftFold(es: seq<Expr>, k: BinaryInstr): seq<Instr>
  {
    if es == [] then [] else [DecodeExpr(es[0]), Binary(k)] + LeftFold(es[1..], k)
  }

  lemma {:induction false} LeftFoldSnoc(es: seq<Expr>, y: Expr, k: BinaryInstr)
    ensures LeftFold(es + [y], k) == LeftFold(es, k) + [DecodeExpr(y), Binary(k)]
  {
    if es != [] {
      assert (es + [y])[1..] == es[1..] + [y];
      LeftFoldSnoc(es[1..], y, k);
    }
  }

  lemma {:induction false} LeftFoldCount(es: seq<Expr>, k: BinaryInstr)
    ensures multiset(LeftFold(es, k))[Binary(k)] == |es|
  {
    if es != [] {
      LeftFoldCount(es[1..], k);
    }
  }

  lemma {:induction false} InfixMiddleRuns(ms: seq<Expr>, k: BinaryInstr)
    ensures Reverse(InfixMiddle(ms, k)) == LeftFold(ms, k)
  {
    if ms != [] {
      InfixMiddleRuns(ms[1..], k);
      ReverseConcat(InfixMiddle(ms[1..], k), [Binary(k), DecodeExpr(ms[0])]);
    }
  }

  lemma InfixPushesRun(l: Expr, mid: seq<Expr>, last: Expr, k: BinaryInstr)
    ensures Reverse([Binary(k), DecodeExpr(last)] + InfixMiddle(mid, k) + [DecodeExpr(l)])
            == [DecodeExpr(l)] + LeftFold(mid + [last], k)
  {
    var head := [Binary(k), DecodeExpr(last)];
    ReverseConcat(head + InfixMiddle(mid, k), [DecodeExpr(l)]);
    ReverseConcat(head, InfixMiddle(mid, k));
    assert Reverse(head) == [DecodeExpr(last), Binary(k)];
    assert Reverse([DecodeExpr(l)]) == [DecodeExpr(l)];
    InfixMiddleRuns(mid, k);
    LeftFoldSnoc(mid, last, k);
  }

  /** `e1 op e2 op ... op ek` runs e1, e2, op, e3, op, ..., ek, op. */
  lemma InfixRunsAsLeftFold(op: InfixOp, l: Expr, r: Expr, ext: seq<Expr>, t: bool)
    ensures ExprStep(Infix(op, l, r, ext), t).err == None
    ensures Reverse(ExprStep(Infix(op, l, r, ext), t).pushed) == [DecodeExpr(l)] + LeftFold([r] + ext, InfixInstr(op))
  {
    var es := [l, r] + ext;
    var k := InfixInstr(op);
    var mid := es[1..|es| - 1];
    var pushed := [Binary(k), DecodeExpr(es[|es| - 1])] + InfixMiddle(mid, k) + [DecodeExpr(l)];
    assert ExprStep(Infix(op, l, r, ext), t) == Emit(pushed, t);
    InfixPushesRun(l, mid, es[|es| - 1], k);
    assert es[1..] == [r] + ext;
    assert mid + [es[|es| - 1]] == es[1..];
  }

  lemma LeftFoldRunCount(pushed: seq<Instr>, l: Expr, xs: seq<Expr>, k: BinaryInstr)
    requires Reverse(pushed) == [DecodeExpr(l)] + LeftFold(xs, k)
    ensures multiset(pushed)[Binary(k)] == |xs|
  {
    ReverseMultiset(pushed);
    LeftFoldCount(xs, k);
  }

  /** A chain of k operands gets exactly k - 1 operator instructions. */
  lemma InfixOperatorCount(op: InfixOp, l: Expr, r: Expr, ext: seq<Expr>, t: bool)
    ensures multiset(ExprStep(Infix(op, l, r, ext), t).pushed)[Binary(InfixInstr(op))] == |ext| + 1
  {
    InfixRunsAsLeftFold(op, l, r, ext, t);
    LeftFoldRunCount(ExprStep(Infix(op, l, r, ext), t).pushed, l, [r] + ext, InfixInstr(op));
  }

  /** `&&` and `||` lower exactly like `&` and `|`: both operands always run. */
  lemma ConditionalOperatorsDoNotShortCircuit(l: Expr, r: Expr, ext: seq<Expr>, t: bool)
    ensures ExprStep(Infix(ConditionalAnd, l, r, ext), t) == ExprStep(Infix(And, l, r, ext), t)
    ensures ExprStep(Infix(ConditionalOr, l, r, ext), t) == ExprStep(Infix(Or, l, r, ext), t)
  {
    InfixRuns(ConditionalAnd, l, r, ext, t);
    InfixRuns(And, l, r, ext, t);
    InfixRuns(ConditionalOr, l, r, ext, t);
    InfixRuns(Or, l, r, ext, t);
  }

  /** An infix expression pushes its operands and one binary instruction per operator. */
  lemma InfixRuns(op: InfixOp, l: Expr, r: Expr, ext: seq<Expr>, t: bool)
    ensures ExprStep(Infix(op, l, r, ext), t) == Step(InfixPushes([l, r] + ext, InfixInstr(op)), t, None)
  {
    assert ExprStep(Infix(op, l, r, ext), t) == NodeStep(Infix(op, l, r, ext), t);
  }

  // ---------------------------------------------------------------------------
  // Updates: postfix, prefix, assignment
  // ---------------------------------------------------------------------------

  /** `x++` / `x--` run: x, x, push 1, add/sub, then the target code (the store). The
      first value of x stays on the operand stack, so the result is the old value. */
  lemma PostfixRuns(op: PostfixOp, x: Expr, t: bool)
    requires ExprStep(x, true).err.None?
    ensures ExprStep(Postfix(op, x), t).err == None
    ensures !ExprStep(Postfix(op, x), t).target
    ensures Reverse(ExprStep(Postfix(op, x), t).pushed)
            == [DecodeExpr(x), DecodeExpr(x), PushInt(1), Binary(IncDecInstr(op == PostIncrement))]
               + Reverse(ExprStep(x, true).pushed)
  {
    var target := ExprStep(x, true).pushed;
    assert ExprStep(Postfix(op, x), t) == PostfixStep(op, x);
    ReverseConcat(target, [Binary(IncDecInstr(op == PostIncrement)), PushInt(1), DecodeExpr(x), DecodeExpr(x)]);
  }

  /** `++x` / `--x` run: x, push 1, add/sub, the target code, x again: the new value. */
  lemma PrefixRuns(op: PrefixOp, x: Expr, t: bool)
    requires op == PreIncrement || op == PreDecrement
    requires ExprStep(x, true).err.None?
    ensures ExprStep(Prefix(op, x), t).err == None
    ensures !ExprStep(Prefix(op, x), t).target
    ensures Reverse(ExprStep(Prefix(op, x), t).pushed)
            == [DecodeExpr(x), PushInt(1), Binary(IncDecInstr(op == PreIncrement))]
               + Reverse(ExprStep(x, true).pushed) + [DecodeExpr(x)]
  {
    var target := ExprStep(x, true).pushed;
    var k := IncDecInstr(op == PreIncrement);
    assert ExprStep(Prefix(op, x), t) == UpdateStep(x, k, t);
    assert ExprStep(Prefix(op, x), t).pushed == [DecodeExpr(x)] + target + [Binary(k), PushInt(1), DecodeExpr(x)];
    ReverseConcat([DecodeExpr(x)] + target, [Binary(k), PushInt(1), DecodeExpr(x)]);
    ReverseConcat([DecodeExpr(x)], target);
  }

  lemma ReverseAround(a: seq<Instr>, b: seq<Instr>, c: seq<Instr>)
    ensures Reverse(a + b + c) == Reverse(c) + Reverse(b) + Reverse(a)
  {
    ReverseConcat(a + b, c);
    ReverseConcat(a, b);
  }

  /** `x = e` runs e, the target code (the store), then x: an assignment's value is
      its target. */
  lemma AssignRuns(lhs: Expr, rhs: Expr, t: bool)
    requires ExprStep(lhs, true).err.None?
    ensures var st := ExprStep(Assignment(lhs, Assign, rhs), t);
      st.err == None && !st.target &&
      Reverse(st.pushed) == [DecodeExpr(rhs)] + Reverse(ExprStep(lhs, true).pushed) + [DecodeExpr(lhs)]
  {
    var tp := ExprStep(lhs, true).pushed;
    assert ExprStep(Assignment(lhs, Assign, rhs), t) == Step([DecodeExpr(lhs)] + tp + [DecodeExpr(rhs)], false, None);
    ReverseAround([DecodeExpr(lhs)], tp, [DecodeExpr(rhs)]);
    assert Reverse([DecodeExpr(lhs)]) == [DecodeExpr(lhs)];
    assert Reverse([DecodeExpr(rhs)]) == [DecodeExpr(rhs)];
  }

  /** `x op= e` runs x, e, op, the target code, then x. */
  lemma CompoundAssignRuns(lhs: Expr, op: AssignOp, rhs: Expr, t: bool)
    requires CompoundInstr(op).Some?
    requires ExprStep(lhs, true).err.None?
    ensures var st := ExprStep(Assignment(lhs, op, rhs), t);
      st.err == None && !st.target &&
      Reverse(st.pushed)
      == [DecodeExpr(lhs), DecodeExpr(rhs), Binary(CompoundInstr(op).value)] + Reverse(ExprStep(lhs, true).pushed) + [DecodeExpr(lhs)]
  {
    var tp := ExprStep(lhs, true).pushed;
    var k := CompoundInstr(op).value;
    assert ExprStep(Assignment(lhs, op, rhs), t) == AssignmentStep(lhs, op, rhs, t);
    assert ExprStep(Assignment(lhs, op, rhs), t)
           == Step([DecodeExpr(lhs)] + tp + [Binary(k), DecodeExpr(rhs), DecodeExpr(lhs)], false, None);
    ReverseAround([DecodeExpr(lhs)], tp, [Binary(k), DecodeExpr(rhs), DecodeExpr(lhs)]);
    assert Reverse([DecodeExpr(lhs)]) == [DecodeExpr(lhs)];
    assert Reverse([Binary(k), DecodeExpr(rhs), DecodeExpr(lhs)]) == [DecodeExpr(lhs), DecodeExpr(rhs), Binary(k)];
  }

  /** `|=`, `^=`, `<<=`, `>>=` and `>>>=` abort with TODO() after the load of x and the
      target code have been pushed. */
  lemma UnhandledAssignAborts(lhs: Expr, op: AssignOp, rhs: Expr, t: bool)
    requires op != Assign && CompoundInstr(op).None?
    requires ExprStep(lhs, true).err.None?
    ensures ExprStep(Assignment(lhs, op, rhs), t) == Step([DecodeExpr(lhs)] + ExprStep(lhs, true).pushed, false, Some(Todo))
  {
    assert ExprStep(Assignment(lhs, op, rhs), t) == AssignmentStep(lhs, op, rhs, t);
  }

  /** The assignment operators the decoder handles: `=`, `+=`, `-=`, `*=`, `/=`, `%=` and `&=`. */
  lemma HandledAssignmentOperators(op: AssignOp)
    ensures op == Assign || CompoundInstr(op).Some?
            <==> op in {Assign, PlusAssign, MinusAssign, TimesAssign, DivideAssign, RemainderAssign, BitAndAssign}
  {
  }

  /** When the target visit aborts, so does every update of that target: a postfix
      update, `++x`/`--x` and an assignment with any operator. Nothing after the target
      code is pushed, and the flag is left as the aborted visit left it (`assigning` has
      no `finally`). */
  lemma AbortedTargetKeepsFlag(x: Expr, xop: PostfixOp, pop: PrefixOp, aop: AssignOp, rhs: Expr, t: bool)
    requires ExprStep(x, true).err.Some?
    ensures var v := ExprStep(x, true);
      && ExprStep(Postfix(xop, x), t) == v
      && (pop == PreIncrement || pop == PreDecrement ==>
            ExprStep(Prefix(pop, x), t) == Step([DecodeExpr(x)] + v.pushed, v.target, v.err))
      && ExprStep(Assignment(x, aop, rhs), t) == Step([DecodeExpr(x)] + v.pushed, v.target, v.err)
  {
    var v := ExprStep(x, true);
    assert ExprStep(Postfix(xop, x), t) == PostfixStep(xop, x);
    if pop == PreIncrement || pop == PreDecrement {
      AbortedPrefix(x, pop, t);
    }
    assert ExprStep(Assignment(x, aop, rhs), t) == AssignmentStep(x, aop, rhs, t);
  }

  lemma AbortedPrefix(x: Expr, pop: PrefixOp, t: bool)
    requires pop == PreIncrement || pop == PreDecrement
    requires ExprStep(x, true).err.Some?
    ensures var v := ExprStep(x, true);
      ExprStep(Prefix(pop, x), t) == Step([DecodeExpr(x)] + v.pushed, v.target, v.err)
  {
    assert ExprStep(Prefix(pop, x), t) == UpdateStep(x, IncDecInstr(pop == PreIncrement), t);
  }

  /** `x++` on a local variable: load, load, push 1, add, store. */
  lemma PostIncrementOnLocal(id: string, ty: string, isStatic: bool, dc: string, t: bool)
    ensures var x := SimpleName(id, ty, Variable(false, false, false, isStatic, dc));
      ExprStep(x, false).pushed == [Load(id, Some(ty))] &&
      Reverse(ExprStep(Postfix(PostIncrement, x), t).pushed)
      == [DecodeExpr(x), DecodeExpr(x), PushInt(1), Binary(Add), Store(id, ty)]
  {
    var x := SimpleName(id, ty, Variable(false, false, false, isStatic, dc));
    PostfixRuns(PostIncrement, x, t);
  }

  // ---------------------------------------------------------------------------
  // Target mode
  // ---------------------------------------------------------------------------

  /** The write counterpart of a read instruction. */
  function PutOf(i: Instr): Instr
  {
    match i
    case Load(n, Some(ty)) => Store(n, ty)
    case ObjGet(n, ty) => ObjPut(n, ty)
    case StatGet(c, n, ty) => StatPut(c, n, ty)
    case _ => i
  }

  predicate IsRead(i: Instr)
  {
    (i.Load? && i.loadType.Some?) || i.ObjGet? || i.StatGet?
  }

  /** In target mode an array access runs index, array, `arr_store_rev`; otherwise array,
      index, `arr_load`. */
  lemma ArrayAccessModes(a: Expr, i: Expr)
    ensures Reverse(ExprStep(ArrayAccess(a, i), true).pushed) == [DecodeExpr(i), DecodeExpr(a), ArrStoreRev]
    ensures Reverse(ExprStep(ArrayAccess(a, i), false).pushed) == [DecodeExpr(a), DecodeExpr(i), ArrLoad]
  {
  }

  /** A name in target mode emits the put of what it reads otherwise: `store` for
      `load`, `obj_put` for `obj_get`, `stat_put` for `stat_get`. */
  lemma SimpleNameTargetMode(id: string, ty: string, b: NameBinding)
    requires b.Variable? && (b.isParameter || b.isField || !b.isEnumConstant)
    ensures var get := ExprStep(SimpleName(id, ty, b), false);
      var put := ExprStep(SimpleName(id, ty, b), true);
      get.err == None && put.err == None && |get.pushed| >= 1 && IsRead(get.pushed[0]) &&
      put.pushed == [PutOf(get.pushed[0])] + get.pushed[1..]
  {
    assert ExprStep(SimpleName(id, ty, b), false) == SimpleNameStep(id, ty, b, false);
    assert ExprStep(SimpleName(id, ty, b), true) == SimpleNameStep(id, ty, b, true);
  }

  /** Name binding facts that make a name lower to nothing but TODO(). */
  lemma SimpleNameUnsupported(id: string, ty: string, b: NameBinding, t: bool)
    requires b.NotAVariable? || (!b.isParameter && !b.isField && b.isEnumConstant)
    ensures ExprStep(SimpleName(id, ty, b), t) == Step([], t, Some(Todo))
  {
  }

  lemma QualifiedNameTargetMode(q: Expr, name: string, ty: string, b: NameBinding, qIsArray: bool, qIsVariable: bool)
    requires b.Variable? && b.isField && !b.isEnumConstant && !(qIsArray && name == "length")
    ensures var get := ExprStep(QualifiedName(q, name, ty, b, qIsArray, qIsVariable), false);
      var put := ExprStep(QualifiedName(q, name, ty, b, qIsArray, qIsVariable), true);
      get.err == None && put.err == None && |get.pushed| >= 1 && IsRead(get.pushed[0]) &&
      put.pushed == [PutOf(get.pushed[0])] + get.pushed[1..]
  {
    assert ExprStep(QualifiedName(q, name, ty, b, qIsArray, qIsVariable), false)
      == QualifiedNameStep(q, name, ty, b, qIsArray, qIsVariable, false);
    assert ExprStep(QualifiedName(q, name, ty, b, qIsArray, qIsVariable), true)
      == QualifiedNameStep(q, name, ty, b, qIsArray, qIsVariable, true);
  }

  lemma FieldAccessTargetMode(recv: Expr, name: string, f: FieldBinding, recvIsArray: bool)
    requires !f.isEnumConstant && !(recvIsArray && name == "length")
    ensures var get := ExprStep(FieldAccess(recv, name, f, recvIsArray), false);
      var put := ExprStep(FieldAccess(recv, name, f, recvIsArray), true);
      get.err == None && put.err == None && |get.pushed| >= 1 && IsRead(get.pushed[0]) &&
      put.pushed == [PutOf(get.pushed[0])] + get.pushed[1..]
  {
    assert ExprStep(FieldAccess(recv, name, f, recvIsArray), false) == FieldAccessStep(recv, name, f, recvIsArray, false);
    assert ExprStep(FieldAccess(recv, name, f, recvIsArray), true) == FieldAccessStep(recv, name, f, recvIsArray, true);
  }

  // ---------------------------------------------------------------------------
  // Calls
  // ---------------------------------------------------------------------------

  /** Execution order of the varargs packing: for every trailing argument i (its index in
      the whole argument list), `dup`, push i, the argument, `arr_store`. */
  function PackedGroups(es: seq<Expr>, lo: nat): seq<Instr>
    decreases |es| - lo
  {
    if lo >= |es| then [] else [Dup, PushInt(lo), DecodeExpr(es[lo]), ArrStore] + PackedGroups(es, lo + 1)
  }

  lemma {:induction false} StoreGroupsRun(es: seq<Expr>, lo: nat)
    decreases |es| - lo
    ensures Reverse(StoreGroups(es, lo)) == PackedGroups(es, lo)
  {
    if lo < |es| {
      StoreGroupsRun(es, lo + 1);
      ReverseConcat(StoreGroups(es, lo + 1), StoreGroup(es[lo], lo));
    }
  }

  /** There are |es| - lo groups, the j-th of which stores argument lo + j at index lo + j. */
  lemma {:induction false} PackedGroupsShape(es: seq<Expr>, lo: nat, j: nat)
    requires lo + j < |es|
    decreases j
    ensures |PackedGroups(es, lo)| == 4 * (|es| - lo)
    ensures PackedGroups(es, lo)[4 * j..4 * j + 4] == [Dup, PushInt(lo + j), DecodeExpr(es[lo + j]), ArrStore]
  {
    PackedGroupsLength(es, lo);
    if j > 0 {
      PackedGroupsShape(es, lo + 1, j - 1);
      var g := [Dup, PushInt(lo), DecodeExpr(es[lo]), ArrStore];
      assert PackedGroups(es, lo) == g + PackedGroups(es, lo + 1);
      assert PackedGroups(es, lo)[4 * j..4 * j + 4] == PackedGroups(es, lo + 1)[4 * (j - 1)..4 * (j - 1) + 4];
    }
  }

  lemma {:induction false} PackedGroupsLength(es: seq<Expr>, lo: nat)
    decreases |es| - lo
    ensures |PackedGroups(es, lo)| == if lo < |es| then 4 * (|es| - lo) else 0
  {
    if lo < |es| {
      PackedGroupsLength(es, lo + 1);
    }
  }

  /** Arguments run left to right; with varargs the fixed ones run first, then
      `arr_allocate` and one packing group per trailing argument. */
  lemma ArgumentsRun(args: seq<Expr>, arity: Arity)
    ensures arity.Fixed? ==> Reverse(ArgPushes(args, arity)) == DecodeExprs(args)
    ensures arity.Varargs? ==>
      Reverse(ArgPushes(args, arity))
      == DecodeExprs(Take(args, arity.regular)) + [ArrAllocate(arity.component)] + PackedGroups(args, arity.regular)
  {
    match arity
    case Fixed => AddExprsReversedRuns(args);
    case Varargs(p, c) =>
      var groups := StoreGroups(args, p);
      var fixed := AddExprsReversed(Take(args, p));
      ReverseConcat(groups + [ArrAllocate(c)], fixed);
      ReverseConcat(groups, [ArrAllocate(c)]);
      StoreGroupsRun(args, p);
      AddExprsReversedRuns(Take(args, p));
  }

  /** A call runs the receiver (or `load this`), the arguments, the invoke, then the cast
      of a generic instance's non-primitive result. */
  lemma MethodInvocationRuns(m: MethodBinding, receiver: Option<Expr>, args: seq<Expr>, t: bool)
    ensures var st := ExprStep(MethodInvocation(m, receiver, args), t);
      var invoke := if m.isStatic then InvokeStatic(m.qualifiedSignature) else InvokeVirtual(m.qualifiedSignature);
      st.err == None &&
      Reverse(st.pushed) == ReceiverPushes(m, receiver) + Reverse(ArgPushes(args, m.arity)) + [invoke] + CastPushes(m)
  {
    assert ExprStep(MethodInvocation(m, receiver, args), t) == Emit(InvocationPushes(m, receiver, args), t);
    InvocationOrder(m, receiver, args);
  }

  lemma InvocationOrder(m: MethodBinding, receiver: Option<Expr>, args: seq<Expr>)
    ensures var invoke := if m.isStatic then InvokeStatic(m.qualifiedSignature) else InvokeVirtual(m.qualifiedSignature);
      Reverse(InvocationPushes(m, receiver, args))
      == ReceiverPushes(m, receiver) + Reverse(ArgPushes(args, m.arity)) + [invoke] + CastPushes(m)
  {
    var invoke := if m.isStatic then InvokeStatic(m.qualifiedSignature) else InvokeVirtual(m.qualifiedSignature);
    var a := ArgPushes(args, m.arity);
    ReverseConcat(CastPushes(m) + [invoke] + a, ReceiverPushes(m, receiver));
    ReverseConcat(CastPushes(m) + [invoke], a);
    ReverseConcat(CastPushes(m), [invoke]);
  }

  lemma SuperMethodInvocationRuns(m: MethodBinding, args: seq<Expr>, t: bool)
    ensures var st := ExprStep(SuperMethodInvocation(m, args), t);
      st.err == None &&
      Reverse(st.pushed) == [LoadThis] + Reverse(ArgPushes(args, m.arity)) + [InvokeVirtualSuper(m.qualifiedSignature)] + CastPushes(m)
  {
    var a := ArgPushes(args, m.arity);
    ReverseConcat(CastPushes(m) + [InvokeVirtualSuper(m.qualifiedSignature)] + a, [LoadThis]);
    ReverseConcat(CastPushes(m) + [InvokeVirtualSuper(m.qualifiedSignature)], a);
    ReverseConcat(CastPushes(m), [InvokeVirtualSuper(m.qualifiedSignature)]);
  }

  /** `new C(args)` runs `obj_allocate`, `dup`, the arguments, then `invoke_special`. */
  lemma InstanceCreationRuns(ty: string, ctor: MethodBinding, args: seq<Expr>, t: bool)
    ensures var st := ExprStep(ClassInstanceCreation(ty, ctor, args, false, false, false), t);
      st.err == None &&
      Reverse(st.pushed) == [ObjAllocate(ty), Dup] + Reverse(ArgPushes(args, ctor.arity)) + [InvokeSpecial(ctor.qualifiedSignature)]
  {
    var a := ArgPushes(args, ctor.arity);
    ReverseConcat([InvokeSpecial(ctor.qualifiedSignature)] + a, [Dup, ObjAllocate(ty)]);
    ReverseConcat([InvokeSpecial(ctor.qualifiedSignature)], a);
  }

  // ---------------------------------------------------------------------------
  // Loops, switch, labels and try: checkpoints and nesting
  // ---------------------------------------------------------------------------

  /** `do` runs its body before the first test: block_push, break_push with the entry
      depths, continue_push, body, condition, while_loop, then the three pops. */
  lemma DoRunsBodyFirst(c: Expr, body: Stmt, t: bool, d: Depths)
    ensures var loop := WhileLoop(c, body);
      Reverse(StmtStep(DoStatement(c, body), t, d).pushed)
      == [BlockPush, BreakPush(None, d.instructions, d.operands, d.scopes), ContinuePush(None, loop, Some(true), 3),
          DecodeStmt(body), DecodeExpr(c), loop, ContinuePop, BreakPop, BlockPop]
  {
  }

  /** `while` runs its condition before the loop instruction and never the body directly. */
  lemma WhileRunsTestFirst(c: Expr, body: Stmt, t: bool, d: Depths)
    ensures var loop := WhileLoop(c, body);
      Reverse(StmtStep(WhileStatement(c, body), t, d).pushed)
      == [BlockPush, BreakPush(None, d.instructions, d.operands, d.scopes), ContinuePush(None, loop, Some(true), 2),
          DecodeExpr(c), loop, ContinuePop, BreakPop, BlockPop]
  {
  }

  /** Loops and switches capture the depths the frame had before anything was pushed:
      the first two instructions to run are `block_push` and `break_push` with them. */
  lemma LoopsCheckpointOnEntry(s: Stmt, t: bool, d: Depths)
    requires s.DoStatement? || s.WhileStatement? || s.EnhancedForStatement? || s.SwitchStatement?
             || (s.ForStatement? && AcceptAll(s.initializers, t).err.None?)
    ensures var st := StmtStep(s, t, d);
      st.err == None && |st.pushed| >= 2 &&
      st.pushed[|st.pushed| - 1] == BlockPush &&
      st.pushed[|st.pushed| - 2] == BreakPush(None, d.instructions, d.operands, d.scopes)
  {
    var st := StmtStep(s, t, d);
    var entry := [Checkpoint(None, d), BlockPush];
    if s.ForStatement? {
      var c := s.forCondition.GetOr(BooleanLiteral(true));
      var loop := ForLoop(c, s.forBody, s.updaters);
      var head := [BlockPop, BreakPop, ContinuePop, loop, DecodeExpr(c), ContinuePush(None, loop, Some(true), 2)];
      assert st.pushed == head + AcceptAll(s.initializers, t).pushed + entry;
    } else if s.SwitchStatement? {
      assert st.pushed == [BlockPop, BreakPop, ConditionalSwitch(s.switchBody), DecodeExpr(s.selector)] + entry;
    } else if s.DoStatement? {
      var loop := WhileLoop(s.doCondition, s.doBody);
      assert st.pushed == [BlockPop, BreakPop, ContinuePop, loop, DecodeExpr(s.doCondition), DecodeStmt(s.doBody),
                           ContinuePush(None, loop, Some(true), 3)] + entry;
    } else if s.WhileStatement? {
      var loop := WhileLoop(s.whileCondition, s.whileBody);
      assert st.pushed == [BlockPop, BreakPop, ContinuePop, loop, DecodeExpr(s.whileCondition),
                           ContinuePush(None, loop, Some(true), 2)] + entry;
    } else {
      var loop := ForeachLoop(s.parameter, s.parameterType, s.foreachBody);
      assert st.pushed == [BlockPop, BreakPop, ContinuePop, loop, DecodeExpr(s.iterable),
                           ContinuePush(None, loop, None, 2)] + entry;
    }
  }

  /** A `for` runs block_push, break_push, its initialisers (visited at once, in order),
      continue_push, the condition (`true` when absent), for_loop and the pops. */
  lemma ForRuns(inits: seq<Expr>, cond: Option<Expr>, ups: seq<Expr>, body: Stmt, t: bool, d: Depths)
    requires AcceptAll(inits, t).err.None?
    ensures var c := if cond.Some? then cond.value else BooleanLiteral(true);
      var loop := ForLoop(c, body, ups);
      var st := StmtStep(ForStatement(inits, cond, ups, body), t, d);
      st.err == None && st.target == AcceptAll(inits, t).target &&
      Reverse(st.pushed)
      == [BlockPush, BreakPush(None, d.instructions, d.operands, d.scopes)] + Reverse(AcceptAll(inits, t).pushed)
         + [ContinuePush(None, loop, Some(true), 2), DecodeExpr(c), loop, ContinuePop, BreakPop, BlockPop]
  {
    var c := if cond.Some? then cond.value else BooleanLiteral(true);
    var loop := ForLoop(c, body, ups);
    var head := [BlockPop, BreakPop, ContinuePop, loop, DecodeExpr(c), ContinuePush(None, loop, Some(true), 2)];
    var inits' := AcceptAll(inits, t);
    var tail := [BreakPush(None, d.instructions, d.operands, d.scopes), BlockPush];
    assert StmtStep(ForStatement(inits, cond, ups, body), t, d) == Step(head + inits'.pushed + tail, inits'.target, None);
    ReverseAround(head, inits'.pushed, tail);
    assert Reverse(tail) == [BlockPush, BreakPush(None, d.instructions, d.operands, d.scopes)];
    assert Reverse(head) == [ContinuePush(None, loop, Some(true), 2), DecodeExpr(c), loop, ContinuePop, BreakPop, BlockPop];
  }

  /** A `try` visits its finally block (`f`) first, so the depth in `excp_push` includes
      the finally code, which runs last. */
  lemma TryRuns(res: seq<Expr>, body: Stmt, catches: seq<CatchClause>, fin: Option<Stmt>, t: bool, d: Depths, f: Step)
    requires f == if fin.Some? then StmtStep(fin.value, t, d) else Emit([], t)
    requires f.err.None? && AcceptAll(res, f.target).err.None?
    ensures var st := StmtStep(TryStatement(res, body, catches, fin), t, d);
      st.err == None &&
      Reverse(st.pushed)
      == [BlockPush, ExcpPush(Handles(catches), d.instructions + |f.pushed|, d.operands, d.scopes)]
         + Reverse(AcceptAll(res, f.target).pushed) + [DecodeStmt(body), ExcpPop, BlockPop] + Reverse(f.pushed)
  {
    var mid := [BlockPop, ExcpPop, DecodeStmt(body)];
    var r := AcceptAll(res, f.target);
    var tail := [ExcpPush(Handles(catches), d.instructions + |f.pushed|, d.operands, d.scopes), BlockPush];
    TryPushes(res, body, catches, fin, t, d, f);
    TryPushesRun(f.pushed, mid, r.pushed, tail);
    assert Reverse(tail) == [BlockPush, ExcpPush(Handles(catches), d.instructions + |f.pushed|, d.operands, d.scopes)];
    assert Reverse(mid) == [DecodeStmt(body), ExcpPop, BlockPop];
  }

  lemma TryPushes(res: seq<Expr>, body: Stmt, catches: seq<CatchClause>, fin: Option<Stmt>, t: bool, d: Depths, f: Step)
    requires f == if fin.Some? then StmtStep(fin.value, t, d) else Emit([], t)
    requires f.err.None? && AcceptAll(res, f.target).err.None?
    ensures StmtStep(TryStatement(res, body, catches, fin), t, d)
            == Step(f.pushed + [BlockPop, ExcpPop, DecodeStmt(body)] + AcceptAll(res, f.target).pushed
                    + [ExcpPush(Handles(catches), d.instructions + |f.pushed|, d.operands, d.scopes), BlockPush],
                    AcceptAll(res, f.target).target, None)
  {
    assert StmtStep(TryStatement(res, body, catches, fin), t, d) == TryStep(res, body, catches, f, d);
  }

  lemma TryPushesRun(f: seq<Instr>, mid: seq<Instr>, r: seq<Instr>, tail: seq<Instr>)
    ensures Reverse(f + mid + r + tail) == Reverse(tail) + Reverse(r) + Reverse(mid) + Reverse(f)
  {
    ReverseConcat(f + mid + r, tail);
    ReverseAround(f, mid, r);
  }

  /** A labelled statement brackets its body with break handlers carrying its label. */
  lemma LabeledRuns(lbl: string, body: Stmt, t: bool, d: Depths)
    ensures Reverse(StmtStep(LabeledStatement(lbl, body), t, d).pushed)
            == [BreakPush(Some(lbl), d.instructions, d.operands, d.scopes), DecodeStmt(body), BreakPop]
  {
  }

  // ---------------------------------------------------------------------------
  // Unsupported language features
  // ---------------------------------------------------------------------------

  /** Inner and anonymous classes and scoped constructor calls abort with
      UnsupportedLanguageFeature before anything is pushed. */
  lemma UnsupportedCreationAborts(ty: string, ctor: MethodBinding, args: seq<Expr>, inner: bool, anonymous: bool, scoped: bool, t: bool)
    requires inner || anonymous || scoped
    ensures var st := ExprStep(ClassInstanceCreation(ty, ctor, args, inner, anonymous, scoped), t);
      st.pushed == [] && st.target == t &&
      st.err == Some(Unsupported(if inner then NonStaticInnerClass else if anonymous then AnonymousClass else ScopedConstructorCall))
  {
  }

  /** Lambdas and the four kinds of method reference abort the same way. */
  lemma UnsupportedFunctionalAborts(e: Expr, t: bool)
    requires e.LambdaExpression? || e.CreationReference? || e.ExpressionMethodReference?
             || e.SuperMethodReference? || e.TypeMethodReference?
    ensures ExprStep(e, t) == Step([], t, Some(Unsupported(if e.LambdaExpression? then Lambda else MethodReference)))
  {
    NodeRuns(e, t);
    if e.LambdaExpression? {
      assert NodeStep(e, t) == Fail(Unsupported(Lambda), t);
    } else if e.CreationReference? {
      assert NodeStep(e, t) == Fail(Unsupported(MethodReference), t);
    } else if e.ExpressionMethodReference? {
      assert NodeStep(e, t) == Fail(Unsupported(MethodReference), t);
    } else if e.SuperMethodReference? {
      assert NodeStep(e, t) == Fail(Unsupported(MethodReference), t);
    } else {
      assert NodeStep(e, t) == Fail(Unsupported(MethodReference), t);
    }
  }

  /** An expression that is not an update is visited by the node visitor. */
  lemma NodeRuns(e: Expr, t: bool)
    requires !IsUpdate(e)
    ensures ExprStep(e, t) == NodeStep(e, t)
  {
  }

  // ---------------------------------------------------------------------------
  // Character literals
  // ---------------------------------------------------------------------------

  /** The source text of a character literal starts with its opening quote, so the
      decoder as written loads a quote for every character literal: 'a' loads '\''. */
  lemma CharLiteralAsWrittenLoadsQuote(escapedValue: string, value: char, t: bool)
    requires |escapedValue| >= 3 && escapedValue[0] == '\'' && escapedValue[|escapedValue| - 1] == '\''
    ensures ExprStep(CharacterLiteral(escapedValue, value), t) == Step([LdcChar('\'')], t, None)
    ensures value != '\'' ==> ExprStep(CharacterLiteral(escapedValue, value), t).pushed != [LdcChar(value)]
  {
    NodeRuns(CharacterLiteral(escapedValue, value), t);
  }

  /** `first()` of an empty text throws before anything is pushed. */
  lemma CharLiteralEmptyThrows(value: char, t: bool)
    ensures ExprStep(CharacterLiteral("", value), t) == Step([], t, Some(NoSuchElement))
  {
    NodeRuns(CharacterLiteral("", value), t);
  }

  /** The intended lowering of a character literal: load its value. */
  function CharLiteralStep(value: char, t: bool): Step
  {
    Emit([LdcChar(value)], t)
  }

  /** The intended lowering loads the literal's value and never aborts; the decoder as
      written agrees with it exactly when the text starts with the value, which fails for
      `'a'`. */
  lemma CharLiteralLoadsValue(escapedValue: string, value: char, t: bool)
    ensures CharLiteralStep(value, t).pushed == [LdcChar(value)] && CharLiteralStep(value, t).err == None
    ensures |escapedValue| > 0 ==>
      (ExprStep(CharacterLiteral(escapedValue, value), t) == CharLiteralStep(value, t) <==> escapedValue[0] == value)
    ensures ExprStep(CharacterLiteral("'a'", 'a'), t) != CharLiteralStep('a', t)
  {
    NodeRuns(CharacterLiteral(escapedValue, value), t);
    NodeRuns(CharacterLiteral("'a'", 'a'), t);
  }
}
