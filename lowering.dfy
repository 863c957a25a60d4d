/**
 * What one visit of the instruction compiler (ASTDecoder) pushes onto the frame's
 * instruction stack, as pure functions of the visited node.
 *
 * The stack is a sequence whose last element is its top, so the instructions run in
 * the REVERSE of the order in which they are pushed: `Reverse(pushed)` is the execution
 * order. A `Step` records the pushed instructions in push order, the value the
 * assignment-target flag has after the visit, and the exception (if any) that aborted
 * the visit; on an abort `pushed` holds what had been pushed before the throw.
 *
 * Sub-statements and sub-expressions are normally deferred: the visit pushes a
 * `DecodeStmt` / `DecodeExpr` instruction for them. A few children are visited at once
 * (assignment targets, for-loop initialisers, try resources and finally blocks,
 * declaration fragments, the array of an `array.length` access).
 */
module Lowering {
  import opened Wrappers
  import opened Syntax

  // ---------------------------------------------------------------------------
  // Sequences
  // ---------------------------------------------------------------------------

  function Reverse<T>(s: seq<T>): (r: seq<T>)
    ensures |r| == |s|
  {
    seq(|s|, i requires 0 <= i < |s| => s[|s| - 1 - i])
  }

  lemma ReverseConcat<T>(a: seq<T>, b: seq<T>)
    ensures Reverse(a + b) == Reverse(b) + Reverse(a)
  {
  }

  lemma ReverseReverse<T>(s: seq<T>)
    ensures Reverse(Reverse(s)) == s
  {
  }

  lemma {:induction false} ReverseMultiset<T>(s: seq<T>)
    ensures multiset(Reverse(s)) == multiset(s)
  {
    if s != [] {
      ReverseMultiset(s[1..]);
      ReverseConcat([s[0]], s[1..]);
      assert s == [s[0]] + s[1..];
    }
  }

  /** Execution order, one `DecodeExpr` per expression. */
  function DecodeExprs(es: seq<Expr>): (r: seq<Instr>)
    ensures |r| == |es|
  {
    seq(|es|, i requires 0 <= i < |es| => DecodeExpr(es[i]))
  }

  function DecodeStmts(ss: seq<Stmt>): (r: seq<Instr>)
    ensures |r| == |ss|
  {
    seq(|ss|, i requires 0 <= i < |ss| => DecodeStmt(ss[i]))
  }

  /** `es.reversed().forEach { add(it) }`: the last expression is pushed first. */
  function AddExprsReversed(es: seq<Expr>): seq<Instr>
  {
    if es == [] then [] else AddExprsReversed(es[1..]) + [DecodeExpr(es[0])]
  }

  function AddStmtsReversed(ss: seq<Stmt>): seq<Instr>
  {
    if ss == [] then [] else AddStmtsReversed(ss[1..]) + [DecodeStmt(ss[0])]
  }

  lemma {:induction false} AddExprsReversedRuns(es: seq<Expr>)
    ensures Reverse(AddExprsReversed(es)) == DecodeExprs(es)
  {
    if es != [] {
      AddExprsReversedRuns(es[1..]);
      ReverseConcat(AddExprsReversed(es[1..]), [DecodeExpr(es[0])]);
    }
  }

  lemma {:induction false} AddStmtsReversedRuns(ss: seq<Stmt>)
    ensures Reverse(AddStmtsReversed(ss)) == DecodeStmts(ss)
  {
    if ss != [] {
      AddStmtsReversedRuns(ss[1..]);
      ReverseConcat(AddStmtsReversed(ss[1..]), [DecodeStmt(ss[0])]);
    }
  }

  // ---------------------------------------------------------------------------
  // Visit outcomes
  // ---------------------------------------------------------------------------

  datatype Step = Step(pushed: seq<Instr>, target: bool, err: Option<Failure>)

  /** Depths captured as a checkpoint: instruction-stack size, operand-stack size and
      number of local scopes of the frame. */
  datatype Depths = Depths(instructions: nat, operands: nat, scopes: nat)

  function Emit(instrs: seq<Instr>, t: bool): Step { Step(instrs, t, None) }

  function Fail(f: Failure, t: bool): Step { Step([], t, Some(f)) }

  /** Runs `b` after `a` unless `a` threw. */
  function Then(a: Step, b: Step): Step
  {
    if a.err.Some? then a else Step(a.pushed + b.pushed, b.target, b.err)
  }

  /** Pushes `instrs` after `a` unless `a` threw. */
  function Append(a: Step, instrs: seq<Instr>): Step
  {
    if a.err.Some? then a else Step(a.pushed + instrs, a.target, None)
  }

  /** `assigning { ... }`: the flag is set for the visit and cleared afterwards; a throw
      skips the clearing. */
  function Assigning(visit: Step): Step
  {
    if visit.err.Some? then visit else Step(visit.pushed, false, None)
  }

  // ---------------------------------------------------------------------------
  // Helpers of the visitor (ASTDecoder.kt:19-26)
  // ---------------------------------------------------------------------------

  /** `add(expr, store)`: a `pop` goes beneath the expression when its value is discarded. */
  function AddPushes(e: Expr, store: bool): seq<Instr>
  {
    (if store then [] else [Pop]) + [DecodeExpr(e)]
  }

  /** One declaration fragment: `allocate`, then the initialiser and `store` if present. */
  function FragmentPushes(f: Fragment): seq<Instr>
  {
    (if f.initializer.Some? then [Store(f.name, f.varType), DecodeExpr(f.initializer.value)] else [])
    + [Allocate(f.name, f.varType)]
  }

  /** `fragments().reversed().forEach { accept }`. */
  function FragmentsPushes(fs: seq<Fragment>): seq<Instr>
  {
    if fs == [] then [] else FragmentsPushes(fs[1..]) + FragmentPushes(fs[0])
  }

  /** One element store of an array being filled: `dup`, push the index, the value, `arr_store`. */
  function StoreGroup(e: Expr, i: int): seq<Instr>
  {
    [ArrStore, DecodeExpr(e), PushInt(i), Dup]
  }

  /** `for (i in |es|-1 downTo lo)`: store groups for the indices lo .. |es|-1. */
  function StoreGroups(es: seq<Expr>, lo: nat): seq<Instr>
    decreases |es| - lo
  {
    if lo >= |es| then [] else StoreGroups(es, lo + 1) + StoreGroup(es[lo], lo)
  }

  /** `arguments().take(n)`. */
  function Take(es: seq<Expr>, n: nat): (r: seq<Expr>)
    ensures |r| <= n && |r| <= |es|
  {
    if n <= |es| then es[..n] else es
  }

  /** Argument pushes of a call: reversed, and for varargs the trailing arguments packed
      into an array that the call receives after the fixed arguments (ASTDecoder.kt:324-345). */
  function ArgPushes(args: seq<Expr>, arity: Arity): seq<Instr>
  {
    match arity
    case Fixed => AddExprsReversed(args)
    case Varargs(p, c) => StoreGroups(args, p) + [ArrAllocate(c)] + AddExprsReversed(Take(args, p))
  }

  /** A `cast` to the return type when the binding is an instance of a generic declaration
      and the return type is not primitive. */
  function CastPushes(m: MethodBinding): seq<Instr>
  {
    if m.differsFromDeclaration && !m.returnsPrimitive then [Cast(m.returnSignature)] else []
  }

  function ReceiverPushes(m: MethodBinding, receiver: Option<Expr>): seq<Instr>
  {
    if m.isStatic then [] else if receiver.Some? then [DecodeExpr(receiver.value)] else [LoadThis]
  }

  function InfixInstr(op: InfixOp): BinaryInstr
  {
    match op
    case Times => Mul
    case Divide => Div
    case Remainder => Mod
    case Plus => Add
    case Minus => Sub
    case LeftShift => Shl
    case RightShiftSigned => Shr
    case RightShiftUnsigned => Ushr
    case Less => LessThan
    case Greater => GreaterThan
    case LessEquals => LessEqual
    case GreaterEquals => GreaterEqual
    case Equals => Equal
    case NotEquals => NotEqual
    case Xor => BitXor
    case Or => BitOr
    case And => BitAnd
    case ConditionalOr => BitOr
    case ConditionalAnd => BitAnd
  }

  /** The operators of a compound assignment that the decoder handles. */
  function CompoundInstr(op: AssignOp): Option<BinaryInstr>
  {
    match op
    case PlusAssign => Some(Add)
    case MinusAssign => Some(Sub)
    case TimesAssign => Some(Mul)
    case DivideAssign => Some(Div)
    case RemainderAssign => Some(Mod)
    case BitAndAssign => Some(BitAnd)
    case _ => None
  }

  /** Middle operands of an infix chain, reversed, each followed (in push order preceded)
      by the operator. */
  function InfixMiddle(ms: seq<Expr>, k: BinaryInstr): seq<Instr>
  {
    if ms == [] then [] else InfixMiddle(ms[1..], k) + [Binary(k), DecodeExpr(ms[0])]
  }

  function InfixPushes(es: seq<Expr>, k: BinaryInstr): seq<Instr>
    requires |es| >= 2
  {
    [Binary(k), DecodeExpr(es[|es| - 1])] + InfixMiddle(es[1..|es| - 1], k) + [DecodeExpr(es[0])]
  }

  // ---------------------------------------------------------------------------
  // Expressions
  // ---------------------------------------------------------------------------

  /** The rest of an assignment after its target has been visited (ASTDecoder.kt:576-618). */
  function AssignmentTail(op: AssignOp, lhs: Expr, rhs: Expr): Step
  {
    if op == Assign then Emit([DecodeExpr(rhs)], false)
    else match CompoundInstr(op)
      case Some(k) => Emit([Binary(k), DecodeExpr(rhs), DecodeExpr(lhs)], false)
      case None => Fail(Todo, false)
  }

  function IncDecInstr(increment: bool): BinaryInstr { if increment then Add else Sub }

  /** `for ... accept(this)` over `es.reversed()`, threading the target flag. */
  function AcceptAll(es: seq<Expr>, t: bool): Step
    decreases es
  {
    if es == [] then Emit([], t)
    else
      var rest := AcceptAll(es[1..], t);
      Then(rest, ExprStep(es[0], rest.target))
  }

  /** Once a visit in the reversed list aborts, the remaining (earlier) expressions are
      not visited: the outcome of every longer suffix is the aborted one. */
  lemma {:induction false} AcceptAllStops(es: seq<Expr>, i: nat, t: bool)
    requires i <= |es|
    requires AcceptAll(es[i..], t).err.Some?
    ensures AcceptAll(es, t) == AcceptAll(es[i..], t)
    decreases i
  {
    if i > 0 {
      assert es[1..][i - 1..] == es[i..];
      AcceptAllStops(es[1..], i - 1, t);
    }
  }

  /** The reversed visit of a suffix one element longer: the new element is visited last. */
  lemma AcceptAllExtend(es: seq<Expr>, i: nat, t: bool)
    requires 0 < i <= |es|
    ensures AcceptAll(es[i - 1..], t) == Then(AcceptAll(es[i..], t), ExprStep(es[i - 1], AcceptAll(es[i..], t).target))
  {
    assert es[i - 1..][1..] == es[i..];
  }

  /** One visit of an expression with the target flag `t` (ASTDecoder.kt:299-975). */
  function ExprStep(e: Expr, t: bool): Step
    decreases e, 1
  {
    if e.Assignment? then AssignmentStep(e.lhs, e.aop, e.rhs, t)
    else if e.Prefix? then PrefixStep(e.pop, e.operand, t)
    else if e.Postfix? then PostfixStep(e.xop, e.postOperand)
    else NodeStep(e, t)
  }

  /** The kinds that may visit their operand in target mode (`assigning { ... }`). */
  predicate IsUpdate(e: Expr)
  {
    e.Assignment? || e.Prefix? || e.Postfix?
  }

  /** The visit of every other kind, which keeps the flag it is given. */
  function NodeStep(e: Expr, t: bool): Step
    requires !IsUpdate(e)
    decreases e, 0
  {
    match e
    case FieldAccess(recv, name, f, recvIsArray) => FieldAccessStep(recv, name, f, recvIsArray, t)
    case QualifiedName(q, name, ty, b, qIsArray, qIsVariable) => QualifiedNameStep(q, name, ty, b, qIsArray, qIsVariable, t)
    case Parenthesized(x) => Emit([DecodeExpr(x)], t)
    case ClassInstanceCreation(ty, ctor, args, inner, anonymous, scoped) =>
      if inner then Fail(Unsupported(NonStaticInnerClass), t)
      else if anonymous then Fail(Unsupported(AnonymousClass), t)
      else if scoped then Fail(Unsupported(ScopedConstructorCall), t)
      else Emit(CreationPushes(ty, ctor, args), t)
    case MethodInvocation(m, receiver, args) => Emit(InvocationPushes(m, receiver, args), t)
    case SuperMethodInvocation(m, args) => Emit(SuperInvocationPushes(m, args), t)
    case ArrayCreation(c, init) =>
      Emit((if init.Some? then StoreGroups(init.value, 0) else []) + [ArrAllocate(c)], t)
    case ArrayInitializer(c, es) => Emit(StoreGroups(es, 0) + [ArrAllocate(c)], t)
    case Conditional(c, a, b) => Emit([ConditionalTernary(a, b), DecodeExpr(c)], t)
    case Infix(op, l, r, ext) => Emit(InfixPushes([l, r] + ext, InfixInstr(op)), t)
    case ArrayAccess(a, i) =>
      if t then Emit([ArrStoreRev, DecodeExpr(a), DecodeExpr(i)], t)
      else Emit([ArrLoad, DecodeExpr(i), DecodeExpr(a)], t)
    case SuperFieldAccess(qualified, name, ty) =>
      if qualified then Fail(NotImplemented, t) else Emit([ObjGet(name, ty), LoadThis], t)
    case SimpleName(id, ty, b) => SimpleNameStep(id, ty, b, t)
    case BooleanLiteral(v) => Emit([LdcBoolean(v)], t)
    case CharacterLiteral(ev, _) => if |ev| == 0 then Fail(NoSuchElement, t) else Emit([LdcChar(ev[0])], t)
    case NullLiteral => Emit([LdcNull], t)
    case NumberLiteral(token, ty) => Emit([LdcNumber(token, ty)], t)
    case StringLiteral(s) => Emit([LdcString(s)], t)
    case TypeLiteral(ty) => Emit([LdcType(ty)], t)
    case ThisExpression(qualified) => if qualified then Fail(IllegalArgument, t) else Emit([LoadThis], t)
    case CastExpression(ty, x) => Emit([Cast(ty), DecodeExpr(x)], t)
    case InstanceofExpression(x, ty) => Emit([InstanceOf(ty), DecodeExpr(x)], t)
    case LambdaExpression => Fail(Unsupported(Lambda), t)
    case CreationReference => Fail(Unsupported(MethodReference), t)
    case ExpressionMethodReference => Fail(Unsupported(MethodReference), t)
    case SuperMethodReference => Fail(Unsupported(MethodReference), t)
    case TypeMethodReference => Fail(Unsupported(MethodReference), t)
    case VariableDeclarationExpression(fs) => Emit(FragmentsPushes(fs), t)
  }

  /** `this(args)` and `super(args)`: `this`, the arguments, `invokespecial`
      (ASTDecoder.kt:454-514). */
  function ConstructorCallPushes(m: MethodBinding, args: seq<Expr>): seq<Instr>
  {
    [InvokeSpecial(m.qualifiedSignature)] + ArgPushes(args, m.arity) + [LoadThis]
  }

  /** `new T(args)`: allocate, duplicate the reference, the arguments, `invokespecial`
      (ASTDecoder.kt:306-351). */
  function CreationPushes(ty: string, ctor: MethodBinding, args: seq<Expr>): seq<Instr>
  {
    [InvokeSpecial(ctor.qualifiedSignature)] + ArgPushes(args, ctor.arity) + [Dup, ObjAllocate(ty)]
  }

  /** A method call: the receiver (unless static), the arguments, the invoke, and the cast
      of a generic result (ASTDecoder.kt:353-411). */
  function InvocationPushes(m: MethodBinding, receiver: Option<Expr>, args: seq<Expr>): seq<Instr>
  {
    var invoke := if m.isStatic then InvokeStatic(m.qualifiedSignature) else InvokeVirtual(m.qualifiedSignature);
    CastPushes(m) + [invoke] + ArgPushes(args, m.arity) + ReceiverPushes(m, receiver)
  }

  /** `super.m(args)`: `this`, the arguments, `invokevirtualsuper` (ASTDecoder.kt:413-452). */
  function SuperInvocationPushes(m: MethodBinding, args: seq<Expr>): seq<Instr>
  {
    CastPushes(m) + [InvokeVirtualSuper(m.qualifiedSignature)] + ArgPushes(args, m.arity) + [LoadThis]
  }

  /** A field access; only `array.length` visits the receiver at once, with the same flag
      (ASTDecoder.kt:753-781). */
  function FieldAccessStep(recv: Expr, name: string, f: FieldBinding, recvIsArray: bool, t: bool): Step
    decreases recv, 2
  {
    if f.isEnumConstant then Fail(Todo, t)
    else if t then
      (if f.isStatic then Emit([StatPut(f.declaringClass, name, f.fieldType)], t)
       else Emit([ObjPut(name, f.fieldType), DecodeExpr(recv)], t))
    else if recvIsArray && name == "length" then Then(Emit([ArrLength], t), ExprStep(recv, t))
    else if f.isStatic then Emit([StatGet(f.declaringClass, name, f.fieldType)], t)
    else Emit([ObjGet(name, f.fieldType), DecodeExpr(recv)], t)
  }

  /** A qualified name; only `length` visits the qualifier at once, with the same flag
      (ASTDecoder.kt:845-898). */
  function QualifiedNameStep(q: Expr, name: string, ty: string, b: NameBinding, qIsArray: bool, qIsVariable: bool,
                             t: bool): Step
    decreases q, 2
  {
    if t then
      (match b
       case Variable(_, isField, _, isStatic, dc) =>
         if !isField then Fail(Todo, t)
         else if isStatic then Emit([StatPut(dc, name, ty)], t)
         else Emit([ObjPut(name, ty), DecodeExpr(q)], t)
       case NotAVariable => Fail(Todo, t))
    else if qIsArray && name == "length" then Then(Emit([ArrLength], t), ExprStep(q, t))
    else
      (match b
       case Variable(_, isField, isEnum, isStatic, dc) =>
         if isEnum then Emit([StatGet(dc, name, ty)], t)
         else if !isField then Fail(Todo, t)
         else if isStatic then Emit([StatGet(dc, name, ty)], t)
         else Emit([ObjGet(name, ty), DecodeExpr(q)], t)
       case NotAVariable =>
         if !qIsVariable then Fail(Todo, t)
         else if name == "length" then Then(Emit([ArrLength], t), ExprStep(q, t))
         else Emit([], t))
  }

  /** An assignment (ASTDecoder.kt:566-621): the load of the target (the assignment's
      value), the target visited in target mode, then the value to store. */
  function AssignmentStep(lhs: Expr, op: AssignOp, rhs: Expr, t: bool): Step
    decreases lhs, 2
  {
    Then(Emit([DecodeExpr(lhs)], t), Then(Assigning(ExprStep(lhs, true)), AssignmentTail(op, lhs, rhs)))
  }

  /** `++x` / `--x` with operator `k`: the load of the operand (the expression's value), the
      target code, then the updated value to store. */
  function UpdateStep(x: Expr, k: BinaryInstr, t: bool): Step
    decreases x, 2
  {
    Then(Emit([DecodeExpr(x)], t), Then(Assigning(ExprStep(x, true)), Emit([Binary(k), PushInt(1), DecodeExpr(x)], false)))
  }

  /** A prefix expression (ASTDecoder.kt:623-664). */
  function PrefixStep(op: PrefixOp, x: Expr, t: bool): Step
    decreases x, 3
  {
    match op
    case PreIncrement => UpdateStep(x, Add, t)
    case PreDecrement => UpdateStep(x, Sub, t)
    case PrePlus => Fail(Todo, t)
    case PreMinus => Emit([Binary(Mul), PushInt(-1), DecodeExpr(x)], t)
    case PreComplement => Fail(Todo, t)
    case PreNot => Emit([Not, DecodeExpr(x)], t)
  }

  /** A postfix expression (ASTDecoder.kt:666-690): the operand visited in target mode, then
      the old value (the expression's value) and the updated value to store. */
  function PostfixStep(op: PostfixOp, x: Expr): Step
    decreases x, 2
  {
    Then(Assigning(ExprStep(x, true)), Emit([Binary(IncDecInstr(op == PostIncrement)), PushInt(1), DecodeExpr(x), DecodeExpr(x)], false))
  }

  /** A simple name: parameters and locals load/store, fields get/put (ASTDecoder.kt:794-843). */
  function SimpleNameStep(id: string, ty: string, b: NameBinding, t: bool): Step
  {
    match b
    case NotAVariable => Fail(Todo, t)
    case Variable(isParameter, isField, isEnum, isStatic, dc) =>
      if isParameter then Emit([if t then Store(id, ty) else Load(id, Some(ty))], t)
      else if isField then
        (if isStatic then Emit([if t then StatPut(dc, id, ty) else StatGet(dc, id, ty)], t)
         else Emit([if t then ObjPut(id, ty) else ObjGet(id, ty), LoadThis], t))
      else if isEnum then Fail(Todo, t)
      else Emit([if t then Store(id, ty) else Load(id, Some(ty))], t)
  }

  // ---------------------------------------------------------------------------
  // Statements
  // ---------------------------------------------------------------------------

  /** A `for` whose initialisers, visited at once, have outcome `inits` (ASTDecoder.kt:129-149);
      a missing condition is the literal `true`. */
  function ForStep(cond: Option<Expr>, ups: seq<Expr>, body: Stmt, t: bool, inits: Step, d: Depths): Step
  {
    var c := cond.GetOr(BooleanLiteral(true));
    var loop := ForLoop(c, body, ups);
    Append(Then(Emit([BlockPop, BreakPop, ContinuePop, loop, DecodeExpr(c), ContinuePush(None, loop, Some(true), 2)], t),
                inits),
           [Checkpoint(None, d), BlockPush])
  }

  /** A `try` whose finally block has been visited with outcome `f` (ASTDecoder.kt:201-229):
      the pops and the body, the resources, then the handlers with the depths reached
      after the finally code. */
  function TryStep(res: seq<Expr>, body: Stmt, catches: seq<CatchClause>, f: Step, d: Depths): Step
  {
    Append(Then(Then(f, Emit([BlockPop, ExcpPop, DecodeStmt(body)], f.target)), AcceptAll(res, f.target)),
           [ExcpPush(Handles(catches), d.instructions + |f.pushed|, d.operands, d.scopes), BlockPush])
  }

  function Checkpoint(lbl: Option<string>, d: Depths): Instr
  {
    BreakPush(lbl, d.instructions, d.operands, d.scopes)
  }

  function Handles(cs: seq<CatchClause>): (r: seq<ExceptionHandle>)
    ensures |r| == |cs|
  {
    seq(|cs|, i requires 0 <= i < |cs| => ExceptionHandle(cs[i].name, cs[i].exceptionType, cs[i].body))
  }

  /** Whether an expression statement keeps its value: inside an expression, or a plain
      method invocation whose return type is `void`. */
  function KeepsResult(e: Expr, parentIsExpression: bool): bool
  {
    parentIsExpression || (e.MethodInvocation? && e.callee.returnsVoid)
  }

  /** The common frame of the loops: block, break and continue handlers around the body. */
  function LoopPushes(loop: Instr, cond: seq<Instr>, cont: Instr, d: Depths): seq<Instr>
  {
    [BlockPop, BreakPop, ContinuePop, loop] + cond + [cont, Checkpoint(None, d), BlockPush]
  }

  /** One visit of a statement when the frame has the depths `d` (ASTDecoder.kt:34-293, 454-514). */
  function StmtStep(s: Stmt, t: bool, d: Depths): Step
    decreases s
  {
    match s
    case Block(ss) => Emit([BlockPop] + AddStmtsReversed(ss) + [BlockPush], t)
    case SynchronizedStatement => Fail(Todo, t)
    case VariableDeclarationStatement(fs) => Emit(FragmentsPushes(fs), t)
    case DoStatement(c, body) =>
      var loop := WhileLoop(c, body);
      Emit(LoopPushes(loop, [DecodeExpr(c), DecodeStmt(body)], ContinuePush(None, loop, Some(true), 3), d), t)
    case WhileStatement(c, body) =>
      var loop := WhileLoop(c, body);
      Emit(LoopPushes(loop, [DecodeExpr(c)], ContinuePush(None, loop, Some(true), 2), d), t)
    case ForStatement(inits, cond, ups, body) => ForStep(cond, ups, body, t, AcceptAll(inits, t), d)
    case EnhancedForStatement(name, ty, iterable, body) =>
      var loop := ForeachLoop(name, ty, body);
      Emit(LoopPushes(loop, [DecodeExpr(iterable)], ContinuePush(None, loop, None, 2), d), t)
    case IfStatement(c, a, b) => Emit([ConditionalIf(a, b), DecodeExpr(c)], t)
    case SwitchStatement(sel, ss) =>
      Emit([BlockPop, BreakPop, ConditionalSwitch(ss), DecodeExpr(sel), Checkpoint(None, d), BlockPush], t)
    case SwitchCase => Emit([], t)
    case TryStatement(res, body, catches, fin) =>
      TryStep(res, body, catches, if fin.Some? then StmtStep(fin.value, t, d) else Emit([], t), d)
    case LabeledStatement(lbl, body) => Emit([BreakPop, DecodeStmt(body), Checkpoint(Some(lbl), d)], t)
    case ContinueStatement(lbl) => Emit([ContinueJump(lbl)], t)
    case BreakStatement(lbl) => Emit([BreakJump(lbl)], t)
    case ReturnStatement(v) => Emit(if v.Some? then [ReturnValue, DecodeExpr(v.value)] else [ReturnVoid], t)
    case ThrowStatement(x) => Emit([ThrowException, DecodeExpr(x)], t)
    case ExpressionStatement(x, p) => Emit(AddPushes(x, KeepsResult(x, p)), t)
    case ConstructorInvocation(m, args) => Emit(ConstructorCallPushes(m, args), t)
    case SuperConstructorInvocation(m, args) => Emit(ConstructorCallPushes(m, args), t)
    case TypeDeclarationStatement => Emit([], t)
  }
}
