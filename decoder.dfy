/**
 * The instruction compiler of an interpreted frame (ASTDecoder.kt): a visitor that, for
 * the node it visits, pushes interpreted instructions onto the frame's instruction stack
 * and keeps the assignment-target flag between visits. Every visit method is proved to
 * push exactly what `Lowering.ExprStep` / `Lowering.StmtStep` say, to leave the flag as
 * they say and to abort with the same failure.
 */
module Decoder {
  import opened Wrappers
  import opened Syntax
  import opened Lowering

  lemma AppendAssoc(a: seq<Instr>, b: seq<Instr>, c: seq<Instr>)
    ensures a + b + c == a + (b + c)
  {
  }

  /** The expressions without sub-expressions. */
  predicate IsLeaf(e: Expr)
  {
    || e.BooleanLiteral? || e.CharacterLiteral? || e.NullLiteral? || e.NumberLiteral?
    || e.StringLiteral? || e.TypeLiteral? || e.ThisExpression? || e.LambdaExpression?
    || e.CreationReference? || e.ExpressionMethodReference? || e.SuperMethodReference? || e.TypeMethodReference?
  }

  class ASTDecoder {
    /** The frame's instruction stack; the top is the last element. */
    var instructions: seq<Instr>
    /** Set while the target of an assignment or update is visited. */
    var isAssignmentTarget: bool
    /** Sizes of the frame's operand stack and local scope stack. Decoding never changes them. */
    const operands: nat
    const scopes: nat

    constructor (instructions0: seq<Instr>, operands0: nat, scopes0: nat)
      ensures instructions == instructions0 && operands == operands0 && scopes == scopes0
      ensures !isAssignmentTarget
    {
      instructions := instructions0;
      operands := operands0;
      scopes := scopes0;
      isAssignmentTarget := false;
    }

    /** The depths a checkpoint captures now. */
    function Depth(): Depths
      reads this
    {
      Depths(|instructions|, operands, scopes)
    }

    // -------------------------------------------------------------------------
    // Helpers (ASTDecoder.kt:19-26)
    // -------------------------------------------------------------------------

    method Push(i: Instr)
      modifies this
      ensures instructions == old(instructions) + [i]
      ensures isAssignmentTarget == old(isAssignmentTarget)
    {
      instructions := instructions + [i];
    }

    /** Several pushes in a row; the last of `xs` ends on top. */
    method PushAll(xs: seq<Instr>)
      modifies this
      ensures instructions == old(instructions) + xs
      ensures isAssignmentTarget == old(isAssignmentTarget)
    {
      instructions := instructions + xs;
    }

    method AddStmt(s: Stmt)
      modifies this
      ensures instructions == old(instructions) + [DecodeStmt(s)]
      ensures isAssignmentTarget == old(isAssignmentTarget)
    {
      Push(DecodeStmt(s));
    }

    method AddExpr(e: Expr, store: bool)
      modifies this
      ensures instructions == old(instructions) + AddPushes(e, store)
      ensures isAssignmentTarget == old(isAssignmentTarget)
    {
      if !store {
        Push(Pop);
      }
      Push(DecodeExpr(e));
    }

    /** `es.reversed().forEach { add(it) }`. */
    method AddExprsReversedLoop(es: seq<Expr>)
      modifies this
      ensures instructions == old(instructions) + AddExprsReversed(es)
      ensures isAssignmentTarget == old(isAssignmentTarget)
    {
      var i := |es|;
      while i > 0
        invariant 0 <= i <= |es|
        invariant instructions == old(instructions) + AddExprsReversed(es[i..])
        invariant isAssignmentTarget == old(isAssignmentTarget)
      {
        assert es[i - 1..][1..] == es[i..];
        AddExpr(es[i - 1], true);
        i := i - 1;
      }
      assert es[0..] == es;
    }

    method AddStmtsReversedLoop(ss: seq<Stmt>)
      modifies this
      ensures instructions == old(instructions) + AddStmtsReversed(ss)
      ensures isAssignmentTarget == old(isAssignmentTarget)
    {
      var i := |ss|;
      while i > 0
        invariant 0 <= i <= |ss|
        invariant instructions == old(instructions) + AddStmtsReversed(ss[i..])
        invariant isAssignmentTarget == old(isAssignmentTarget)
      {
        assert ss[i - 1..][1..] == ss[i..];
        AddStmt(ss[i - 1]);
        i := i - 1;
      }
      assert ss[0..] == ss;
    }

    /** `for (i in es.size - 1 downTo lo)`: one store group per index, highest first. */
    method PushStoreGroups(es: seq<Expr>, lo: nat)
      modifies this
      ensures instructions == old(instructions) + StoreGroups(es, lo)
      ensures isAssignmentTarget == old(isAssignmentTarget)
    {
      var i: int := |es| - 1;
      while i >= lo
        invariant -1 <= i < |es|
        invariant i + 1 >= lo || i == |es| - 1
        invariant instructions == old(instructions) + StoreGroups(es, i + 1)
        invariant isAssignmentTarget == old(isAssignmentTarget)
      {
        Push(ArrStore);
        AddExpr(es[i], true);
        Push(PushInt(i));
        Push(Dup);
        i := i - 1;
      }
    }

    /** The argument pushes shared by the four kinds of call (ASTDecoder.kt:324-345). */
    method PushArguments(args: seq<Expr>, arity: Arity)
      modifies this
      ensures instructions == old(instructions) + ArgPushes(args, arity)
      ensures isAssignmentTarget == old(isAssignmentTarget)
    {
      match arity
      case Fixed =>
        AddExprsReversedLoop(args);
      case Varargs(regular, component) =>
        PushStoreGroups(args, regular);
        Push(ArrAllocate(component));
        AddExprsReversedLoop(Take(args, regular));
    }

    /** A declaration fragment, visited at once (ASTDecoder.kt:60-84). */
    method VisitFragment(f: Fragment)
      modifies this
      ensures instructions == old(instructions) + FragmentPushes(f)
      ensures isAssignmentTarget == old(isAssignmentTarget)
    {
      if f.initializer.Some? {
        Push(Store(f.name, f.varType));
        AddExpr(f.initializer.value, true);
      }
      Push(Allocate(f.name, f.varType));
    }

    /** `fragments().reversed().forEach { accept(this) }` (ASTDecoder.kt:50-58). */
    method VisitFragments(fs: seq<Fragment>)
      modifies this
      ensures instructions == old(instructions) + FragmentsPushes(fs)
      ensures isAssignmentTarget == old(isAssignmentTarget)
    {
      var i := |fs|;
      while i > 0
        invariant 0 <= i <= |fs|
        invariant instructions == old(instructions) + FragmentsPushes(fs[i..])
        invariant isAssignmentTarget == old(isAssignmentTarget)
      {
        assert fs[i - 1..][1..] == fs[i..];
        VisitFragment(fs[i - 1]);
        i := i - 1;
      }
      assert fs[0..] == fs;
    }

    /** `es.reversed().forEach { accept(this) }`: each expression visited at once with the
        flag the previous visit left; the first abort ends the loop. */
    method AcceptAllLoop(es: seq<Expr>) returns (err: Option<Failure>)
      modifies this
      ensures var st := AcceptAll(es, old(isAssignmentTarget));
        instructions == old(instructions) + st.pushed && isAssignmentTarget == st.target && err == st.err
    {
      ghost var t0 := isAssignmentTarget;
      var i := |es|;
      err := None;
      while i > 0
        invariant 0 <= i <= |es|
        invariant AcceptAll(es[i..], t0).err == None && err == None
        invariant instructions == old(instructions) + AcceptAll(es[i..], t0).pushed
        invariant isAssignmentTarget == AcceptAll(es[i..], t0).target
      {
        err := AcceptNext(es, i, t0, old(instructions));
        i := i - 1;
        if err.Some? {
          AcceptAllStops(es, i, t0);
          return;
        }
      }
      assert es[0..] == es;
    }

    /** One iteration of `AcceptAllLoop`: visits `es[i - 1]` after the suffix `es[i..]`. */
    method AcceptNext(es: seq<Expr>, i: nat, ghost t0: bool, ghost start: seq<Instr>) returns (err: Option<Failure>)
      requires 0 < i <= |es|
      requires AcceptAll(es[i..], t0).err == None
      requires instructions == start + AcceptAll(es[i..], t0).pushed
      requires isAssignmentTarget == AcceptAll(es[i..], t0).target
      modifies this
      ensures var acc := AcceptAll(es[i - 1..], t0);
        instructions == start + acc.pushed && isAssignmentTarget == acc.target && err == acc.err
    {
      ghost var acc := AcceptAll(es[i..], t0);
      AcceptAllExtend(es, i, t0);
      ghost var next := ExprStep(es[i - 1], acc.target);
      ghost var after := AcceptAll(es[i - 1..], t0);
      assert after.pushed == acc.pushed + next.pushed && after.target == next.target && after.err == next.err;
      ghost var before := instructions;
      err := VisitExpr(es[i - 1]);
      assert instructions == before + next.pushed;
      AppendAssoc(start, acc.pushed, next.pushed);
    }

    // -------------------------------------------------------------------------
    // Expressions (ASTDecoder.kt:299-975)
    // -------------------------------------------------------------------------

    method VisitExpr(e: Expr) returns (err: Option<Failure>)
      modifies this
      decreases e, 2
      ensures var st := ExprStep(e, old(isAssignmentTarget));
        instructions == old(instructions) + st.pushed && isAssignmentTarget == st.target && err == st.err
    {
      if e.Assignment? {
        err := VisitAssignment(e);
      } else if e.Prefix? {
        err := VisitPrefix(e);
      } else if e.Postfix? {
        err := VisitPostfix(e);
      } else {
        err := VisitNode(e);
      }
    }

    /** The kinds that keep the flag they are given. */
    method VisitNode(e: Expr) returns (err: Option<Failure>)
      requires !IsUpdate(e)
      modifies this
      decreases e, 1
      ensures var st := NodeStep(e, old(isAssignmentTarget));
        instructions == old(instructions) + st.pushed && isAssignmentTarget == st.target && err == st.err
    {
      if e.ClassInstanceCreation? {
        err := VisitInstanceCreation(e);
      } else if e.MethodInvocation? {
        err := VisitMethodInvocation(e);
      } else if e.SuperMethodInvocation? {
        err := VisitSuperMethodInvocation(e);
      } else if e.ArrayCreation? || e.ArrayInitializer? {
        err := VisitArrayCreation(e);
      } else if e.Infix? {
        err := VisitInfix(e);
      } else if e.SimpleName? {
        err := VisitSimpleName(e);
      } else if e.FieldAccess? {
        err := VisitFieldAccess(e);
      } else if e.QualifiedName? {
        err := VisitQualifiedName(e);
      } else {
        err := VisitSimple(e);
      }
    }

    /** `assigning { x.accept(this) }` (ASTDecoder.kt:559-564): the flag is set for the visit
        and cleared after it; a throw leaves it set. */
    method Assigning(x: Expr) returns (err: Option<Failure>)
      modifies this
      decreases x, 3
      ensures var st := Lowering.Assigning(ExprStep(x, true));
        instructions == old(instructions) + st.pushed && isAssignmentTarget == st.target && err == st.err
    {
      isAssignmentTarget := true;
      err := VisitExpr(x);
      if err.Some? {
        return;
      }
      isAssignmentTarget := false;
    }

    method VisitInstanceCreation(e: Expr) returns (err: Option<Failure>)
      requires e.ClassInstanceCreation?
      modifies this
      ensures var st := NodeStep(e, old(isAssignmentTarget));
        instructions == old(instructions) + st.pushed && isAssignmentTarget == st.target && err == st.err
    {
      if e.nonStaticInner {
        return Some(Unsupported(NonStaticInnerClass));
      }
      if e.anonymous {
        return Some(Unsupported(AnonymousClass));
      }
      if e.scoped {
        return Some(Unsupported(ScopedConstructorCall));
      }
      Push(InvokeSpecial(e.ctor.qualifiedSignature));
      PushArguments(e.args, e.ctor.arity);
      Push(Dup);
      Push(ObjAllocate(e.typeSignature));
      err := None;
    }

    method VisitMethodInvocation(e: Expr) returns (err: Option<Failure>)
      requires e.MethodInvocation?
      modifies this
      ensures instructions == old(instructions) + InvocationPushes(e.callee, e.receiver, e.args)
      ensures isAssignmentTarget == old(isAssignmentTarget) && err == None
    {
      var m := e.callee;
      PushCast(m);
      var invoke := if m.isStatic then InvokeStatic(m.qualifiedSignature) else InvokeVirtual(m.qualifiedSignature);
      Push(invoke);
      PushArguments(e.args, m.arity);
      if !m.isStatic {
        if e.receiver.Some? {
          AddExpr(e.receiver.value, true);
        } else {
          Push(LoadThis);
        }
      }
      ghost var o, c, a := old(instructions), CastPushes(m), ArgPushes(e.args, m.arity);
      AppendAssoc(o, c, [invoke]);
      AppendAssoc(o, c + [invoke], a);
      AppendAssoc(o, c + [invoke] + a, ReceiverPushes(m, e.receiver));
      err := None;
    }

    /** The cast of a generic call's result, pushed first so that it runs last. */
    method PushCast(m: MethodBinding)
      modifies this
      ensures instructions == old(instructions) + CastPushes(m)
      ensures isAssignmentTarget == old(isAssignmentTarget)
    {
      if m.differsFromDeclaration && !m.returnsPrimitive {
        Push(Cast(m.returnSignature));
      }
    }

    method VisitSuperMethodInvocation(e: Expr) returns (err: Option<Failure>)
      requires e.SuperMethodInvocation?
      modifies this
      ensures instructions == old(instructions) + SuperInvocationPushes(e.callee, e.args)
      ensures isAssignmentTarget == old(isAssignmentTarget) && err == None
    {
      var m := e.callee;
      PushCast(m);
      var invoke := InvokeVirtualSuper(m.qualifiedSignature);
      Push(invoke);
      PushArguments(e.args, m.arity);
      Push(LoadThis);
      ghost var o, c, a := old(instructions), CastPushes(m), ArgPushes(e.args, m.arity);
      AppendAssoc(o, c, [invoke]);
      AppendAssoc(o, c + [invoke], a);
      AppendAssoc(o, c + [invoke] + a, [LoadThis]);
      err := None;
    }

    /** Array creation with an optional initializer, and a bare array initializer
        (ASTDecoder.kt:516-546). */
    method VisitArrayCreation(e: Expr) returns (err: Option<Failure>)
      requires e.ArrayCreation? || e.ArrayInitializer?
      modifies this
      ensures var st := NodeStep(e, old(isAssignmentTarget));
        instructions == old(instructions) + st.pushed && isAssignmentTarget == st.target && err == st.err
    {
      if e.ArrayCreation? {
        if e.initializer.Some? {
          PushStoreGroups(e.initializer.value, 0);
        }
        Push(ArrAllocate(e.creationComponent));
      } else {
        PushStoreGroups(e.elements, 0);
        Push(ArrAllocate(e.initComponent));
      }
      err := None;
    }

    method VisitAssignment(e: Expr) returns (err: Option<Failure>)
      requires e.Assignment?
      modifies this
      decreases e, 1
      ensures var st := AssignmentStep(e.lhs, e.aop, e.rhs, old(isAssignmentTarget));
        instructions == old(instructions) + st.pushed && isAssignmentTarget == st.target && err == st.err
    {
      err := VisitTarget(e.lhs);
      if err.Some? {
        return;
      }
      err := PushAssignmentTail(e.aop, e.lhs, e.rhs);
    }

    /** The `when (node.operator)` of an assignment, after the target code (ASTDecoder.kt:576-618). */
    method PushAssignmentTail(op: AssignOp, lhs: Expr, rhs: Expr) returns (err: Option<Failure>)
      modifies this
      ensures instructions == old(instructions) + AssignmentTail(op, lhs, rhs).pushed
      ensures isAssignmentTarget == old(isAssignmentTarget) && err == AssignmentTail(op, lhs, rhs).err
    {
      err := None;
      if op == Assign {
        AddExpr(rhs, true);
      } else {
        match CompoundInstr(op)
        case Some(k) =>
          Push(Binary(k));
          AddExpr(rhs, true);
          AddExpr(lhs, true);
        case None =>
          err := Some(Todo);
      }
    }

    method VisitPrefix(e: Expr) returns (err: Option<Failure>)
      requires e.Prefix?
      modifies this
      decreases e, 1
      ensures var st := PrefixStep(e.pop, e.operand, old(isAssignmentTarget));
        instructions == old(instructions) + st.pushed && isAssignmentTarget == st.target && err == st.err
    {
      var x := e.operand;
      match e.pop
      case PreIncrement =>
        err := VisitPrefixUpdate(x, Add);
      case PreDecrement =>
        err := VisitPrefixUpdate(x, Sub);
      case PrePlus =>
        err := Some(Todo);
      case PreMinus =>
        Push(Binary(Mul));
        Push(PushInt(-1));
        AddExpr(x, true);
        err := None;
      case PreComplement =>
        err := Some(Todo);
      case PreNot =>
        Push(Not);
        AddExpr(x, true);
        err := None;
    }

    /** `++x` and `--x`, with operator `k`. */
    method VisitPrefixUpdate(x: Expr, k: BinaryInstr) returns (err: Option<Failure>)
      modifies this
      decreases x, 5
      ensures var st := UpdateStep(x, k, old(isAssignmentTarget));
        instructions == old(instructions) + st.pushed && isAssignmentTarget == st.target && err == st.err
    {
      ghost var target := Lowering.Assigning(ExprStep(x, true));
      var tail := [Binary(k), PushInt(1), DecodeExpr(x)];
      err := VisitTarget(x);
      AppendAssoc(old(instructions), [DecodeExpr(x)], target.pushed);
      if err.Some? {
        return;
      }
      PushAll(tail);
      AppendAssoc(old(instructions), [DecodeExpr(x)] + target.pushed, tail);
      AppendAssoc([DecodeExpr(x)], target.pushed, tail);
    }

    /** The target's own code, then its visit in target mode: the common head of an
        assignment and of `++x` / `--x`. */
    method VisitTarget(x: Expr) returns (err: Option<Failure>)
      modifies this
      decreases x, 4
      ensures var target := Lowering.Assigning(ExprStep(x, true));
        instructions == old(instructions) + [DecodeExpr(x)] + target.pushed
        && isAssignmentTarget == target.target && err == target.err
    {
      AddExpr(x, true);
      err := Assigning(x);
    }

    method VisitPostfix(e: Expr) returns (err: Option<Failure>)
      requires e.Postfix?
      modifies this
      decreases e, 1
      ensures var st := PostfixStep(e.xop, e.postOperand);
        instructions == old(instructions) + st.pushed && isAssignmentTarget == st.target && err == st.err
    {
      var x := e.postOperand;
      err := Assigning(x);
      if err.Some? {
        return;
      }
      if e.xop == PostIncrement {
        Push(Binary(Add));
      } else {
        Push(Binary(Sub));
      }
      Push(PushInt(1));
      AddExpr(x, true);
      AddExpr(x, true);
    }

    method VisitInfix(e: Expr) returns (err: Option<Failure>)
      requires e.Infix?
      modifies this
      ensures instructions == old(instructions) + InfixPushes([e.left, e.right] + e.extended, InfixInstr(e.iop))
      ensures isAssignmentTarget == old(isAssignmentTarget) && err == None
    {
      var k := InfixInstr(e.iop);
      var es := [e.left, e.right] + e.extended;
      var head := [Binary(k), DecodeExpr(es[|es| - 1])];
      PushAll(head);
      PushInfixMiddle(es[1..|es| - 1], k);
      PushAll([DecodeExpr(es[0])]);
      AppendAssoc(old(instructions), head, InfixMiddle(es[1..|es| - 1], k));
      AppendAssoc(old(instructions), head + InfixMiddle(es[1..|es| - 1], k), [DecodeExpr(es[0])]);
      err := None;
    }

    /** The operands between the first and the last, each preceded by the operator
        (ASTDecoder.kt:722-729). */
    method PushInfixMiddle(middle: seq<Expr>, k: BinaryInstr)
      modifies this
      ensures instructions == old(instructions) + InfixMiddle(middle, k)
      ensures isAssignmentTarget == old(isAssignmentTarget)
    {
      var i := |middle|;
      while i > 0
        invariant 0 <= i <= |middle|
        invariant instructions == old(instructions) + InfixMiddle(middle[i..], k)
        invariant isAssignmentTarget == old(isAssignmentTarget)
      {
        assert middle[i - 1..][1..] == middle[i..];
        var pair := [Binary(k), DecodeExpr(middle[i - 1])];
        PushAll(pair);
        AppendAssoc(old(instructions), InfixMiddle(middle[i..], k), pair);
        i := i - 1;
      }
      assert middle[0..] == middle;
    }

    method VisitFieldAccess(e: Expr) returns (err: Option<Failure>)
      requires e.FieldAccess?
      modifies this
      decreases e, 0
      ensures var t := old(isAssignmentTarget);
        var st := FieldAccessStep(e.target, e.fieldName, e.field, e.targetIsArray, t);
        instructions == old(instructions) + st.pushed && isAssignmentTarget == st.target && err == st.err
    {
      var f := e.field;
      if f.isEnumConstant {
        return Some(Todo);
      }
      err := None;
      if isAssignmentTarget {
        if f.isStatic {
          Push(StatPut(f.declaringClass, e.fieldName, f.fieldType));
        } else {
          Push(ObjPut(e.fieldName, f.fieldType));
          AddExpr(e.target, true);
        }
      } else if e.targetIsArray && e.fieldName == "length" {
        Push(ArrLength);
        err := VisitExpr(e.target);
      } else if f.isStatic {
        Push(StatGet(f.declaringClass, e.fieldName, f.fieldType));
      } else {
        Push(ObjGet(e.fieldName, f.fieldType));
        AddExpr(e.target, true);
      }
    }

    method VisitSimpleName(e: Expr) returns (err: Option<Failure>)
      requires e.SimpleName?
      modifies this
      ensures var st := NodeStep(e, old(isAssignmentTarget));
        instructions == old(instructions) + st.pushed && isAssignmentTarget == st.target && err == st.err
    {
      var id, ty := e.identifier, e.nameType;
      match e.binding
      case NotAVariable =>
        err := Some(Todo);
      case Variable(isParameter, isField, isEnum, isStatic, dc) =>
        err := None;
        if isParameter {
          Push(if isAssignmentTarget then Store(id, ty) else Load(id, Some(ty)));
        } else if isField {
          if isStatic {
            Push(if isAssignmentTarget then StatPut(dc, id, ty) else StatGet(dc, id, ty));
          } else {
            Push(if isAssignmentTarget then ObjPut(id, ty) else ObjGet(id, ty));
            Push(LoadThis);
          }
        } else if isEnum {
          err := Some(Todo);
        } else {
          Push(if isAssignmentTarget then Store(id, ty) else Load(id, Some(ty)));
        }
    }

    method VisitQualifiedName(e: Expr) returns (err: Option<Failure>)
      requires e.QualifiedName?
      modifies this
      decreases e, 0
      ensures var t := old(isAssignmentTarget);
        var st := QualifiedNameStep(e.qualifier, e.qualifiedId, e.qualifiedType, e.qbinding, e.qualifierIsArray,
                                    e.qualifierIsVariable, t);
        instructions == old(instructions) + st.pushed && isAssignmentTarget == st.target && err == st.err
    {
      var q, name, ty := e.qualifier, e.qualifiedId, e.qualifiedType;
      err := None;
      if isAssignmentTarget {
        match e.qbinding
        case Variable(_, isField, _, isStatic, dc) =>
          if !isField {
            err := Some(Todo);
          } else if isStatic {
            Push(StatPut(dc, name, ty));
          } else {
            Push(ObjPut(name, ty));
            AddExpr(q, true);
          }
        case NotAVariable =>
          err := Some(Todo);
      } else if e.qualifierIsArray && name == "length" {
        Push(ArrLength);
        err := VisitExpr(q);
      } else {
        match e.qbinding
        case Variable(_, isField, isEnum, isStatic, dc) =>
          if isEnum {
            Push(StatGet(dc, name, ty));
          } else if !isField {
            err := Some(Todo);
          } else if isStatic {
            Push(StatGet(dc, name, ty));
          } else {
            Push(ObjGet(name, ty));
            AddExpr(q, true);
          }
        case NotAVariable =>
          if !e.qualifierIsVariable {
            err := Some(Todo);
          } else if name == "length" {
            Push(ArrLength);
            err := VisitExpr(q);
          }
      }
    }

    /** The node kinds whose visit neither recurses nor loops over children. */
    method VisitSimple(e: Expr) returns (err: Option<Failure>)
      requires !IsUpdate(e) && !e.ClassInstanceCreation? && !e.MethodInvocation? && !e.SuperMethodInvocation?
      requires !e.ArrayCreation? && !e.ArrayInitializer? && !e.Infix? && !e.SimpleName?
      requires !e.FieldAccess? && !e.QualifiedName?
      modifies this
      ensures var st := NodeStep(e, old(isAssignmentTarget));
        instructions == old(instructions) + st.pushed && isAssignmentTarget == st.target && err == st.err
    {
      err := None;
      if e.Parenthesized? {
        AddExpr(e.inner, true);
      } else if e.Conditional? {
        PushAll([ConditionalTernary(e.thenExpr, e.elseExpr), DecodeExpr(e.test)]);
      } else if e.ArrayAccess? {
        var ArrayAccess(arr, index) := e;
        if isAssignmentTarget {
          PushAll([ArrStoreRev, DecodeExpr(arr), DecodeExpr(index)]);
        } else {
          PushAll([ArrLoad, DecodeExpr(index), DecodeExpr(arr)]);
        }
      } else if e.SuperFieldAccess? {
        if e.qualified {
          err := Some(NotImplemented);
        } else {
          PushAll([ObjGet(e.superField, e.superFieldType), LoadThis]);
        }
      } else if e.CastExpression? {
        PushAll([Cast(e.castType), DecodeExpr(e.castOperand)]);
      } else if e.InstanceofExpression? {
        PushAll([InstanceOf(e.instanceType), DecodeExpr(e.instanceOperand)]);
      } else if e.VariableDeclarationExpression? {
        VisitFragments(e.exprFragments);
      } else {
        err := VisitLeaf(e);
      }
    }

    /** The literals, `this`, lambdas and method references: at most one push. */
    method VisitLeaf(e: Expr) returns (err: Option<Failure>)
      requires IsLeaf(e)
      modifies this
      ensures var st := NodeStep(e, old(isAssignmentTarget));
        instructions == old(instructions) + st.pushed && isAssignmentTarget == st.target && err == st.err
    {
      err := None;
      if e.BooleanLiteral? {
        Push(LdcBoolean(e.boolValue));
      } else if e.CharacterLiteral? {
        if |e.escapedValue| == 0 {
          err := Some(NoSuchElement);
        } else {
          Push(LdcChar(e.escapedValue[0]));
        }
      } else if e.NullLiteral? {
        Push(LdcNull);
      } else if e.NumberLiteral? {
        Push(LdcNumber(e.token, e.numberType));
      } else if e.StringLiteral? {
        Push(LdcString(e.stringEscaped));
      } else if e.TypeLiteral? {
        Push(LdcType(e.literalType));
      } else if e.ThisExpression? {
        if e.thisQualified {
          err := Some(IllegalArgument);
        } else {
          Push(LoadThis);
        }
      } else if e.LambdaExpression? {
        err := Some(Unsupported(Lambda));
      } else {
        err := Some(Unsupported(MethodReference));
      }
    }

    // -------------------------------------------------------------------------
    // Statements (ASTDecoder.kt:34-293, 454-514, 978-980)
    // -------------------------------------------------------------------------

    method VisitStmt(s: Stmt) returns (err: Option<Failure>)
      modifies this
      decreases s, 1
      ensures var st := StmtStep(s, old(isAssignmentTarget), old(Depth()));
        instructions == old(instructions) + st.pushed && isAssignmentTarget == st.target && err == st.err
    {
      if s.DoStatement? {
        err := VisitDo(s);
      } else if s.WhileStatement? {
        err := VisitWhile(s);
      } else if s.EnhancedForStatement? {
        err := VisitEnhancedFor(s);
      } else if s.ForStatement? {
        err := VisitFor(s);
      } else if s.SwitchStatement? {
        err := VisitSwitch(s);
      } else if s.TryStatement? {
        err := VisitTry(s);
      } else {
        err := VisitSimpleStmt(s);
      }
    }

    /** What runs when a loop ends: `block_pop`, `break_pop`, `continue_pop`, above which
        the loop instruction sits. */
    method PushLoopExit(loop: Instr)
      modifies this
      ensures instructions == old(instructions) + [BlockPop, BreakPop, ContinuePop, loop]
      ensures isAssignmentTarget == old(isAssignmentTarget)
    {
      Push(BlockPop);
      Push(BreakPop);
      Push(ContinuePop);
      Push(loop);
    }

    /** What runs first in a loop or switch: `block_push`, then the `break_push` checkpoint
        with the instruction depth read before the visit. */
    method PushLoopEntry(instructionSize: nat)
      modifies this
      ensures instructions == old(instructions) + [Checkpoint(None, Depths(instructionSize, operands, scopes)), BlockPush]
      ensures isAssignmentTarget == old(isAssignmentTarget)
    {
      Push(BreakPush(None, instructionSize, operands, scopes));
      Push(BlockPush);
    }

    /** `do` (ASTDecoder.kt:88-106): the body is pushed above the condition, so it runs first. */
    method VisitDo(s: Stmt) returns (err: Option<Failure>)
      requires s.DoStatement?
      modifies this
      ensures var loop := WhileLoop(s.doCondition, s.doBody);
        instructions == old(instructions)
          + LoopPushes(loop, [DecodeExpr(s.doCondition), DecodeStmt(s.doBody)], ContinuePush(None, loop, Some(true), 3), old(Depth()))
      ensures isAssignmentTarget == old(isAssignmentTarget) && err == None
    {
      var loop := WhileLoop(s.doCondition, s.doBody);
      var instructionSize := |instructions|;
      PushLoopExit(loop);
      AddExpr(s.doCondition, true);
      AddStmt(s.doBody);
      Push(ContinuePush(None, loop, Some(true), 3));
      PushLoopEntry(instructionSize);
      err := None;
    }

    /** `while` (ASTDecoder.kt:108-125). */
    method VisitWhile(s: Stmt) returns (err: Option<Failure>)
      requires s.WhileStatement?
      modifies this
      ensures var loop := WhileLoop(s.whileCondition, s.whileBody);
        instructions == old(instructions)
          + LoopPushes(loop, [DecodeExpr(s.whileCondition)], ContinuePush(None, loop, Some(true), 2), old(Depth()))
      ensures isAssignmentTarget == old(isAssignmentTarget) && err == None
    {
      var loop := WhileLoop(s.whileCondition, s.whileBody);
      var instructionSize := |instructions|;
      PushLoopExit(loop);
      AddExpr(s.whileCondition, true);
      Push(ContinuePush(None, loop, Some(true), 2));
      PushLoopEntry(instructionSize);
      err := None;
    }

    /** Enhanced `for` (ASTDecoder.kt:151-168): its continue handler carries no value. */
    method VisitEnhancedFor(s: Stmt) returns (err: Option<Failure>)
      requires s.EnhancedForStatement?
      modifies this
      ensures var loop := ForeachLoop(s.parameter, s.parameterType, s.foreachBody);
        instructions == old(instructions)
          + LoopPushes(loop, [DecodeExpr(s.iterable)], ContinuePush(None, loop, None, 2), old(Depth()))
      ensures isAssignmentTarget == old(isAssignmentTarget) && err == None
    {
      var loop := ForeachLoop(s.parameter, s.parameterType, s.foreachBody);
      var instructionSize := |instructions|;
      PushLoopExit(loop);
      AddExpr(s.iterable, true);
      Push(ContinuePush(None, loop, None, 2));
      PushLoopEntry(instructionSize);
      err := None;
    }

    method VisitFor(s: Stmt) returns (err: Option<Failure>)
      requires s.ForStatement?
      modifies this
      ensures var st := ForStep(s.forCondition, s.updaters, s.forBody, old(isAssignmentTarget),
                                AcceptAll(s.initializers, old(isAssignmentTarget)), old(Depth()));
        instructions == old(instructions) + st.pushed && isAssignmentTarget == st.target && err == st.err
    {
      var c := s.forCondition.GetOr(BooleanLiteral(true));
      var loop := ForLoop(c, s.forBody, s.updaters);
      var instructionSize := |instructions|;
      var head := [BlockPop, BreakPop, ContinuePop, loop, DecodeExpr(c), ContinuePush(None, loop, Some(true), 2)];
      PushAll(head);
      ghost var inits := AcceptAll(s.initializers, isAssignmentTarget);
      err := AcceptAllLoop(s.initializers);
      if err.Some? {
        return;
      }
      PushLoopEntry(instructionSize);
      AppendAssoc(old(instructions), head, inits.pushed);
      AppendAssoc(old(instructions), head + inits.pushed, [Checkpoint(None, old(Depth())), BlockPush]);
    }

    method VisitSwitch(s: Stmt) returns (err: Option<Failure>)
      requires s.SwitchStatement?
      modifies this
      decreases s, 0
      ensures var st := StmtStep(s, old(isAssignmentTarget), old(Depth()));
        instructions == old(instructions) + st.pushed && isAssignmentTarget == st.target && err == st.err
    {
      var instructionSize := |instructions|;
      Push(BlockPop);
      Push(BreakPop);
      Push(ConditionalSwitch(s.switchBody));
      AddExpr(s.selector, true);
      PushLoopEntry(instructionSize);
      err := None;
    }

    /** `try` (ASTDecoder.kt:201-229): the finally block is visited first, and the depths are
        read after it. */
    method VisitTry(s: Stmt) returns (err: Option<Failure>)
      requires s.TryStatement?
      modifies this
      decreases s, 0
      ensures var t, d := old(isAssignmentTarget), old(Depth());
        var st := TryStep(s.resources, s.tryBody, s.catches, if s.fin.Some? then StmtStep(s.fin.value, t, d) else Emit([], t), d);
        instructions == old(instructions) + st.pushed && isAssignmentTarget == st.target && err == st.err
    {
      ghost var f := if s.fin.Some? then StmtStep(s.fin.value, isAssignmentTarget, Depth()) else Emit([], isAssignmentTarget);
      err := None;
      if s.fin.Some? {
        err := VisitStmt(s.fin.value);
        if err.Some? {
          return;
        }
      }
      err := VisitTryAfterFinally(s, f, old(instructions));
    }

    /** The rest of a `try` once its finally block has been visited with outcome `f`: the
        depths are read here, after the finally code. */
    method VisitTryAfterFinally(s: Stmt, ghost f: Step, ghost start: seq<Instr>) returns (err: Option<Failure>)
      requires s.TryStatement?
      requires f.err == None && instructions == start + f.pushed && isAssignmentTarget == f.target
      modifies this
      ensures var st := TryStep(s.resources, s.tryBody, s.catches, f, Depths(|start|, operands, scopes));
        instructions == start + st.pushed && isAssignmentTarget == st.target && err == st.err
    {
      var instructionSize := |instructions|;
      var pops := [BlockPop, ExcpPop, DecodeStmt(s.tryBody)];
      PushAll(pops);
      AppendAssoc(start, f.pushed, pops);
      ghost var r := AcceptAll(s.resources, f.target);
      err := AcceptAllLoop(s.resources);
      AppendAssoc(start, f.pushed + pops, r.pushed);
      if err.Some? {
        return;
      }
      var handlers := [ExcpPush(Handles(s.catches), instructionSize, operands, scopes), BlockPush];
      PushAll(handlers);
      AppendAssoc(start, f.pushed + pops + r.pushed, handlers);
    }

    /** A block: its statements pushed in reverse between `block_push` and `block_pop`
        (ASTDecoder.kt:34-42). */
    method PushBlock(ss: seq<Stmt>)
      modifies this
      ensures instructions == old(instructions) + ([BlockPop] + AddStmtsReversed(ss) + [BlockPush])
      ensures isAssignmentTarget == old(isAssignmentTarget)
    {
      Push(BlockPop);
      AddStmtsReversedLoop(ss);
      Push(BlockPush);
      AppendAssoc(old(instructions), [BlockPop], AddStmtsReversed(ss));
      AppendAssoc(old(instructions), [BlockPop] + AddStmtsReversed(ss), [BlockPush]);
    }

    /** `this(args)` and `super(args)` (ASTDecoder.kt:454-514). */
    method PushConstructorCall(m: MethodBinding, args: seq<Expr>)
      modifies this
      ensures instructions == old(instructions) + ConstructorCallPushes(m, args)
      ensures isAssignmentTarget == old(isAssignmentTarget)
    {
      var invoke := InvokeSpecial(m.qualifiedSignature);
      Push(invoke);
      PushArguments(args, m.arity);
      Push(LoadThis);
      AppendAssoc(old(instructions), [invoke], ArgPushes(args, m.arity));
      AppendAssoc(old(instructions), [invoke] + ArgPushes(args, m.arity), [LoadThis]);
    }

    method VisitSimpleStmt(s: Stmt) returns (err: Option<Failure>)
      requires !s.DoStatement? && !s.WhileStatement? && !s.EnhancedForStatement?
      requires !s.ForStatement? && !s.SwitchStatement? && !s.TryStatement?
      modifies this
      decreases s, 0
      ensures var st := StmtStep(s, old(isAssignmentTarget), old(Depth()));
        instructions == old(instructions) + st.pushed && isAssignmentTarget == st.target && err == st.err
    {
      err := None;
      match s
      case Block(ss) =>
        PushBlock(ss);
      case SynchronizedStatement =>
        err := Some(Todo);
      case VariableDeclarationStatement(fs) =>
        VisitFragments(fs);
      case IfStatement(c, a, b) =>
        PushAll([ConditionalIf(a, b), DecodeExpr(c)]);
      case SwitchCase =>
      case LabeledStatement(lbl, body) =>
        var instructionSize := |instructions|;
        PushAll([BreakPop, DecodeStmt(body), BreakPush(Some(lbl), instructionSize, operands, scopes)]);
      case ContinueStatement(lbl) =>
        Push(ContinueJump(lbl));
      case BreakStatement(lbl) =>
        Push(BreakJump(lbl));
      case ReturnStatement(v) =>
        if v.Some? {
          PushAll([ReturnValue, DecodeExpr(v.value)]);
        } else {
          Push(ReturnVoid);
        }
      case ThrowStatement(x) =>
        PushAll([ThrowException, DecodeExpr(x)]);
      case ExpressionStatement(x, parentIsExpression) =>
        var storeResult := parentIsExpression;
        if x.MethodInvocation? && x.callee.returnsVoid {
          storeResult := true;
        }
        AddExpr(x, storeResult);
      case ConstructorInvocation(m, args) =>
        PushConstructorCall(m, args);
      case SuperConstructorInvocation(m, args) =>
        PushConstructorCall(m, args);
      case TypeDeclarationStatement =>
    }
  }
}
