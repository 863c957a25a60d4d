/**
 * The resolved Java syntax tree that the instruction compiler (ASTDecoder) lowers,
 * and the interpreted instructions it pushes onto a frame's instruction stack.
 *
 * The tree is closed: one constructor per node kind the decoder visits. Facts that the
 * decoder obtains from the type-binding provider (static-ness, varargs, parameter count,
 * void return, whether a name is a parameter, field or local, ...) are stored on the
 * node itself. Type and method signatures are kept as their `toString()` text.
 */
module Syntax {
  import opened Wrappers

  /** Arity of a resolved method or constructor binding. A varargs binding with
      `regular + 1` parameters has `regular` fixed parameters followed by an array
      parameter whose component type is `component`. */
  datatype Arity = Fixed | Varargs(regular: nat, component: string)

  /** A resolved method or constructor binding (IMethodBinding). */
  datatype MethodBinding = MethodBinding(
    qualifiedSignature: string,
    isStatic: bool,
    arity: Arity,
    returnsVoid: bool,           // returnType.qualifiedName == "void"
    returnsPrimitive: bool,      // returnType.signature() is a PrimitiveTypeSignature
    returnSignature: string,
    differsFromDeclaration: bool // binding != binding.methodDeclaration (generic instance)
  )

  /** A resolved variable binding (IVariableBinding) or some other kind of binding. */
  datatype NameBinding =
    | Variable(isParameter: bool, isField: bool, isEnumConstant: bool, isStatic: bool, declaringClass: string)
    | NotAVariable

  /** A resolved field binding (IVariableBinding of a FieldAccess). */
  datatype FieldBinding = FieldBinding(isEnumConstant: bool, isStatic: bool, declaringClass: string, fieldType: string)

  /** VariableDeclarationFragment and SingleVariableDeclaration: both are lowered alike. */
  datatype Fragment = Fragment(name: string, varType: string, initializer: Option<Expr>)

  datatype CatchClause = CatchClause(name: string, exceptionType: string, body: Stmt)

  datatype AssignOp =
    | Assign | PlusAssign | MinusAssign | TimesAssign | DivideAssign | RemainderAssign
    | BitAndAssign | BitOrAssign | BitXorAssign | LeftShiftAssign | RightShiftSignedAssign
    | RightShiftUnsignedAssign

  datatype PrefixOp = PreIncrement | PreDecrement | PrePlus | PreMinus | PreComplement | PreNot

  datatype PostfixOp = PostIncrement | PostDecrement

  datatype InfixOp =
    | Times | Divide | Remainder | Plus | Minus | LeftShift | RightShiftSigned | RightShiftUnsigned
    | Less | Greater | LessEquals | GreaterEquals | Equals | NotEquals | Xor | Or | And
    | ConditionalOr | ConditionalAnd

  datatype Expr =
    | Parenthesized(inner: Expr)
    | ClassInstanceCreation(typeSignature: string, ctor: MethodBinding, args: seq<Expr>,
                            nonStaticInner: bool, anonymous: bool, scoped: bool)
    | MethodInvocation(callee: MethodBinding, receiver: Option<Expr>, args: seq<Expr>)
    | SuperMethodInvocation(callee: MethodBinding, args: seq<Expr>)
    | ArrayCreation(creationComponent: string, initializer: Option<seq<Expr>>)
    | ArrayInitializer(initComponent: string, elements: seq<Expr>)
    | Conditional(test: Expr, thenExpr: Expr, elseExpr: Expr)
    | Assignment(lhs: Expr, aop: AssignOp, rhs: Expr)
    | Prefix(pop: PrefixOp, operand: Expr)
    | Postfix(xop: PostfixOp, postOperand: Expr)
    | Infix(iop: InfixOp, left: Expr, right: Expr, extended: seq<Expr>)
    | ArrayAccess(array: Expr, index: Expr)
    | FieldAccess(target: Expr, fieldName: string, field: FieldBinding, targetIsArray: bool)
    | SuperFieldAccess(qualified: bool, superField: string, superFieldType: string)
    | SimpleName(identifier: string, nameType: string, binding: NameBinding)
    | QualifiedName(qualifier: Expr, qualifiedId: string, qualifiedType: string, qbinding: NameBinding,
                    qualifierIsArray: bool, qualifierIsVariable: bool)
    | BooleanLiteral(boolValue: bool)
    | CharacterLiteral(escapedValue: string, charValue: char)
    | NullLiteral
    | NumberLiteral(token: string, numberType: string)
    | StringLiteral(stringEscaped: string)
    | TypeLiteral(literalType: string)
    | ThisExpression(thisQualified: bool)
    | CastExpression(castType: string, castOperand: Expr)
    | InstanceofExpression(instanceOperand: Expr, instanceType: string)
    | LambdaExpression
    | CreationReference
    | ExpressionMethodReference
    | SuperMethodReference
    | TypeMethodReference
    | VariableDeclarationExpression(exprFragments: seq<Fragment>)

  datatype Stmt =
    | Block(statements: seq<Stmt>)
    | SynchronizedStatement
    | VariableDeclarationStatement(fragments: seq<Fragment>)
    | DoStatement(doCondition: Expr, doBody: Stmt)
    | WhileStatement(whileCondition: Expr, whileBody: Stmt)
    | ForStatement(initializers: seq<Expr>, forCondition: Option<Expr>, updaters: seq<Expr>, forBody: Stmt)
    | EnhancedForStatement(parameter: string, parameterType: string, iterable: Expr, foreachBody: Stmt)
    | IfStatement(ifCondition: Expr, thenStmt: Stmt, elseStmt: Option<Stmt>)
    | SwitchStatement(selector: Expr, switchBody: seq<Stmt>)
    | SwitchCase
    | TryStatement(resources: seq<Expr>, tryBody: Stmt, catches: seq<CatchClause>, fin: Option<Stmt>)
    | LabeledStatement(labelName: string, labeledBody: Stmt)
    | ContinueStatement(continueLabel: Option<string>)
    | BreakStatement(breakLabel: Option<string>)
    | ReturnStatement(returned: Option<Expr>)
    | ThrowStatement(thrown: Expr)
    | ExpressionStatement(expression: Expr, parentIsExpression: bool)
    | ConstructorInvocation(thisCtor: MethodBinding, thisArgs: seq<Expr>)
    | SuperConstructorInvocation(superCtor: MethodBinding, superArgs: seq<Expr>)
    | TypeDeclarationStatement

  /** The operator instructions (`add`, `sub`, ..., `notequals`). */
  datatype BinaryInstr =
    | Add | Sub | Mul | Div | Mod | Shl | Shr | Ushr | LessThan | GreaterThan | LessEqual | GreaterEqual
    | Equal | NotEqual | BitXor | BitOr | BitAnd

  /** An exception handle of an `excp_push` instruction. */
  datatype ExceptionHandle = ExceptionHandle(name: string, exceptionType: string, body: Stmt)

  /** The interpreted instructions the decoder pushes. Their run-time meaning is not modelled. */
  datatype Instr =
    | DecodeStmt(stmt: Stmt)
    | DecodeExpr(expr: Expr)
    | Pop
    | BlockPush | BlockPop
    | Store(storeName: string, storeType: string)
    | Allocate(allocName: string, allocType: string)
    | WhileLoop(loopCondition: Expr, loopBody: Stmt)
    | ForLoop(forLoopCondition: Expr, forLoopBody: Stmt, forLoopUpdaters: seq<Expr>)
    | ForeachLoop(foreachName: string, foreachType: string, foreachLoopBody: Stmt)
    | BreakPush(breakPushLabel: Option<string>, instructionDepth: nat, operandDepth: nat, scopeDepth: nat)
    | BreakPop
    | ContinuePush(continuePushLabel: Option<string>, loop: Instr, value: Option<bool>, depth: nat)
    | ContinuePop
    | ConditionalIf(ifThen: Stmt, ifElse: Option<Stmt>)
    | ConditionalSwitch(cases: seq<Stmt>)
    | ConditionalTernary(ternaryThen: Expr, ternaryElse: Expr)
    | ExcpPush(handles: seq<ExceptionHandle>, excpInstructionDepth: nat, excpOperandDepth: nat, excpScopeDepth: nat)
    | ExcpPop
    | ContinueJump(continueJumpLabel: Option<string>)
    | BreakJump(breakJumpLabel: Option<string>)
    | ReturnValue | ReturnVoid | ThrowException
    | InvokeSpecial(specialSig: string)
    | InvokeStatic(staticSig: string)
    | InvokeVirtual(virtualSig: string)
    | InvokeVirtualSuper(superSig: string)
    | Cast(castTo: string)
    | InstanceOf(instanceOfType: string)
    | ArrStore | ArrStoreRev | ArrLoad | ArrLength
    | ArrAllocate(arrayComponent: string)
    | ObjAllocate(objClass: string)
    | PushInt(intValue: int)
    | Dup
    | Binary(binop: BinaryInstr)
    | Not
    | StatPut(statPutClass: string, statPutName: string, statPutType: string)
    | StatGet(statGetClass: string, statGetName: string, statGetType: string)
    | ObjPut(objPutName: string, objPutType: string)
    | ObjGet(objGetName: string, objGetType: string)
    | Load(loadName: string, loadType: Option<string>)
    | LdcBoolean(ldcBool: bool)
    | LdcChar(ldcChar: char)
    | LdcNull
    | LdcNumber(ldcToken: string, ldcType: string)
    | LdcString(ldcString: string)
    | LdcType(ldcTypeSig: string)

  /** What aborts a visit: UnsupportedLanguageFeature, Kotlin's TODO() (NotImplementedError),
      IllegalArgumentException, an explicit NotImplementedError, and the
      NoSuchElementException of `first()` on an empty text. */
  datatype Feature = NonStaticInnerClass | AnonymousClass | ScopedConstructorCall | Lambda | MethodReference
  datatype Failure = Unsupported(feature: Feature) | Todo | IllegalArgument | NotImplemented | NoSuchElement

  /** `load("this")`: loads the receiver without a declared type. */
  const LoadThis: Instr := Load("this", None)
}
