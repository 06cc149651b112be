/** The text each part of the compiler appends to its output, as functions of
    the semantic context, the node and the current scope. Each `gen_*`
    method of `FlowNative.Compiler` is proved to append exactly this text
    (or to fail with exactly this `Failure`); modules `Decode` and
    `LoweringProperties` prove what the text means. Lists are lowered left
    to right, so a list function's error is that of its first failing
    element, as in the original's loops. */
module Lowering {
  import opened Results
  import opened Text
  import opened Ast
  import opened Sema

  // ---------------------------------------------------------------- scopes

  function ForwardDecl(i: ScopeId): string
  {
    "struct Scope" + NatStr(i) + ";\n"
  }

  /** Forward declarations of scopes `lo` up to (not including) `hi`. */
  function ForwardDecls(lo: nat, hi: nat): string
    decreases hi
  {
    if hi <= lo then "" else ForwardDecls(lo, hi - 1) + ForwardDecl(hi - 1)
  }

  function ParentField(parent: Option<ScopeId>): string
  {
    match parent
    case None => ""
    case Some(p) => "Scope" + NatStr(p) + " *parent;\n"
  }

  function SlotLine(d: DeclId): string
  {
    "FNValue var" + NatStr(d) + "=FNValue::encodeUndefined();\n"
  }

  function SlotLines(ds: seq<DeclId>): string
  {
    if ds == [] then "" else SlotLines(ds[..|ds| - 1]) + SlotLine(ds[|ds| - 1])
  }

  function ScopeDef(i: ScopeId, s: LexicalScope): string
  {
    "struct Scope" + NatStr(i) + "{\n" + ParentField(s.parentScope) + SlotLines(s.decls) + "};\n"
  }

  /** Definitions of scopes `lo` up to (not including) `hi`. */
  function ScopeDefs(scopes: seq<LexicalScope>, lo: nat, hi: nat): string
    requires hi <= |scopes|
    decreases hi
  {
    if hi <= lo then "" else ScopeDefs(scopes, lo, hi - 1) + ScopeDef(hi - 1, scopes[hi - 1])
  }

  /** What `gen_context` emits. */
  function ContextText(sem: SemContext): string
  {
    ForwardDecls(0, |sem.scopes|) + ScopeDefs(sem.scopes, 0, |sem.scopes|)
  }

  /** Allocation of a fresh record of scope `inner`. */
  function RecordAlloc(inner: ScopeId): string
  {
    var n := NatStr(inner);
    "Scope" + n + " *scope" + n + " = new Scope" + n + "();\n"
  }

  /** Linking the record of `inner` to the current record of `outer`. */
  function ParentLink(inner: ScopeId, outer: ScopeId): string
  {
    "scope" + NatStr(inner) + "->parent = scope" + NatStr(outer) + ";\n"
  }

  /** What `init_scope` emits when `inner` is entered from `outer`. */
  function ScopeEntry(inner: ScopeId, outer: ScopeId): string
  {
    RecordAlloc(inner) + ParentLink(inner, outer)
  }

  /** The text `init_scope` emits and the scope it returns. */
  function ScopeInit(sem: SemContext, node: Node, scope: ScopeId): (string, ScopeId)
  {
    if node.id in sem.nodeScope then
      (ScopeEntry(sem.nodeScope[node.id], scope), sem.nodeScope[node.id])
    else ("", scope)
  }

  // ------------------------------------------------------ call convention

  function ParamDecl(i: nat): string
  {
    ", FNValue param" + NatStr(i)
  }

  /** The declarations of parameters `lo` up to (not including) `hi`. */
  function ParamDecls(lo: nat, hi: nat): string
    decreases hi
  {
    if hi <= lo then "" else ParamDecls(lo, hi - 1) + ParamDecl(hi - 1)
  }

  /** What `param_list_for_arg_count(count)` emits. */
  function ParamList(count: nat): string
  {
    "void *parent_scope" + ParamDecls(0, count)
  }

  // ------------------------------------------------------------ operators

  /** The `.getNumberRef()` suffix an assignment puts on both sides, or
      `None` for an assignment operator the lowering does not support. */
  function AssignSuffix(op: AssignmentOperator): Option<string>
  {
    match op
    case Assign => Some("")
    case PlusAssign => Some(".getNumberRef()")
    case MinusAssign => Some(".getNumberRef()")
    case ModAssign => Some(".getNumberRef()")
    case DivAssign => Some(".getNumberRef()")
    case MultAssign => Some(".getNumberRef()")
    case _ => None
  }

  /** The C++ operator a binary operator becomes. */
  function BinaryOpText(op: BinaryOperator): string
  {
    match op
    case StrictEquals => "=="
    case StrictNotEquals => "!="
    case _ => op.AsStr()
  }

  /** The runtime encoder a binary operator's result goes through, or `None`
      for an operator the lowering does not support. */
  function BinaryResultType(op: BinaryOperator): Option<string>
  {
    match op
    case LooseEquals => Some("Bool")
    case StrictEquals => Some("Bool")
    case StrictNotEquals => Some("Bool")
    case Less => Some("Bool")
    case LessEquals => Some("Bool")
    case Greater => Some("Bool")
    case GreaterEquals => Some("Bool")
    case LShift => Some("Number")
    case RShift => Some("Number")
    case Plus => Some("Number")
    case Minus => Some("Number")
    case Mult => Some("Number")
    case Div => Some("Number")
    case Mod => Some("Number")
    case _ => None
  }

  // ----------------------------------------------------------- expressions

  /** A named property access, `->props["name"]`. */
  function NamedProp(name: string): string
  {
    "->props[\"" + name + "\"]"
  }

  /** A scope-slot access: start at `scope{scope}`, dereference `parent`
      `hops` times, then read slot `var{decl}`. */
  function SlotPath(scope: ScopeId, hops: nat, decl: DeclId): string
  {
    "scope" + NatStr(scope) + "->" + Repeat("parent->", hops) + "var" + NatStr(decl)
  }

  function IdentifierText(sem: SemContext, node: Node, scope: ScopeId): Result<string>
    requires node.Identifier?
  {
    if node.id !in sem.identDecl || !sem.identDecl[node.id].ResolvedTo? then Err(UnresolvedVariable)
    else
      var d := sem.identDecl[node.id].decl;
      if d >= |sem.decls| then Err(DeclOutOfRange)
      else
        var decl := sem.decls[d];
        if decl.kind.GlobalProperty? || decl.kind.UndeclaredGlobalProperty? then
          Ok("global()" + NamedProp(node.name))
        else if scope >= |sem.scopes| || decl.scope >= |sem.scopes| then Err(ScopeOutOfRange)
        else if Depth(sem, scope) < Depth(sem, decl.scope) then Err(DepthUnderflow)
        else Ok(SlotPath(scope, Depth(sem, scope) - Depth(sem, decl.scope), d))
  }

  /** What `gen_member_prop` emits. */
  function MemberPropText(sem: SemContext, property: Node, computed: bool, scope: ScopeId): Result<string>
    decreases property, if computed then 4 else 2
  {
    if computed then
      var p :- ExprText(sem, property, scope);
      Ok("->getByVal(" + p + ")")
    else if property.Identifier? then Ok(NamedProp(property.name))
    else Err(UnexpectedNode)
  }

  /** `pre + e + post` for each element, left to right. */
  function ExprsText(sem: SemContext, es: seq<Node>, scope: ScopeId, pre: string, post: string): Result<string>
    decreases es
  {
    if es == [] then Ok("")
    else
      var a :- ExprsText(sem, es[..|es| - 1], scope, pre, post);
      var b :- ExprText(sem, es[|es| - 1], scope);
      Ok(a + pre + b + post)
  }

  /** The `tmp<prop>=<value>;` initialisers of an object literal. */
  function PropertiesText(sem: SemContext, props: seq<Node>, scope: ScopeId): Result<string>
    decreases props
  {
    if props == [] then Ok("")
    else
      var a :- PropertiesText(sem, props[..|props| - 1], scope);
      var p :- PropertyText(sem, props[|props| - 1], scope);
      Ok(a + p)
  }

  /** The initialiser of one property; anything but a `Property` node is
      rejected. */
  function PropertyText(sem: SemContext, p: Node, scope: ScopeId): Result<string>
    decreases p, 5
  {
    if !p.Property? then Err(UnexpectedNode)
    else
      var k :- MemberPropText(sem, p.key, p.computed, scope);
      var v :- ExprText(sem, p.value, scope);
      Ok("tmp" + k + "=" + v + ";\n")
  }

  /** The copy of the `i`-th argument into its formal. */
  function ParamCopy(i: nat): string
  {
    "=param" + NatStr(i) + ";\n"
  }

  /** The `<formal>=param{i};` copies at the top of a closure body. */
  function FormalsText(sem: SemContext, params: seq<Node>, fnScope: ScopeId): Result<string>
    decreases params
  {
    if params == [] then Ok("")
    else
      var a :- FormalsText(sem, params[..|params| - 1], fnScope);
      var p :- ExprText(sem, params[|params| - 1], fnScope);
      Ok(a + p + ParamCopy(|params| - 1))
  }

  /** The line that rebinds the closure's environment as `scope{scope}`. */
  function EnvRebind(scope: ScopeId): string
  {
    var n := NatStr(scope);
    "\nScope" + n + " *scope" + n + " = (Scope" + n + "*)parent_scope;"
  }

  /** The end of the closure's code, and its environment: the record of the
      defining scope. */
  function ClosureTail(scope: ScopeId): string
  {
    "}), scope" + NatStr(scope) + "})"
  }

  function ClosureHead(count: nat): string
  {
    "FNValue::encodeClosure(new FNClosure{(void(*)(void))(+[](" + ParamList(count) + "){"
  }

  /** The rebinding of the closure's environment as `scope{scope}`, then
      entry into the function's scope `fnScope` with `scope` as parent. */
  function ClosureEnv(scope: ScopeId, fnScope: ScopeId): string
  {
    EnvRebind(scope) + RecordAlloc(fnScope) + ParentLink(fnScope, scope)
  }

  /** Everything `gen_function_exp` emits before the parameter copies:
      the closure's signature for `count` parameters, then its
      environment. */
  function ClosureEntry(count: nat, scope: ScopeId, fnScope: ScopeId): string
  {
    ClosureHead(count) + ClosureEnv(scope, fnScope)
  }

  /** What `gen_function_exp` emits. `owner` is the function node the
      parameters and body come from. */
  function FunctionExpText(sem: SemContext, ghost owner: Node, params: seq<Node>, block: Node, scope: ScopeId): Result<string>
    requires owner.FunctionExpression? || owner.FunctionDeclaration?
    requires owner.params == params && owner.fnBody == block
    decreases owner, 1
  {
    if block.id !in sem.nodeScope then Err(MissingScope)
    else
      var fnScope := sem.nodeScope[block.id];
      var code :- FunctionCodeText(sem, owner, params, block, fnScope);
      Ok(ClosureEntry(|params|, scope, fnScope) + code + ClosureTail(scope))
  }

  /** The closure's code after entering scope `fnScope`: the parameter
      copies, then each statement of the body followed by `;` and a line
      break. */
  function FunctionCodeText(sem: SemContext, ghost owner: Node, params: seq<Node>, block: Node, fnScope: ScopeId): Result<string>
    requires owner.FunctionExpression? || owner.FunctionDeclaration?
    requires owner.params == params && owner.fnBody == block
    decreases owner, 0
  {
    var formals :- FormalsText(sem, params, fnScope);
    if !block.BlockStatement? then Err(UnexpectedNode)
    else
      var body :- StmtsText(sem, block.body, fnScope, ";\n");
      Ok(formals + body)
  }

  /** The call site's cast of the closure's code to the signature for
      `count` arguments, and the environment as first argument. */
  function CallCast(count: nat): string
  {
    ".getClosure();\nreinterpret_cast<FNValue (*)(" + ParamList(count) + ")>(tmp->func)(" + "tmp->env"
  }

  /** The call-site text around the lowered callee and arguments. */
  function CallText(callee: string, count: nat, args: string): string
  {
    "({FNClosure *tmp=" + callee + CallCast(count) + args + ");})"
  }

  function UpdateText(op: UpdateOperator, prefix: bool, arg: string): string
  {
    "FNValue::encodeNumber(" + (if prefix then op.AsStr() else "")
    + arg + ".getNumberRef()" + (if prefix then "" else op.AsStr()) + ")"
  }

  function ObjectText(sem: SemContext, node: Node, scope: ScopeId): Result<string>
    requires node.ObjectExpression?
    decreases node, 2
  {
    var ps :- PropertiesText(sem, node.properties, scope);
    Ok("({FNObject *tmp=new FNObject();\n" + ps + "FNValue::encodeObject(tmp);})")
  }

  function ArrayText(sem: SemContext, node: Node, scope: ScopeId): Result<string>
    requires node.ArrayExpression?
    decreases node, 2
  {
    var es :- ExprsText(sem, node.elements, scope, "", ",");
    Ok("FNValue::encodeObject(new FNArray({" + es + "}))")
  }

  function MemberText(sem: SemContext, node: Node, scope: ScopeId): Result<string>
    requires node.MemberExpression?
    decreases node, 2
  {
    var o :- ExprText(sem, node.obj, scope);
    var p :- MemberPropText(sem, node.property, node.computed, scope);
    Ok(o + ".getObject()" + p)
  }

  function CallExprText(sem: SemContext, node: Node, scope: ScopeId): Result<string>
    requires node.CallExpression?
    decreases node, 2
  {
    var c :- ExprText(sem, node.callee, scope);
    var a :- ExprsText(sem, node.arguments, scope, ", ", "");
    Ok(CallText(c, |node.arguments|, a))
  }

  function AssignText(sem: SemContext, node: Node, scope: ScopeId): Result<string>
    requires node.AssignmentExpression?
    decreases node, 2
  {
    if AssignSuffix(node.assignOp).None? then Err(UnsupportedAssignment)
    else
      var ty := AssignSuffix(node.assignOp).value;
      var l :- ExprText(sem, node.left, scope);
      var r :- ExprText(sem, node.right, scope);
      Ok(l + ty + node.assignOp.AsStr() + r + ty)
  }

  function BinaryText(sem: SemContext, node: Node, scope: ScopeId): Result<string>
    requires node.BinaryExpression?
    decreases node, 2
  {
    var op := node.binaryOp;
    if BinaryResultType(op).None? then Err(UnsupportedOperator)
    else
      var l :- ExprText(sem, node.left, scope);
      var r :- ExprText(sem, node.right, scope);
      Ok("FNValue::encode" + BinaryResultType(op).value + "(" + l + ".getNumber()"
         + BinaryOpText(op) + r + ".getNumber())")
  }

  function UpdateExprText(sem: SemContext, node: Node, scope: ScopeId): Result<string>
    requires node.UpdateExpression?
    decreases node, 2
  {
    var a :- ExprText(sem, node.argument, scope);
    Ok(UpdateText(node.updateOp, node.prefix, a))
  }

  /** The literal cases, which cannot fail. */
  function LiteralText(node: Node): string
    requires node.NumericLiteral? || node.BooleanLiteral? || node.StringLiteral?
  {
    match node
    case NumericLiteral(_, text) => "FNValue::encodeNumber(" + text + ")"
    case BooleanLiteral(_, b) => "FNValue::encodeBool(" + (if b then "true" else "false") + ")"
    case StringLiteral(_, text) => "FNValue::encodeString(new FNString{" + text + "})"
  }

  /** What `gen_expr` emits for `node` lowered in scope `scope`. */
  function ExprText(sem: SemContext, node: Node, scope: ScopeId): Result<string>
    decreases node, 3
  {
    match node
    case FunctionExpression(_, params, body) => FunctionExpText(sem, node, params, body, scope)
    case ObjectExpression(_, _) => ObjectText(sem, node, scope)
    case ArrayExpression(_, _) => ArrayText(sem, node, scope)
    case MemberExpression(_, _, _, _) => MemberText(sem, node, scope)
    case CallExpression(_, _, _) => CallExprText(sem, node, scope)
    case Identifier(_, _) => IdentifierText(sem, node, scope)
    case AssignmentExpression(_, _, _, _) => AssignText(sem, node, scope)
    case BinaryExpression(_, _, _, _) => BinaryText(sem, node, scope)
    case UpdateExpression(_, _, _, _) => UpdateExprText(sem, node, scope)
    case NumericLiteral(_, _) => Ok(LiteralText(node))
    case BooleanLiteral(_, _) => Ok(LiteralText(node))
    case StringLiteral(_, _) => Ok(LiteralText(node))
    case _ => Err(UnimplementedExpression)
  }

  // ------------------------------------------------------------ statements

  /** Each statement followed by `sep`, left to right. */
  function StmtsText(sem: SemContext, ss: seq<Node>, scope: ScopeId, sep: string): Result<string>
    decreases ss
  {
    if ss == [] then Ok("")
    else
      var a :- StmtsText(sem, ss[..|ss| - 1], scope, sep);
      var b :- StmtText(sem, ss[|ss| - 1], scope);
      Ok(a + b + sep)
  }

  /** The lowering of an optional statement or expression (`""` if absent). */
  function OptStmtText(sem: SemContext, s: Option<Node>, scope: ScopeId): Result<string>
    decreases s
  {
    match s
    case None => Ok("")
    case Some(x) => StmtText(sem, x, scope)
  }

  function OptExprText(sem: SemContext, e: Option<Node>, scope: ScopeId, post: string): Result<string>
    decreases e
  {
    match e
    case None => Ok("")
    case Some(x) =>
      var t :- ExprText(sem, x, scope);
      Ok(t + post)
  }

  function BlockText(sem: SemContext, node: Node, scope: ScopeId): Result<string>
    requires node.BlockStatement?
    decreases node, 2
  {
    var (entry, inner) := ScopeInit(sem, node, scope);
    var b :- StmtsText(sem, node.body, inner, "");
    Ok("{\n" + entry + b + "}\n")
  }

  function DeclaratorText(sem: SemContext, node: Node, scope: ScopeId): Result<string>
    requires node.VariableDeclarator?
    decreases node, 2
  {
    if node.init.None? then Ok("")
    else
      var i :- ExprText(sem, node.ident, scope);
      var v :- ExprText(sem, node.init.value, scope);
      Ok(i + "=" + v)
  }

  function FunctionDeclText(sem: SemContext, node: Node, scope: ScopeId): Result<string>
    requires node.FunctionDeclaration?
    decreases node, 2
  {
    var n :- OptExprText(sem, node.fnIdent, scope, "=");
    var f :- FunctionExpText(sem, node, node.params, node.fnBody, scope);
    Ok("(" + n + f + ")")
  }

  function ReturnText(sem: SemContext, node: Node, scope: ScopeId): Result<string>
    requires node.ReturnStatement?
    decreases node, 2
  {
    var a :- if node.optArgument.None? then Ok("FNValue::encodeUndefined()")
             else ExprText(sem, node.optArgument.value, scope);
    Ok("return " + a + ";")
  }

  function ExprStmtText(sem: SemContext, node: Node, scope: ScopeId): Result<string>
    requires node.ExpressionStatement?
    decreases node, 2
  {
    var x :- ExprText(sem, node.expression, scope);
    Ok(x + ";")
  }

  function ThrowText(sem: SemContext, node: Node, scope: ScopeId): Result<string>
    requires node.ThrowStatement?
    decreases node, 2
  {
    var a :- ExprText(sem, node.argument, scope);
    Ok("throw " + a)
  }

  function WhileText(sem: SemContext, node: Node, scope: ScopeId): Result<string>
    requires node.WhileStatement?
    decreases node, 2
  {
    var t :- ExprText(sem, node.test, scope);
    var b :- StmtText(sem, node.loopBody, scope);
    Ok("while(" + t + ".getBool()){\n" + b + "\n}")
  }

  function ForText(sem: SemContext, node: Node, scope: ScopeId): Result<string>
    requires node.ForStatement?
    decreases node, 2
  {
    var (entry, inner) := ScopeInit(sem, node, scope);
    var i :- OptStmtText(sem, node.init, inner);
    var t :- OptExprText(sem, node.optTest, inner, ".getBool()");
    var u :- OptExprText(sem, node.update, inner, "");
    var b :- StmtText(sem, node.loopBody, inner);
    Ok("{" + entry + "for(" + i + ";" + t + ";" + u + "){" + b + "}" + "}")
  }

  function IfText(sem: SemContext, node: Node, scope: ScopeId): Result<string>
    requires node.IfStatement?
    decreases node, 2
  {
    var t :- ExprText(sem, node.test, scope);
    var c :- StmtText(sem, node.consequent, scope);
    var a :- OptStmtText(sem, node.alternate, scope);
    Ok("if(" + t + ".getBool()){\n" + c + "\n}\nelse{\n" + a + "\n}")
  }

  /** The parts of a `try` after its block: catch-scope entry, parameter
      binding and handler body. */
  function CatchText(sem: SemContext, handler: Option<Node>, scope: ScopeId): Result<string>
    decreases handler
  {
    match handler
    case None => Err(FinallyNotImplemented)
    case Some(h) =>
      if !h.CatchClause? then Err(UnexpectedNode)
      else
        var (entry, inner) := ScopeInit(sem, h, scope);
        if !h.catchBody.BlockStatement? then Err(UnexpectedNode)
        else
          var p :- OptExprText(sem, h.param, inner, "=ex;");
          var b :- StmtsText(sem, h.catchBody.body, inner, ";");
          Ok(entry + p + b)
  }

  function TryText(sem: SemContext, node: Node, scope: ScopeId): Result<string>
    requires node.TryStatement?
    decreases node, 2
  {
    var b :- StmtText(sem, node.block, scope);
    var h :- CatchText(sem, node.handler, scope);
    Ok("try {" + b + "} catch (FNValue ex){" + h + "}")
  }

  /** What `gen_stmt` emits for `node` lowered in scope `scope`. */
  function StmtText(sem: SemContext, node: Node, scope: ScopeId): Result<string>
    decreases node, 3
  {
    match node
    case BlockStatement(_, _) => BlockText(sem, node, scope)
    case VariableDeclaration(_, decls) => StmtsText(sem, decls, scope, "")
    case VariableDeclarator(_, _, _) => DeclaratorText(sem, node, scope)
    case FunctionDeclaration(_, _, _, _) => FunctionDeclText(sem, node, scope)
    case ReturnStatement(_, _) => ReturnText(sem, node, scope)
    case ExpressionStatement(_, _) => ExprStmtText(sem, node, scope)
    case WhileStatement(_, _, _) => WhileText(sem, node, scope)
    case ForStatement(_, _, _, _, _) => ForText(sem, node, scope)
    case IfStatement(_, _, _, _) => IfText(sem, node, scope)
    case TryStatement(_, _, _) => TryText(sem, node, scope)
    case ThrowStatement(_, _) => ThrowText(sem, node, scope)
    case _ => Err(UnimplementedStatement)
  }

  // --------------------------------------------------------------- program

  function ProgramHead(sem: SemContext): string
  {
    "#include \"runtime/FNRuntime.h\"\n" + ContextText(sem) + "int main(){\n"
  }

  function RootRecord(root: ScopeId): string
  {
    var n := NatStr(root);
    "Scope" + n + " *scope" + n + "=new Scope" + n + "();\n"
  }

  /** What `gen_program` emits for the module `node`. */
  function ProgramText(sem: SemContext, node: Node): Result<string>
  {
    if node.id !in sem.nodeScope then Err(MissingScope)
    else if !node.Module? then Err(UnexpectedNode)
    else
      var root := sem.nodeScope[node.id];
      var b :- StmtsText(sem, node.body, root, ";");
      Ok(ProgramHead(sem) + RootRecord(root) + b + "return 0;\n}")
  }
}
