/** The `Compiler` of flow_native: it walks the module and appends C++ text
    to its output. Each `gen_*` method of the original is a method here that
    appends exactly what the matching function of module `Lowering` says,
    and reports the same failure when that function fails. A failure stops
    the method at the point where the original panics; what was appended
    before it stays in the output.

    The methods keep a ghost `acc`, the text appended so far by the current
    call, with `out == old(out) + acc`; the lemmas `Joined` and `Grown`
    move that fact across one more appended piece. */
module FlowNative {
  import opened Results
  import opened Text
  import opened Ast
  import opened Sema
  import opened Lowering
  import opened Propagation

  /** The name of a temporary of the generated program, `t{n}`. */
  datatype ValueId = ValueId(index: nat)

  function ValueName(v: ValueId): string
  {
    "t" + NatStr(v.index)
  }

  /** Distinct value ids name distinct temporaries. */
  lemma ValueNamesDistinct(a: ValueId, b: ValueId)
    ensures a != b ==> ValueName(a) != ValueName(b)
  {
    if ValueName(a) == ValueName(b) {
      assert NatStr(a.index) == ValueName(a)[1..];
      assert NatStr(b.index) == ValueName(b)[1..];
      NatStrInjective(a.index, b.index);
    }
  }

  /** `after` extends `before`, by exactly the text of `r` when `r`
      succeeded. */
  ghost predicate Emitted(before: string, after: string, r: Result<string>)
  {
    before <= after && (r.Ok? ==> after == before + r.value)
  }

  /** One more piece `s` on the output: `base + acc + s` is `base` followed
      by the accumulated `acc + s`. */
  lemma Joined(base: string, acc: string, s: string, now: string) returns (acc': string)
    requires now == base + acc + s
    ensures acc' == acc + s && now == base + acc'
  {
    acc' := acc + s;
  }

  /** Output that extends `base + acc` extends `base`. */
  lemma Grown(base: string, acc: string, now: string)
    requires base + acc <= now
    ensures base <= now
  {
    assert now[..|base|] == (base + acc)[..|base|];
  }

  class Compiler {
    const sem: SemContext
    /** The text written so far (the `BufWriter` behind `out!`). */
    var out: string
    /** The number of `ValueId`s created so far. */
    var numValues: nat

    constructor (sem: SemContext)
      ensures this.sem == sem && out == [] && numValues == 0
    {
      this.sem := sem;
      out := [];
      numValues := 0;
    }

    /** `out!`: append one fragment. */
    method Out(s: string)
      modifies this`out
      ensures out == old(out) + s
    {
      out := out + s;
    }

    /** `new_value`: a fresh id, one past the last; ids taken before are all
        smaller, so no two calls return the same id. */
    method NewValue() returns (v: ValueId)
      modifies this`numValues
      ensures v == ValueId(old(numValues))
      ensures numValues == old(numValues) + 1
    {
      v := ValueId(numValues);
      numValues := numValues + 1;
    }

    method GenProgram(node: Node) returns (r: Outcome)
      modifies this`out
      ensures r == OutcomeOf(ProgramText(sem, node))
      ensures Emitted(old(out), out, ProgramText(sem, node))
    {
      Out("#include \"runtime/FNRuntime.h\"\n");
      ghost var acc := "#include \"runtime/FNRuntime.h\"\n";
      GenContext();
      acc := Joined(old(out), acc, ContextText(sem), out);
      Out("int main(){\n");
      acc := Joined(old(out), acc, "int main(){\n", out);
      if node.id !in sem.nodeScope {
        Grown(old(out), acc, out);
        return Fail(MissingScope);
      }
      var scope := sem.nodeScope[node.id];
      if !node.Module? {
        Grown(old(out), acc, out);
        return Fail(UnexpectedNode);
      }
      Out(RootRecord(scope));
      acc := Joined(old(out), acc, RootRecord(scope), out);
      r := GenStmts(node.body, scope, ";");
      if r.Fail? {
        Grown(old(out), acc, out);
        return;
      }
      acc := Joined(old(out), acc, StmtsText(sem, node.body, scope, ";").value, out);
      Out("return 0;\n}");
      acc := Joined(old(out), acc, "return 0;\n}", out);
    }

    /** `gen_context`: forward-declare every scope record, then define each
        with its parent pointer and one slot per declaration. */
    method GenContext()
      modifies this`out
      ensures out == old(out) + ContextText(sem)
    {
      GenForwardDecls();
      ghost var acc := ForwardDecls(0, |sem.scopes|);
      GenScopeDefs();
      acc := Joined(old(out), acc, ScopeDefs(sem.scopes, 0, |sem.scopes|), out);
    }

    /** The first loop of `gen_context`: one forward declaration per scope,
        in id order. */
    method GenForwardDecls()
      modifies this`out
      ensures out == old(out) + ForwardDecls(0, |sem.scopes|)
    {
      var n := |sem.scopes|;
      var i := 0;
      while i < n
        invariant 0 <= i <= n
        invariant out == old(out) + ForwardDecls(0, i)
      {
        Out(ForwardDecl(i));
        ghost var acc := Joined(old(out), ForwardDecls(0, i), ForwardDecl(i), out);
        i := i + 1;
      }
    }

    /** The second loop of `gen_context`: one definition per scope, in id
        order. */
    method GenScopeDefs()
      modifies this`out
      ensures out == old(out) + ScopeDefs(sem.scopes, 0, |sem.scopes|)
    {
      var n := |sem.scopes|;
      var i := 0;
      while i < n
        invariant 0 <= i <= n
        invariant out == old(out) + ScopeDefs(sem.scopes, 0, i)
      {
        GenScopeDef(i, sem.scopes[i]);
        ghost var acc := Joined(old(out), ScopeDefs(sem.scopes, 0, i), ScopeDef(i, sem.scopes[i]), out);
        i := i + 1;
      }
    }

    /** One iteration of the definition loop of `gen_context`. */
    method GenScopeDef(i: ScopeId, scope: LexicalScope)
      modifies this`out
      ensures out == old(out) + ScopeDef(i, scope)
    {
      Out("struct Scope" + NatStr(i) + "{\n");
      ghost var acc := "struct Scope" + NatStr(i) + "{\n";
      if scope.parentScope.Some? {
        Out(ParentField(scope.parentScope));
      }
      acc := Joined(old(out), acc, ParentField(scope.parentScope), out);
      ghost var base := out;
      var j := 0;
      while j < |scope.decls|
        invariant 0 <= j <= |scope.decls|
        invariant out == base + SlotLines(scope.decls[..j])
      {
        assert scope.decls[..j + 1][..j] == scope.decls[..j];
        Out(SlotLine(scope.decls[j]));
        ghost var done := Joined(base, SlotLines(scope.decls[..j]), SlotLine(scope.decls[j]), out);
        j := j + 1;
      }
      assert scope.decls[..j] == scope.decls;
      acc := Joined(old(out), acc, SlotLines(scope.decls), out);
      Out("};\n");
      acc := Joined(old(out), acc, "};\n", out);
    }

    /** `param_list_for_arg_count`: the environment pointer, then one
        `FNValue` per argument. */
    method ParamListForArgCount(count: nat)
      modifies this`out
      ensures out == old(out) + ParamList(count)
    {
      Out("void *parent_scope");
      ghost var base := out;
      var i := 0;
      while i < count
        invariant 0 <= i <= count
        invariant out == base + ParamDecls(0, i)
      {
        Out(ParamDecl(i));
        ghost var acc := Joined(base, ParamDecls(0, i), ParamDecl(i), out);
        i := i + 1;
      }
      ghost var acc := Joined(old(out), "void *parent_scope", ParamDecls(0, count), out);
    }

    /** `init_scope`: when the node has a scope of its own, allocate its
        record, link it to the current one and make it current. */
    method InitScope(node: Node, scope: ScopeId) returns (inner: ScopeId)
      modifies this`out
      ensures inner == ScopeInit(sem, node, scope).1
      ensures out == old(out) + ScopeInit(sem, node, scope).0
    {
      if node.id in sem.nodeScope {
        var newScope := sem.nodeScope[node.id];
        Out(RecordAlloc(newScope));
        Out(ParentLink(newScope, scope));
        inner := newScope;
      } else {
        inner := scope;
      }
    }

    /** `gen_member_prop`: a computed key lowered as an expression, or a
        named one as a `props` lookup. */
    method GenMemberProp(property: Node, computed: bool, scope: ScopeId) returns (r: Outcome)
      modifies this`out
      decreases property, if computed then 4 else 2
      ensures r == OutcomeOf(MemberPropText(sem, property, computed, scope))
      ensures Emitted(old(out), out, MemberPropText(sem, property, computed, scope))
    {
      if computed {
        Out("->getByVal(");
        ghost var acc := "->getByVal(";
        r := GenExpr(property, scope);
        if r.Fail? {
          Grown(old(out), acc, out);
          return;
        }
        acc := Joined(old(out), acc, ExprText(sem, property, scope).value, out);
        Out(")");
        acc := Joined(old(out), acc, ")", out);
      } else if property.Identifier? {
        Out(NamedProp(property.name));
        r := Pass;
      } else {
        r := Fail(UnexpectedNode);
      }
    }

    /** `gen_function_exp`: a closure whose code rebinds its environment,
        enters the function's scope from the defining one, copies its
        parameters into their slots and runs its body. */
    method GenFunctionExp(ghost owner: Node, params: seq<Node>, block: Node, scope: ScopeId) returns (r: Outcome)
      requires owner.FunctionExpression? || owner.FunctionDeclaration?
      requires owner.params == params && owner.fnBody == block
      modifies this`out
      decreases owner, 1
      ensures r == OutcomeOf(FunctionExpText(sem, owner, params, block, scope))
      ensures Emitted(old(out), out, FunctionExpText(sem, owner, params, block, scope))
    {
      GenClosureHead(|params|);
      ghost var acc := ClosureHead(|params|);
      if block.id !in sem.nodeScope {
        Grown(old(out), acc, out);
        return Fail(MissingScope);
      }
      var fnScope := sem.nodeScope[block.id];
      GenClosureEnv(scope, fnScope);
      acc := Joined(old(out), acc, ClosureEnv(scope, fnScope), out);
      ghost var code := FunctionCodeText(sem, owner, params, block, fnScope);
      r := GenFunctionCode(owner, params, block, fnScope);
      if r.Fail? {
        assert FunctionExpText(sem, owner, params, block, scope) == Err(code.error);
        Grown(old(out), acc, out);
        return;
      }
      acc := Joined(old(out), acc, code.value, out);
      Out(ClosureTail(scope));
      acc := Joined(old(out), acc, ClosureTail(scope), out);
      assert FunctionExpText(sem, owner, params, block, scope) == Ok(acc);
    }

    /** The closure's environment: rebinding `parent_scope` as the defining
        scope's record, then `init_scope` of the function's scope. */
    method GenClosureEnv(scope: ScopeId, fnScope: ScopeId)
      modifies this`out
      ensures out == old(out) + ClosureEnv(scope, fnScope)
    {
      Out(EnvRebind(scope));
      ghost var acc := EnvRebind(scope);
      Out(RecordAlloc(fnScope));
      acc := Joined(old(out), acc, RecordAlloc(fnScope), out);
      Out(ParentLink(fnScope, scope));
      acc := Joined(old(out), acc, ParentLink(fnScope, scope), out);
    }

    /** The opening of `gen_function_exp`: the closure's signature. */
    method GenClosureHead(count: nat)
      modifies this`out
      ensures out == old(out) + ClosureHead(count)
    {
      Out("FNValue::encodeClosure(new FNClosure{(void(*)(void))(+[](");
      ghost var acc := "FNValue::encodeClosure(new FNClosure{(void(*)(void))(+[](";
      ParamListForArgCount(count);
      acc := Joined(old(out), acc, ParamList(count), out);
      Out("){");
      acc := Joined(old(out), acc, "){", out);
    }

    /** The parameter copies and the body statements of a closure, lowered
        in the function's scope. */
    method GenFunctionCode(ghost owner: Node, params: seq<Node>, block: Node, fnScope: ScopeId) returns (r: Outcome)
      requires owner.FunctionExpression? || owner.FunctionDeclaration?
      requires owner.params == params && owner.fnBody == block
      modifies this`out
      decreases owner, 0
      ensures r == OutcomeOf(FunctionCodeText(sem, owner, params, block, fnScope))
      ensures Emitted(old(out), out, FunctionCodeText(sem, owner, params, block, fnScope))
    {
      r := GenFormals(params, fnScope);
      if r.Fail? {
        return;
      }
      ghost var acc := FormalsText(sem, params, fnScope).value;
      if !block.BlockStatement? {
        return Fail(UnexpectedNode);
      }
      r := GenStmts(block.body, fnScope, ";\n");
      if r.Fail? {
        Grown(old(out), acc, out);
        return;
      }
      acc := Joined(old(out), acc, StmtsText(sem, block.body, fnScope, ";\n").value, out);
    }

    /** The parameter loop of `gen_function_exp`: each formal, lowered in
        the function's scope, takes the value of the matching `param{i}`. */
    method GenFormals(params: seq<Node>, fnScope: ScopeId) returns (r: Outcome)
      modifies this`out
      decreases params
      ensures r == OutcomeOf(FormalsText(sem, params, fnScope))
      ensures Emitted(old(out), out, FormalsText(sem, params, fnScope))
    {
      var i := 0;
      while i < |params|
        invariant 0 <= i <= |params|
        invariant FormalsText(sem, params[..i], fnScope).Ok?
        invariant out == old(out) + FormalsText(sem, params[..i], fnScope).value
      {
        ghost var next := params[..i + 1];
        assert next[..i] == params[..i] && next[i] == params[i];
        ghost var acc := FormalsText(sem, params[..i], fnScope).value;
        r := GenExpr(params[i], fnScope);
        if r.Fail? {
          assert FormalsText(sem, next, fnScope) == Err(r.error);
          Grown(old(out), acc, out);
          FormalsErrPrefix(sem, params, fnScope, i + 1);
          return;
        }
        acc := Joined(old(out), acc, ExprText(sem, params[i], fnScope).value, out);
        Out(ParamCopy(i));
        acc := Joined(old(out), acc, ParamCopy(i), out);
        assert FormalsText(sem, next, fnScope) == Ok(acc);
        i := i + 1;
      }
      assert params[..i] == params;
      r := Pass;
    }

    /** The loops of the original that lower each node of a list and write
        `pre` before and `post` after it. */
    method GenExprs(es: seq<Node>, scope: ScopeId, pre: string, post: string) returns (r: Outcome)
      modifies this`out
      decreases es
      ensures r == OutcomeOf(ExprsText(sem, es, scope, pre, post))
      ensures Emitted(old(out), out, ExprsText(sem, es, scope, pre, post))
    {
      var i := 0;
      while i < |es|
        invariant 0 <= i <= |es|
        invariant ExprsText(sem, es[..i], scope, pre, post).Ok?
        invariant out == old(out) + ExprsText(sem, es[..i], scope, pre, post).value
      {
        assert es[..i + 1][..i] == es[..i];
        ghost var acc := ExprsText(sem, es[..i], scope, pre, post).value;
        Out(pre);
        acc := Joined(old(out), acc, pre, out);
        r := GenExpr(es[i], scope);
        if r.Fail? {
          Grown(old(out), acc, out);
          ExprsErrPrefix(sem, es, scope, pre, post, i + 1);
          return;
        }
        acc := Joined(old(out), acc, ExprText(sem, es[i], scope).value, out);
        Out(post);
        acc := Joined(old(out), acc, post, out);
        i := i + 1;
      }
      assert es[..i] == es;
      r := Pass;
    }

    /** The loop of the object-literal case. */
    method GenProperties(props: seq<Node>, scope: ScopeId) returns (r: Outcome)
      modifies this`out
      decreases props
      ensures r == OutcomeOf(PropertiesText(sem, props, scope))
      ensures Emitted(old(out), out, PropertiesText(sem, props, scope))
    {
      var i := 0;
      while i < |props|
        invariant 0 <= i <= |props|
        invariant PropertiesText(sem, props[..i], scope).Ok?
        invariant out == old(out) + PropertiesText(sem, props[..i], scope).value
      {
        assert props[..i + 1][..i] == props[..i];
        ghost var acc := PropertiesText(sem, props[..i], scope).value;
        r := GenProperty(props[i], scope);
        if r.Fail? {
          Grown(old(out), acc, out);
          PropertiesErrPrefix(sem, props, scope, i + 1);
          return;
        }
        acc := Joined(old(out), acc, PropertyText(sem, props[i], scope).value, out);
        i := i + 1;
      }
      assert props[..i] == props;
      r := Pass;
    }

    /** One iteration of the object-literal loop. */
    method GenProperty(p: Node, scope: ScopeId) returns (r: Outcome)
      modifies this`out
      decreases p, 5
      ensures r == OutcomeOf(PropertyText(sem, p, scope))
      ensures Emitted(old(out), out, PropertyText(sem, p, scope))
    {
      if !p.Property? {
        return Fail(UnexpectedNode);
      }
      Out("tmp");
      ghost var acc := "tmp";
      r := GenMemberProp(p.key, p.computed, scope);
      if r.Fail? {
        Grown(old(out), acc, out);
        return;
      }
      acc := Joined(old(out), acc, MemberPropText(sem, p.key, p.computed, scope).value, out);
      Out("=");
      acc := Joined(old(out), acc, "=", out);
      r := GenExpr(p.value, scope);
      if r.Fail? {
        Grown(old(out), acc, out);
        return;
      }
      acc := Joined(old(out), acc, ExprText(sem, p.value, scope).value, out);
      Out(";\n");
      acc := Joined(old(out), acc, ";\n", out);
    }

    /** The identifier case: a global-object property, or a walk of
        `parent` links to the declaration's slot. */
    method GenIdentifier(node: Node, scope: ScopeId) returns (r: Outcome)
      requires node.Identifier?
      modifies this`out
      ensures r == OutcomeOf(IdentifierText(sem, node, scope))
      ensures Emitted(old(out), out, IdentifierText(sem, node, scope))
    {
      if node.id !in sem.identDecl || !sem.identDecl[node.id].ResolvedTo? {
        return Fail(UnresolvedVariable);
      }
      var declId := sem.identDecl[node.id].decl;
      if declId >= |sem.decls| {
        return Fail(DeclOutOfRange);
      }
      var decl := sem.decls[declId];
      if decl.kind.GlobalProperty? || decl.kind.UndeclaredGlobalProperty? {
        Out("global()");
        Out(NamedProp(node.name));
        ghost var acc := Joined(old(out), "global()", NamedProp(node.name), out);
        return Pass;
      }
      if scope >= |sem.scopes| || decl.scope >= |sem.scopes| {
        return Fail(ScopeOutOfRange);
      }
      if sem.scopes[scope].depth < sem.scopes[decl.scope].depth {
        return Fail(DepthUnderflow);
      }
      var diff := sem.scopes[scope].depth - sem.scopes[decl.scope].depth;
      Out("scope" + NatStr(scope) + "->");
      var i := 0;
      while i < diff
        invariant 0 <= i <= diff
        invariant out == old(out) + ("scope" + NatStr(scope) + "->" + Repeat("parent->", i))
      {
        RepeatSnoc("parent->", i);
        Out("parent->");
        ghost var acc := Joined(old(out), "scope" + NatStr(scope) + "->" + Repeat("parent->", i), "parent->", out);
        i := i + 1;
      }
      Out("var" + NatStr(declId));
      ghost var acc := Joined(old(out), "scope" + NatStr(scope) + "->" + Repeat("parent->", diff), "var" + NatStr(declId), out);
      r := Pass;
    }

    /** `gen_expr`: dispatch on the node kind. */
    method GenExpr(node: Node, scope: ScopeId) returns (r: Outcome)
      modifies this`out
      decreases node, 3
      ensures r == OutcomeOf(ExprText(sem, node, scope))
      ensures Emitted(old(out), out, ExprText(sem, node, scope))
    {
      if node.FunctionExpression? {
        r := GenFunctionExp(node, node.params, node.fnBody, scope);
      } else if node.ObjectExpression? {
        r := GenObject(node, scope);
      } else if node.ArrayExpression? {
        r := GenArray(node, scope);
      } else if node.MemberExpression? {
        r := GenMember(node, scope);
      } else if node.CallExpression? {
        r := GenCall(node, scope);
      } else if node.Identifier? {
        r := GenIdentifier(node, scope);
      } else if node.AssignmentExpression? {
        r := GenAssign(node, scope);
      } else if node.BinaryExpression? {
        r := GenBinary(node, scope);
      } else if node.UpdateExpression? {
        r := GenUpdate(node, scope);
      } else if node.NumericLiteral? || node.BooleanLiteral? || node.StringLiteral? {
        Out(LiteralText(node));
        r := Pass;
      } else {
        r := Fail(UnimplementedExpression);
      }
    }

    method GenObject(node: Node, scope: ScopeId) returns (r: Outcome)
      requires node.ObjectExpression?
      modifies this`out
      decreases node, 2
      ensures r == OutcomeOf(ObjectText(sem, node, scope))
      ensures Emitted(old(out), out, ObjectText(sem, node, scope))
    {
      Out("({FNObject *tmp=new FNObject();\n");
      ghost var acc := "({FNObject *tmp=new FNObject();\n";
      r := GenProperties(node.properties, scope);
      if r.Fail? {
        Grown(old(out), acc, out);
        return;
      }
      acc := Joined(old(out), acc, PropertiesText(sem, node.properties, scope).value, out);
      Out("FNValue::encodeObject(tmp);})");
      acc := Joined(old(out), acc, "FNValue::encodeObject(tmp);})", out);
    }

    method GenArray(node: Node, scope: ScopeId) returns (r: Outcome)
      requires node.ArrayExpression?
      modifies this`out
      decreases node, 2
      ensures r == OutcomeOf(ArrayText(sem, node, scope))
      ensures Emitted(old(out), out, ArrayText(sem, node, scope))
    {
      Out("FNValue::encodeObject(new FNArray({");
      ghost var acc := "FNValue::encodeObject(new FNArray({";
      r := GenExprs(node.elements, scope, "", ",");
      if r.Fail? {
        Grown(old(out), acc, out);
        return;
      }
      acc := Joined(old(out), acc, ExprsText(sem, node.elements, scope, "", ",").value, out);
      Out("}))");
      acc := Joined(old(out), acc, "}))", out);
    }

    method GenMember(node: Node, scope: ScopeId) returns (r: Outcome)
      requires node.MemberExpression?
      modifies this`out
      decreases node, 2
      ensures r == OutcomeOf(MemberText(sem, node, scope))
      ensures Emitted(old(out), out, MemberText(sem, node, scope))
    {
      r := GenExpr(node.obj, scope);
      if r.Fail? {
        return;
      }
      ghost var acc := ExprText(sem, node.obj, scope).value;
      Out(".getObject()");
      acc := Joined(old(out), acc, ".getObject()", out);
      r := GenMemberProp(node.property, node.computed, scope);
      if r.Fail? {
        Grown(old(out), acc, out);
        return;
      }
      acc := Joined(old(out), acc, MemberPropText(sem, node.property, node.computed, scope).value, out);
    }

    /** The call case: unwrap the callee to a closure, cast its function
        pointer to the call site's arity and pass the captured environment
        first. */
    method GenCall(node: Node, scope: ScopeId) returns (r: Outcome)
      requires node.CallExpression?
      modifies this`out
      decreases node, 2
      ensures r == OutcomeOf(CallExprText(sem, node, scope))
      ensures Emitted(old(out), out, CallExprText(sem, node, scope))
    {
      Out("({FNClosure *tmp=");
      ghost var acc := "({FNClosure *tmp=";
      r := GenExpr(node.callee, scope);
      if r.Fail? {
        Grown(old(out), acc, out);
        return;
      }
      acc := Joined(old(out), acc, ExprText(sem, node.callee, scope).value, out);
      GenCallCast(|node.arguments|);
      acc := Joined(old(out), acc, CallCast(|node.arguments|), out);
      r := GenExprs(node.arguments, scope, ", ", "");
      if r.Fail? {
        Grown(old(out), acc, out);
        return;
      }
      acc := Joined(old(out), acc, ExprsText(sem, node.arguments, scope, ", ", "").value, out);
      Out(");})");
      acc := Joined(old(out), acc, ");})", out);
    }

    /** The cast in the call case: the closure's code as a function of the
        environment and `count` values, applied to the environment. */
    method GenCallCast(count: nat)
      modifies this`out
      ensures out == old(out) + CallCast(count)
    {
      Out(".getClosure();\nreinterpret_cast<FNValue (*)(");
      ghost var acc := ".getClosure();\nreinterpret_cast<FNValue (*)(";
      ParamListForArgCount(count);
      acc := Joined(old(out), acc, ParamList(count), out);
      Out(")>(tmp->func)(");
      acc := Joined(old(out), acc, ")>(tmp->func)(", out);
      Out("tmp->env");
      acc := Joined(old(out), acc, "tmp->env", out);
    }

    method GenAssign(node: Node, scope: ScopeId) returns (r: Outcome)
      requires node.AssignmentExpression?
      modifies this`out
      decreases node, 2
      ensures r == OutcomeOf(AssignText(sem, node, scope))
      ensures Emitted(old(out), out, AssignText(sem, node, scope))
    {
      var op := node.assignOp;
      if AssignSuffix(op).None? {
        return Fail(UnsupportedAssignment);
      }
      var typeStr := AssignSuffix(op).value;
      r := GenExpr(node.left, scope);
      if r.Fail? {
        return;
      }
      ghost var acc := ExprText(sem, node.left, scope).value;
      Out(typeStr);
      acc := Joined(old(out), acc, typeStr, out);
      Out(op.AsStr());
      acc := Joined(old(out), acc, op.AsStr(), out);
      r := GenExpr(node.right, scope);
      if r.Fail? {
        Grown(old(out), acc, out);
        return;
      }
      acc := Joined(old(out), acc, ExprText(sem, node.right, scope).value, out);
      Out(typeStr);
      acc := Joined(old(out), acc, typeStr, out);
    }

    method GenBinary(node: Node, scope: ScopeId) returns (r: Outcome)
      requires node.BinaryExpression?
      modifies this`out
      decreases node, 2
      ensures r == OutcomeOf(BinaryText(sem, node, scope))
      ensures Emitted(old(out), out, BinaryText(sem, node, scope))
    {
      var op := node.binaryOp;
      if BinaryResultType(op).None? {
        return Fail(UnsupportedOperator);
      }
      Out("FNValue::encode");
      ghost var acc := "FNValue::encode";
      Out(BinaryResultType(op).value);
      acc := Joined(old(out), acc, BinaryResultType(op).value, out);
      Out("(");
      acc := Joined(old(out), acc, "(", out);
      r := GenExpr(node.left, scope);
      if r.Fail? {
        Grown(old(out), acc, out);
        return;
      }
      acc := Joined(old(out), acc, ExprText(sem, node.left, scope).value, out);
      Out(".getNumber()");
      acc := Joined(old(out), acc, ".getNumber()", out);
      Out(BinaryOpText(op));
      acc := Joined(old(out), acc, BinaryOpText(op), out);
      r := GenExpr(node.right, scope);
      if r.Fail? {
        Grown(old(out), acc, out);
        return;
      }
      acc := Joined(old(out), acc, ExprText(sem, node.right, scope).value, out);
      Out(".getNumber())");
      acc := Joined(old(out), acc, ".getNumber())", out);
    }

    method GenUpdate(node: Node, scope: ScopeId) returns (r: Outcome)
      requires node.UpdateExpression?
      modifies this`out
      decreases node, 2
      ensures r == OutcomeOf(UpdateExprText(sem, node, scope))
      ensures Emitted(old(out), out, UpdateExprText(sem, node, scope))
    {
      var op := node.updateOp;
      Out("FNValue::encodeNumber(");
      ghost var acc := "FNValue::encodeNumber(";
      if node.prefix {
        Out(op.AsStr());
      } else {
        Out("");
      }
      acc := Joined(old(out), acc, if node.prefix then op.AsStr() else "", out);
      r := GenExpr(node.argument, scope);
      if r.Fail? {
        Grown(old(out), acc, out);
        return;
      }
      acc := Joined(old(out), acc, ExprText(sem, node.argument, scope).value, out);
      Out(".getNumberRef()");
      acc := Joined(old(out), acc, ".getNumberRef()", out);
      if !node.prefix {
        Out(op.AsStr());
      } else {
        Out("");
      }
      acc := Joined(old(out), acc, if node.prefix then "" else op.AsStr(), out);
      Out(")");
      acc := Joined(old(out), acc, ")", out);
    }

    /** The loops of the original that lower each statement of a list and
        write `sep` after it. */
    method GenStmts(ss: seq<Node>, scope: ScopeId, sep: string) returns (r: Outcome)
      modifies this`out
      decreases ss
      ensures r == OutcomeOf(StmtsText(sem, ss, scope, sep))
      ensures Emitted(old(out), out, StmtsText(sem, ss, scope, sep))
    {
      var i := 0;
      while i < |ss|
        invariant 0 <= i <= |ss|
        invariant StmtsText(sem, ss[..i], scope, sep).Ok?
        invariant out == old(out) + StmtsText(sem, ss[..i], scope, sep).value
      {
        assert ss[..i + 1][..i] == ss[..i];
        ghost var acc := StmtsText(sem, ss[..i], scope, sep).value;
        r := GenStmt(ss[i], scope);
        if r.Fail? {
          Grown(old(out), acc, out);
          StmtsErrPrefix(sem, ss, scope, sep, i + 1);
          return;
        }
        acc := Joined(old(out), acc, StmtText(sem, ss[i], scope).value, out);
        Out(sep);
        acc := Joined(old(out), acc, sep, out);
        i := i + 1;
      }
      assert ss[..i] == ss;
      r := Pass;
    }

    /** An optional statement: lowered when present, nothing otherwise. */
    method GenOptStmt(s: Option<Node>, scope: ScopeId) returns (r: Outcome)
      modifies this`out
      decreases s
      ensures r == OutcomeOf(OptStmtText(sem, s, scope))
      ensures Emitted(old(out), out, OptStmtText(sem, s, scope))
    {
      r := Pass;
      if s.Some? {
        r := GenStmt(s.value, scope);
      }
    }

    /** An optional expression: lowered and followed by `post` when
        present, nothing otherwise. */
    method GenOptExpr(e: Option<Node>, scope: ScopeId, post: string) returns (r: Outcome)
      modifies this`out
      decreases e
      ensures r == OutcomeOf(OptExprText(sem, e, scope, post))
      ensures Emitted(old(out), out, OptExprText(sem, e, scope, post))
    {
      r := Pass;
      if e.Some? {
        r := GenExpr(e.value, scope);
        if r.Fail? {
          return;
        }
        ghost var acc := ExprText(sem, e.value, scope).value;
        Out(post);
        acc := Joined(old(out), acc, post, out);
      }
    }

    /** `gen_stmt`: dispatch on the node kind. */
    method GenStmt(node: Node, scope: ScopeId) returns (r: Outcome)
      modifies this`out
      decreases node, 3
      ensures r == OutcomeOf(StmtText(sem, node, scope))
      ensures Emitted(old(out), out, StmtText(sem, node, scope))
    {
      if node.BlockStatement? {
        r := GenBlock(node, scope);
      } else if node.VariableDeclaration? {
        r := GenStmts(node.declarations, scope, "");
      } else if node.VariableDeclarator? {
        r := GenDeclarator(node, scope);
      } else if node.FunctionDeclaration? {
        r := GenFunctionDecl(node, scope);
      } else if node.ReturnStatement? {
        r := GenReturn(node, scope);
      } else if node.ExpressionStatement? {
        r := GenExprStmt(node, scope);
      } else if node.WhileStatement? {
        r := GenWhile(node, scope);
      } else if node.ForStatement? {
        r := GenFor(node, scope);
      } else if node.IfStatement? {
        r := GenIf(node, scope);
      } else if node.TryStatement? {
        r := GenTry(node, scope);
      } else if node.ThrowStatement? {
        r := GenThrow(node, scope);
      } else {
        r := Fail(UnimplementedStatement);
      }
    }

    method GenExprStmt(node: Node, scope: ScopeId) returns (r: Outcome)
      requires node.ExpressionStatement?
      modifies this`out
      decreases node, 2
      ensures r == OutcomeOf(ExprStmtText(sem, node, scope))
      ensures Emitted(old(out), out, ExprStmtText(sem, node, scope))
    {
      r := GenExpr(node.expression, scope);
      if r.Fail? {
        return;
      }
      ghost var acc := ExprText(sem, node.expression, scope).value;
      Out(";");
      acc := Joined(old(out), acc, ";", out);
    }

    method GenThrow(node: Node, scope: ScopeId) returns (r: Outcome)
      requires node.ThrowStatement?
      modifies this`out
      decreases node, 2
      ensures r == OutcomeOf(ThrowText(sem, node, scope))
      ensures Emitted(old(out), out, ThrowText(sem, node, scope))
    {
      Out("throw ");
      ghost var acc := "throw ";
      r := GenExpr(node.argument, scope);
      if r.Fail? {
        Grown(old(out), acc, out);
        return;
      }
      acc := Joined(old(out), acc, ExprText(sem, node.argument, scope).value, out);
    }

    method GenBlock(node: Node, scope: ScopeId) returns (r: Outcome)
      requires node.BlockStatement?
      modifies this`out
      decreases node, 2
      ensures r == OutcomeOf(BlockText(sem, node, scope))
      ensures Emitted(old(out), out, BlockText(sem, node, scope))
    {
      Out("{\n");
      ghost var acc := "{\n";
      var inner := InitScope(node, scope);
      acc := Joined(old(out), acc, ScopeInit(sem, node, scope).0, out);
      r := GenStmts(node.body, inner, "");
      if r.Fail? {
        Grown(old(out), acc, out);
        return;
      }
      acc := Joined(old(out), acc, StmtsText(sem, node.body, inner, "").value, out);
      Out("}\n");
      acc := Joined(old(out), acc, "}\n", out);
    }

    method GenDeclarator(node: Node, scope: ScopeId) returns (r: Outcome)
      requires node.VariableDeclarator?
      modifies this`out
      decreases node, 2
      ensures r == OutcomeOf(DeclaratorText(sem, node, scope))
      ensures Emitted(old(out), out, DeclaratorText(sem, node, scope))
    {
      r := Pass;
      if node.init.Some? {
        r := GenExpr(node.ident, scope);
        if r.Fail? {
          return;
        }
        ghost var acc := ExprText(sem, node.ident, scope).value;
        Out("=");
        acc := Joined(old(out), acc, "=", out);
        r := GenExpr(node.init.value, scope);
        if r.Fail? {
          Grown(old(out), acc, out);
          return;
        }
        acc := Joined(old(out), acc, ExprText(sem, node.init.value, scope).value, out);
      }
    }

    method GenFunctionDecl(node: Node, scope: ScopeId) returns (r: Outcome)
      requires node.FunctionDeclaration?
      modifies this`out
      decreases node, 2
      ensures r == OutcomeOf(FunctionDeclText(sem, node, scope))
      ensures Emitted(old(out), out, FunctionDeclText(sem, node, scope))
    {
      Out("(");
      ghost var acc := "(";
      r := GenOptExpr(node.fnIdent, scope, "=");
      if r.Fail? {
        Grown(old(out), acc, out);
        return;
      }
      acc := Joined(old(out), acc, OptExprText(sem, node.fnIdent, scope, "=").value, out);
      r := GenFunctionExp(node, node.params, node.fnBody, scope);
      if r.Fail? {
        Grown(old(out), acc, out);
        return;
      }
      acc := Joined(old(out), acc, FunctionExpText(sem, node, node.params, node.fnBody, scope).value, out);
      Out(")");
      acc := Joined(old(out), acc, ")", out);
    }

    method GenReturn(node: Node, scope: ScopeId) returns (r: Outcome)
      requires node.ReturnStatement?
      modifies this`out
      decreases node, 2
      ensures r == OutcomeOf(ReturnText(sem, node, scope))
      ensures Emitted(old(out), out, ReturnText(sem, node, scope))
    {
      Out("return ");
      ghost var acc := "return ";
      if node.optArgument.Some? {
        r := GenExpr(node.optArgument.value, scope);
        if r.Fail? {
          Grown(old(out), acc, out);
          return;
        }
        acc := Joined(old(out), acc, ExprText(sem, node.optArgument.value, scope).value, out);
      } else {
        Out("FNValue::encodeUndefined()");
        acc := Joined(old(out), acc, "FNValue::encodeUndefined()", out);
        r := Pass;
      }
      Out(";");
      acc := Joined(old(out), acc, ";", out);
    }

    method GenWhile(node: Node, scope: ScopeId) returns (r: Outcome)
      requires node.WhileStatement?
      modifies this`out
      decreases node, 2
      ensures r == OutcomeOf(WhileText(sem, node, scope))
      ensures Emitted(old(out), out, WhileText(sem, node, scope))
    {
      Out("while(");
      ghost var acc := "while(";
      r := GenExpr(node.test, scope);
      if r.Fail? {
        Grown(old(out), acc, out);
        return;
      }
      acc := Joined(old(out), acc, ExprText(sem, node.test, scope).value, out);
      Out(".getBool()){\n");
      acc := Joined(old(out), acc, ".getBool()){\n", out);
      r := GenStmt(node.loopBody, scope);
      if r.Fail? {
        Grown(old(out), acc, out);
        return;
      }
      acc := Joined(old(out), acc, StmtText(sem, node.loopBody, scope).value, out);
      Out("\n}");
      acc := Joined(old(out), acc, "\n}", out);
    }

    /** The `for` case: enter the loop's scope once, before `for(`, and lower
        the header clauses and the body in it. */
    method GenFor(node: Node, scope: ScopeId) returns (r: Outcome)
      requires node.ForStatement?
      modifies this`out
      decreases node, 2
      ensures r == OutcomeOf(ForText(sem, node, scope))
      ensures Emitted(old(out), out, ForText(sem, node, scope))
    {
      Out("{");
      ghost var acc := "{";
      var inner := InitScope(node, scope);
      acc := Joined(old(out), acc, ScopeInit(sem, node, scope).0, out);
      Out("for(");
      acc := Joined(old(out), acc, "for(", out);
      r := GenOptStmt(node.init, inner);
      if r.Fail? {
        Grown(old(out), acc, out);
        return;
      }
      acc := Joined(old(out), acc, OptStmtText(sem, node.init, inner).value, out);
      Out(";");
      acc := Joined(old(out), acc, ";", out);
      r := GenOptExpr(node.optTest, inner, ".getBool()");
      if r.Fail? {
        Grown(old(out), acc, out);
        return;
      }
      acc := Joined(old(out), acc, OptExprText(sem, node.optTest, inner, ".getBool()").value, out);
      Out(";");
      acc := Joined(old(out), acc, ";", out);
      r := GenOptExpr(node.update, inner, "");
      if r.Fail? {
        Grown(old(out), acc, out);
        return;
      }
      acc := Joined(old(out), acc, OptExprText(sem, node.update, inner, "").value, out);
      Out("){");
      acc := Joined(old(out), acc, "){", out);
      r := GenStmt(node.loopBody, inner);
      if r.Fail? {
        Grown(old(out), acc, out);
        return;
      }
      acc := Joined(old(out), acc, StmtText(sem, node.loopBody, inner).value, out);
      Out("}");
      acc := Joined(old(out), acc, "}", out);
      Out("}");
      acc := Joined(old(out), acc, "}", out);
    }

    method GenIf(node: Node, scope: ScopeId) returns (r: Outcome)
      requires node.IfStatement?
      modifies this`out
      decreases node, 2
      ensures r == OutcomeOf(IfText(sem, node, scope))
      ensures Emitted(old(out), out, IfText(sem, node, scope))
    {
      Out("if(");
      ghost var acc := "if(";
      r := GenExpr(node.test, scope);
      if r.Fail? {
        Grown(old(out), acc, out);
        return;
      }
      acc := Joined(old(out), acc, ExprText(sem, node.test, scope).value, out);
      Out(".getBool()){\n");
      acc := Joined(old(out), acc, ".getBool()){\n", out);
      r := GenStmt(node.consequent, scope);
      if r.Fail? {
        Grown(old(out), acc, out);
        return;
      }
      acc := Joined(old(out), acc, StmtText(sem, node.consequent, scope).value, out);
      Out("\n}\nelse{\n");
      acc := Joined(old(out), acc, "\n}\nelse{\n", out);
      r := GenOptStmt(node.alternate, scope);
      if r.Fail? {
        Grown(old(out), acc, out);
        return;
      }
      acc := Joined(old(out), acc, OptStmtText(sem, node.alternate, scope).value, out);
      Out("\n}");
      acc := Joined(old(out), acc, "\n}", out);
    }

    /** The `try` case: the block in the current scope, then the handler,
        whose scope is entered from the scope enclosing the `try`. */
    method GenTry(node: Node, scope: ScopeId) returns (r: Outcome)
      requires node.TryStatement?
      modifies this`out
      decreases node, 2
      ensures r == OutcomeOf(TryText(sem, node, scope))
      ensures Emitted(old(out), out, TryText(sem, node, scope))
    {
      Out("try {");
      ghost var acc := "try {";
      r := GenStmt(node.block, scope);
      if r.Fail? {
        Grown(old(out), acc, out);
        return;
      }
      acc := Joined(old(out), acc, StmtText(sem, node.block, scope).value, out);
      Out("} catch (FNValue ex){");
      acc := Joined(old(out), acc, "} catch (FNValue ex){", out);
      r := GenCatch(node.handler, scope);
      if r.Fail? {
        Grown(old(out), acc, out);
        return;
      }
      acc := Joined(old(out), acc, CatchText(sem, node.handler, scope).value, out);
      Out("}");
      acc := Joined(old(out), acc, "}", out);
    }

    /** The handler part of `try`: a missing handler is the unimplemented
        `finally`; the catch scope is entered, the parameter bound to `ex`,
        and the handler's statements lowered each followed by `;`. */
    method GenCatch(handler: Option<Node>, scope: ScopeId) returns (r: Outcome)
      modifies this`out
      decreases handler
      ensures r == OutcomeOf(CatchText(sem, handler, scope))
      ensures Emitted(old(out), out, CatchText(sem, handler, scope))
    {
      if handler.None? {
        return Fail(FinallyNotImplemented);
      }
      var h := handler.value;
      if !h.CatchClause? {
        return Fail(UnexpectedNode);
      }
      var newScope := InitScope(h, scope);
      ghost var acc := ScopeInit(sem, h, scope).0;
      if !h.catchBody.BlockStatement? {
        Grown(old(out), acc, out);
        return Fail(UnexpectedNode);
      }
      r := GenOptExpr(h.param, newScope, "=ex;");
      if r.Fail? {
        Grown(old(out), acc, out);
        return;
      }
      acc := Joined(old(out), acc, OptExprText(sem, h.param, newScope, "=ex;").value, out);
      r := GenStmts(h.catchBody.body, newScope, ";");
      if r.Fail? {
        Grown(old(out), acc, out);
        return;
      }
      acc := Joined(old(out), acc, StmtsText(sem, h.catchBody.body, newScope, ";").value, out);
    }
  }

  /** `Compiler::compile`: lower a resolved module to the text of a C++
      program, or report why the original would panic. */
  method Compile(sem: SemContext, ast: Node) returns (r: Result<string>)
    ensures r == ProgramText(sem, ast)
  {
    var comp := new Compiler(sem);
    var outcome := comp.GenProgram(ast);
    if outcome.Pass? {
      assert [] + ProgramText(sem, ast).value == ProgramText(sem, ast).value;
      r := Ok(comp.out);
    } else {
      r := Err(outcome.error);
    }
  }
}
