/** What the lowering promises about the C++ text it emits, stated over the
    text functions of `Lowering` and read back with the decoders of
    `Decode`. */
module LoweringProperties {
  import opened Results
  import opened Text
  import opened Ast
  import opened Sema
  import opened Lowering
  import opened Decode
  import opened Propagation

  // ------------------------------------------------------------ identifiers

  /** `gen_member_prop`: a named key lowers to the `props` entry of its
      own name, read back by `DecodeNamedProp`; a computed key lowers
      exactly when its expression does, to `->getByVal(`, that expression
      and `)`. */
  lemma MemberPropKeys(sem: SemContext, property: Node, scope: ScopeId, rest: string)
    ensures property.Identifier? && '"' !in property.name ==>
              && MemberPropText(sem, property, false, scope).Ok?
              && DecodeNamedProp(MemberPropText(sem, property, false, scope).value + rest) == Some((property.name, rest))
    ensures MemberPropText(sem, property, true, scope).Ok? <==> ExprText(sem, property, scope).Ok?
    ensures MemberPropText(sem, property, true, scope).Ok? ==>
              MemberPropText(sem, property, true, scope).value == "->getByVal(" + ExprText(sem, property, scope).value + ")"
  {
    if property.Identifier? && '"' !in property.name {
      NamedPropRoundTrip(property.name, rest);
    }
  }

  /** A local identifier whose declaration lives in `scope` or one of its
      enclosing scopes lowers to a slot path that starts at the record of
      `scope`, and whose `parent->` hops lead exactly to the declaring
      scope's record before reading the declaration's slot. */
  lemma LocalIdentifierReachesOwner(sem: SemContext, node: Node, scope: ScopeId)
    requires Valid(sem) && node.Identifier? && scope < |sem.scopes|
    requires node.id in sem.identDecl && sem.identDecl[node.id].ResolvedTo?
    requires sem.identDecl[node.id].decl < |sem.decls|
    requires sem.decls[sem.identDecl[node.id].decl].kind.Ordinary?
    requires sem.decls[sem.identDecl[node.id].decl].scope in Chain(sem, scope)
    ensures IdentifierText(sem, node, scope).Ok?
    ensures var d := sem.identDecl[node.id].decl;
            var path := DecodeSlotPath(IdentifierText(sem, node, scope).value);
            && path.Some? && path.value.0 == scope && path.value.2 == d
            && Up(sem, scope, path.value.1) == Some(sem.decls[d].scope)
  {
    var d := sem.identDecl[node.id].decl;
    var owner := sem.decls[d].scope;
    HopsReachOwner(sem, scope, owner);
    var hops := Depth(sem, scope) - Depth(sem, owner);
    assert IdentifierText(sem, node, scope) == Ok(SlotPath(scope, hops, d));
    SlotPathRoundTrip(scope, hops, d);
  }

  /** A global identifier becomes a named property of the global object,
      the same text in every scope, and never a slot path. */
  lemma GlobalIdentifierIsProperty(sem: SemContext, node: Node, scope: ScopeId, other: ScopeId)
    requires node.Identifier?
    requires node.id in sem.identDecl && sem.identDecl[node.id].ResolvedTo?
    requires sem.identDecl[node.id].decl < |sem.decls|
    requires !sem.decls[sem.identDecl[node.id].decl].kind.Ordinary?
    ensures IdentifierText(sem, node, scope) == Ok("global()" + NamedProp(node.name))
    ensures IdentifierText(sem, node, scope) == IdentifierText(sem, node, other)
    ensures DecodeSlotPath(IdentifierText(sem, node, scope).value).None?
  {
    GlobalIsNoSlot(node.name);
  }

  /** The lowering fails with "Unresolved variable" exactly when the
      identifier has no resolution to a declaration. */
  lemma UnresolvedIdentifier(sem: SemContext, node: Node, scope: ScopeId)
    requires node.Identifier?
    ensures IdentifierText(sem, node, scope) == Err(UnresolvedVariable)
        <==> node.id !in sem.identDecl || !sem.identDecl[node.id].ResolvedTo?
  {
  }

  /** The unsigned depth difference can only underflow when the resolver
      attached the identifier to a declaration outside its scope chain. */
  lemma UnderflowMeansOutsideChain(sem: SemContext, node: Node, scope: ScopeId)
    requires Valid(sem) && node.Identifier?
    requires IdentifierText(sem, node, scope) == Err(DepthUnderflow)
    ensures scope < |sem.scopes|
    ensures sem.decls[sem.identDecl[node.id].decl].scope !in Chain(sem, scope)
  {
    var owner := sem.decls[sem.identDecl[node.id].decl].scope;
    if owner in Chain(sem, scope) {
      HopsReachOwner(sem, scope, owner);
      assert false;
    }
  }

  // ---------------------------------------------------------- scope entry

  /** `init_scope` on a node with a scope emits exactly one entry, which
      reads back as "allocate the node's record and make the record of the
      current scope its parent", and continues in the node's scope; on a
      node without one it emits nothing and stays in the current scope. */
  lemma ScopeInitEnters(sem: SemContext, node: Node, scope: ScopeId, rest: string)
    ensures node.id in sem.nodeScope ==>
      && ScopeInit(sem, node, scope).1 == sem.nodeScope[node.id]
      && DecodeScopeEntry(ScopeInit(sem, node, scope).0 + rest) == Some((sem.nodeScope[node.id], scope, rest))
    ensures node.id !in sem.nodeScope ==> ScopeInit(sem, node, scope) == ("", scope)
  {
    if node.id in sem.nodeScope {
      ScopeEntryRoundTrip(sem.nodeScope[node.id], scope, rest);
    }
  }

  // ------------------------------------------------------ call convention

  /** A call site casts the closure's code to a function taking the parent
      record and exactly `count` values `param0` ... `param{count-1}`, in
      order, then passes the closure's environment and the arguments. */
  lemma CallSiteSignature(callee: string, count: nat, args: string)
    ensures var head := "({FNClosure *tmp=" + callee + ".getClosure();\nreinterpret_cast<FNValue (*)(";
            var t := CallText(callee, count, args);
            && |head| <= |t| && t[..|head|] == head
            && DecodeParamList(t[|head|..]) == Some((Range(0, count), ")>(tmp->func)(" + "tmp->env" + args + ");})"))
  {
    var head := "({FNClosure *tmp=" + callee + ".getClosure();\nreinterpret_cast<FNValue (*)(";
    var a := ")>(tmp->func)(";
    var b := "tmp->env";
    var c := ");})";
    var q := "({FNClosure *tmp=" + callee;
    var l := ".getClosure();\nreinterpret_cast<FNValue (*)(";
    Assoc(q, l + ParamList(count) + a, b);
    Assoc(q, l + ParamList(count), a);
    Assoc(q, l, ParamList(count));
    var x := head + ParamList(count);
    Assoc(x + a + b, args, c);
    Assoc(x + a, b, args + c);
    Assoc(x, a, b + (args + c));
    Assoc(a + b, args, c);
    Assoc(a, b, args + c);
    var tail := a + b + args + c;
    Assoc(head, ParamList(count), tail);
    SplitAt(head, ParamList(count) + tail);
    assert tail[0] == ')';
    ParamListRoundTrip(count, tail);
  }

  /** The closure text for `count` parameters starts with the closure
      constructor and then the signature for exactly `count` values
      `param0`, ... */
  lemma ClosureTextSignature(count: nat, scope: ScopeId, fnScope: ScopeId, code: string)
    ensures var head := "FNValue::encodeClosure(new FNClosure{(void(*)(void))(+[](";
            var t := ClosureEntry(count, scope, fnScope) + code + ClosureTail(scope);
            && |head| <= |t| && t[..|head|] == head
            && DecodeParamList(t[|head|..]).Some?
            && DecodeParamList(t[|head|..]).value.0 == Range(0, count)
  {
    var head := "FNValue::encodeClosure(new FNClosure{(void(*)(void))(+[](";
    var pl := ParamList(count);
    var env := ClosureEnv(scope, fnScope);
    var e4 := ClosureTail(scope);
    var rest := env + (code + e4);
    Assoc(ClosureHead(count) + env, code, e4);
    Assoc(ClosureHead(count), env, code + e4);
    Assoc(head + pl, "){", rest);
    Assoc(head, pl, "){" + rest);
    SplitAt(head, pl + ("){" + rest));
    assert ("){" + rest)[0] == ')';
    ParamListRoundTrip(count, "){" + rest);
  }

  /** A closure built from `params` has code of the signature for exactly
      `|params|` values `param0`, ...: so it agrees with a call site with
      `k` arguments exactly when `k == |params|` (`ParamListInjective`). */
  lemma ClosureSignature(sem: SemContext, owner: Node, params: seq<Node>, block: Node, scope: ScopeId, t: string)
    requires owner.FunctionExpression? || owner.FunctionDeclaration?
    requires owner.params == params && owner.fnBody == block
    requires FunctionExpText(sem, owner, params, block, scope) == Ok(t)
    ensures var head := "FNValue::encodeClosure(new FNClosure{(void(*)(void))(+[](";
            && |head| <= |t| && t[..|head|] == head
            && DecodeParamList(t[|head|..]).Some?
            && DecodeParamList(t[|head|..]).value.0 == Range(0, |params|)
  {
    var fnScope := sem.nodeScope[block.id];
    var code := FunctionCodeText(sem, owner, params, block, fnScope).value;
    ClosureTextSignature(|params|, scope, fnScope, code);
  }

  // ------------------------------------------------------------ operators

  /** The binary operators the lowering supports, and the runtime type their
      result is encoded as: comparisons give a boolean, arithmetic and shifts
      give a number; everything else is rejected. */
  lemma BinaryOperatorSupport(op: BinaryOperator)
    ensures BinaryResultType(op) == Some("Bool") <==>
      op in {LooseEquals, StrictEquals, StrictNotEquals, Less, LessEquals, Greater, GreaterEquals}
    ensures BinaryResultType(op) == Some("Number") <==> op in {LShift, RShift, Plus, Minus, Mult, Div, Mod}
    ensures BinaryResultType(op).None? <==>
      op in {LooseNotEquals, RShift3, Exp, BitOr, BitXor, BitAnd, In, Instanceof}
  {
  }

  /** Every supported operator is spelled as a C++ operator on numbers; the
      strict (in)equalities drop their third character, and every other
      operator keeps its JavaScript spelling. */
  lemma BinaryOperatorSpelling(op: BinaryOperator)
    ensures BinaryResultType(op).Some? ==>
      BinaryOpText(op) in {"==", "!=", "<", "<=", ">", ">=", "<<", ">>", "+", "-", "*", "/", "%"}
    ensures BinaryOpText(op) == op.AsStr() <==> !(op.StrictEquals? || op.StrictNotEquals?)
  {
  }

  /** An unsupported binary operator is rejected before (and whatever) its
      operands lower to. */
  lemma UnsupportedOperatorFirst(sem: SemContext, node: Node, scope: ScopeId)
    requires node.BinaryExpression? && BinaryResultType(node.binaryOp).None?
    ensures ExprText(sem, node, scope) == Err(UnsupportedOperator)
  {
  }

  /** The assignment operators the lowering supports; plain assignment copies
      the value, the five compound ones work on both sides' number
      references. */
  lemma AssignmentOperatorSupport(op: AssignmentOperator)
    ensures AssignSuffix(op).Some? <==> op in {Assign, PlusAssign, MinusAssign, ModAssign, DivAssign, MultAssign}
    ensures AssignSuffix(op) == Some("") <==> op.Assign?
    ensures AssignSuffix(op).Some? && !op.Assign? ==> AssignSuffix(op) == Some(".getNumberRef()")
  {
  }

  /** An unsupported assignment operator is rejected before its operands are
      lowered. */
  lemma UnsupportedAssignmentFirst(sem: SemContext, node: Node, scope: ScopeId)
    requires node.AssignmentExpression? && AssignSuffix(node.assignOp).None?
    ensures ExprText(sem, node, scope) == Err(UnsupportedAssignment)
  {
  }

  /** A prefix update puts its operator right after `encodeNumber(`; a
      postfix update leaves it as the last thing before the closing
      parenthesis, and only a postfix one does. */
  lemma UpdatePlacement(op: UpdateOperator, prefix: bool, arg: string)
    ensures var opener := "FNValue::encodeNumber(";
            var t := UpdateText(op, prefix, arg);
            && |opener| <= |t| && t[..|opener|] == opener
            && (prefix ==> op.AsStr() <= t[|opener|..])
    ensures EndsWith(UpdateText(op, prefix, arg), op.AsStr() + ")") <==> !prefix
  {
    var opener := "FNValue::encodeNumber(";
    var o := op.AsStr();
    var pre := if prefix then o else "";
    var post := if prefix then "" else o;
    var t := UpdateText(op, prefix, arg);
    Assoc(opener + pre + arg + ".getNumberRef()", post, ")");
    Assoc(opener + pre + arg, ".getNumberRef()", post + ")");
    Assoc(opener + pre, arg, ".getNumberRef()" + (post + ")"));
    Assoc(opener, pre, arg + (".getNumberRef()" + (post + ")")));
    var body := arg + (".getNumberRef()" + (post + ")"));
    SplitAt(opener, pre + body);
    if prefix {
      SplitAt(o, body);
      var last := ".getNumberRef()" + ")";
      assert post + ")" == ")";
      Assoc(opener + pre, arg, last);
      assert t == opener + pre + arg + last;
      EndsWithAppend(opener + pre + arg, last);
      assert t[|t| - 3] == '(';
    } else {
      assert pre + body == body;
      Assoc(opener + arg + ".getNumberRef()", o, ")");
      assert t == opener + arg + ".getNumberRef()" + (o + ")");
      EndsWithAppend(opener + arg + ".getNumberRef()", o + ")");
    }
  }

  // ----------------------------------------------------------- statements

  /** A `for` statement opens a block, enters its own scope there once
      (reading back as the entry of the for's scope with the enclosing scope
      as parent) and starts the loop right after it; without a scope of its
      own it starts the loop at once. */
  lemma ForEntersScopeOnce(sem: SemContext, node: Node, scope: ScopeId, t: string)
    requires node.ForStatement? && ForText(sem, node, scope) == Ok(t)
    ensures t != [] && t[0] == '{'
    ensures node.id in sem.nodeScope ==>
      var e := DecodeScopeEntry(t[1..]);
      && e.Some? && e.value.0 == sem.nodeScope[node.id] && e.value.1 == scope
      && "for(" <= e.value.2
    ensures node.id !in sem.nodeScope ==> "for(" <= t[1..]
  {
    var (entry, inner) := ScopeInit(sem, node, scope);
    var i := OptStmtText(sem, node.init, inner).value;
    var c := OptExprText(sem, node.optTest, inner, ".getBool()").value;
    var u := OptExprText(sem, node.update, inner, "").value;
    var b := StmtText(sem, node.loopBody, inner).value;
    var loop := "for(" + i + ";" + c + ";" + u + "){" + b + "}" + "}";
    ForLoopRegroup(entry, i, c, u, b);
    assert t == "{" + (entry + loop);
    SplitAt("{", entry + loop);
    ForLoopTail(i, c, u, b);
    ScopeInitEnters(sem, node, scope, loop);
    if node.id !in sem.nodeScope {
      assert entry + loop == loop;
    }
  }

  /** The `for` text as the block opener, the entry and the loop. */
  lemma ForLoopRegroup(entry: string, i: string, c: string, u: string, b: string)
    ensures "{" + entry + "for(" + i + ";" + c + ";" + u + "){" + b + "}" + "}"
         == "{" + (entry + ("for(" + i + ";" + c + ";" + u + "){" + b + "}" + "}"))
  {
  }

  /** The loop text starts with `for(`. */
  lemma ForLoopTail(i: string, c: string, u: string, b: string)
    ensures "for(" <= "for(" + i + ";" + c + ";" + u + "){" + b + "}" + "}"
  {
  }

  /** A block opens with a line break, enters its own scope (if it has one)
      with the enclosing scope as parent, and closes its brace at the end. */
  lemma BlockEntersScope(sem: SemContext, node: Node, scope: ScopeId, t: string)
    requires node.BlockStatement? && BlockText(sem, node, scope) == Ok(t)
    ensures |t| >= 2 && t[..2] == "{\n" && EndsWith(t, "}\n")
    ensures node.id in sem.nodeScope ==>
      var e := DecodeScopeEntry(t[2..]);
      e.Some? && e.value.0 == sem.nodeScope[node.id] && e.value.1 == scope
  {
    var (entry, inner) := ScopeInit(sem, node, scope);
    var b := StmtsText(sem, node.body, inner, "").value;
    Assoc("{\n" + entry, b, "}\n");
    Assoc("{\n", entry, b + "}\n");
    SplitAt("{\n", entry + (b + "}\n"));
    EndsWithAppend("{\n" + entry + b, "}\n");
    ScopeInitEnters(sem, node, scope, b + "}\n");
  }

  /** `if` always ends with an `else` block holding the alternate; with no
      alternate that block is empty. */
  lemma IfAlwaysElse(sem: SemContext, node: Node, scope: ScopeId, t: string)
    requires node.IfStatement? && IfText(sem, node, scope) == Ok(t)
    ensures EndsWith(t, "\n}\nelse{\n" + OptStmtText(sem, node.alternate, scope).value + "\n}")
    ensures node.alternate.None? ==> EndsWith(t, "\n}\nelse{\n\n}")
  {
    var c := ExprText(sem, node.test, scope).value;
    var k := StmtText(sem, node.consequent, scope).value;
    var a := OptStmtText(sem, node.alternate, scope).value;
    var x := "if(" + c + ".getBool()){\n" + k;
    Assoc(x + "\n}\nelse{\n", a, "\n}");
    Assoc(x, "\n}\nelse{\n", a + "\n}");
    Assoc("\n}\nelse{\n", a, "\n}");
    EndsWithAppend(x, "\n}\nelse{\n" + a + "\n}");
    if node.alternate.None? {
      assert "\n}\nelse{\n" + a + "\n}" == "\n}\nelse{\n\n}";
    }
  }

  /** A bare `return` returns the undefined value, whatever the context. */
  lemma BareReturn(sem: SemContext, node: Node, scope: ScopeId, sem': SemContext, scope': ScopeId)
    requires node.ReturnStatement? && node.optArgument.None?
    ensures ReturnText(sem, node, scope) == Ok("return " + "FNValue::encodeUndefined()" + ";")
    ensures ReturnText(sem, node, scope) == ReturnText(sem', node, scope')
  {
  }

  /** A `return` with an argument lowers exactly when its argument does. */
  lemma ReturnWithArgument(sem: SemContext, node: Node, scope: ScopeId)
    requires node.ReturnStatement? && node.optArgument.Some?
    ensures ReturnText(sem, node, scope).Ok? <==> ExprText(sem, node.optArgument.value, scope).Ok?
    ensures ReturnText(sem, node, scope).Ok? ==>
      ReturnText(sem, node, scope).value == "return " + ExprText(sem, node.optArgument.value, scope).value + ";"
  {
  }

  /** The catch clause's scope is entered right after `catch (FNValue ex){`,
      with the scope enclosing the `try` as its parent — not the scope of
      the try block. */
  lemma CatchParentIsEnclosing(sem: SemContext, node: Node, scope: ScopeId, t: string)
    requires node.TryStatement? && TryText(sem, node, scope) == Ok(t)
    requires node.handler.Some? && node.handler.value.id in sem.nodeScope
    ensures var head := "try {" + StmtText(sem, node.block, scope).value + "} catch (FNValue ex){";
            var e := DecodeScopeEntry(t[|head|..]);
            && |head| <= |t| && t[..|head|] == head
            && e.Some? && e.value.0 == sem.nodeScope[node.handler.value.id] && e.value.1 == scope
  {
    var h := node.handler.value;
    var head := "try {" + StmtText(sem, node.block, scope).value + "} catch (FNValue ex){";
    var (entry, inner) := ScopeInit(sem, h, scope);
    var p := OptExprText(sem, h.param, inner, "=ex;").value;
    var b := StmtsText(sem, h.catchBody.body, inner, ";").value;
    var c := CatchText(sem, node.handler, scope).value;
    assert c == entry + p + b;
    Assoc(head, c, "}");
    Assoc(entry + p, b, "}");
    Assoc(entry, p, b + "}");
    SplitAt(head, c + "}");
    ScopeInitEnters(sem, h, scope, p + (b + "}"));
  }

  /** A `try` without a catch handler fails with "finally is not
      implemented" — after its block, whose own failure comes first. */
  lemma TryWithoutHandler(sem: SemContext, node: Node, scope: ScopeId)
    requires node.TryStatement? && node.handler.None?
    ensures StmtText(sem, node.block, scope).Ok? ==> TryText(sem, node, scope) == Err(FinallyNotImplemented)
    ensures StmtText(sem, node.block, scope).Err? ==> TryText(sem, node, scope) == Err(StmtText(sem, node.block, scope).error)
  {
  }

  // -------------------------------------------------------------- closures

  /** The closure rebinds its environment as the defining scope's record,
      then enters the function's scope with the defining scope as parent,
      and finally captures the defining scope's record as the environment. */
  lemma ClosureEnvironment(sem: SemContext, owner: Node, params: seq<Node>, block: Node, scope: ScopeId, t: string)
    requires owner.FunctionExpression? || owner.FunctionDeclaration?
    requires owner.params == params && owner.fnBody == block
    requires FunctionExpText(sem, owner, params, block, scope) == Ok(t)
    ensures var pre := ClosureHead(|params|) + EnvRebind(scope);
            var e := DecodeScopeEntry(t[|pre|..]);
            && |pre| <= |t| && t[..|pre|] == pre && block.id in sem.nodeScope
            && e.Some? && e.value.0 == sem.nodeScope[block.id] && e.value.1 == scope
            && EndsWith(t, ClosureTail(scope))
  {
    var fnScope := sem.nodeScope[block.id];
    var code := FunctionCodeText(sem, owner, params, block, fnScope).value;
    assert t == ClosureEntry(|params|, scope, fnScope) + code + ClosureTail(scope);
    ClosureTextEnvironment(|params|, scope, fnScope, code);
  }

  lemma ClosureTextEnvironment(count: nat, scope: ScopeId, fnScope: ScopeId, code: string)
    ensures var pre := ClosureHead(count) + EnvRebind(scope);
            var t := ClosureEntry(count, scope, fnScope) + code + ClosureTail(scope);
            var e := DecodeScopeEntry(t[|pre|..]);
            && |pre| <= |t| && t[..|pre|] == pre
            && e.Some? && e.value.0 == fnScope && e.value.1 == scope
            && EndsWith(t, ClosureTail(scope))
  {
    var pre := ClosureHead(count) + EnvRebind(scope);
    var e2 := RecordAlloc(fnScope);
    var e3 := ParentLink(fnScope, scope);
    var e4 := ClosureTail(scope);
    Assoc(ClosureHead(count) + ClosureEnv(scope, fnScope), code, e4);
    Assoc(ClosureHead(count), ClosureEnv(scope, fnScope), code + e4);
    Assoc(ClosureHead(count), EnvRebind(scope) + e2, e3);
    Assoc(ClosureHead(count), EnvRebind(scope), e2);
    Assoc(pre + e2 + e3, code, e4);
    Assoc(pre + e2, e3, code + e4);
    Assoc(pre, e2, e3 + (code + e4));
    Assoc(e2, e3, code + e4);
    SplitAt(pre, e2 + e3 + (code + e4));
    ScopeEntryRoundTrip(fnScope, scope, code + e4);
    EndsWithAppend(pre + e2 + e3 + code, e4);
  }

  /** A formal owned by the function's scope is stored straight into that
      scope's record, with no `parent->` hop. */
  lemma FormalInFunctionScope(sem: SemContext, p: Node, fnScope: ScopeId)
    requires Valid(sem) && p.Identifier? && fnScope < |sem.scopes|
    requires p.id in sem.identDecl && sem.identDecl[p.id].ResolvedTo?
    requires sem.identDecl[p.id].decl < |sem.decls|
    requires sem.decls[sem.identDecl[p.id].decl].kind.Ordinary?
    requires sem.decls[sem.identDecl[p.id].decl].scope == fnScope
    ensures IdentifierText(sem, p, fnScope) == Ok(SlotPath(fnScope, 0, sem.identDecl[p.id].decl))
  {
  }

  /** The formal `p` is an identifier resolved to an ordinary declaration
      owned by the function's scope `fnScope`. */
  predicate FormalOf(sem: SemContext, p: Node, fnScope: ScopeId)
  {
    && p.Identifier? && p.id in sem.identDecl && sem.identDecl[p.id].ResolvedTo?
    && sem.identDecl[p.id].decl < |sem.decls|
    && sem.decls[sem.identDecl[p.id].decl].kind.Ordinary?
    && sem.decls[sem.identDecl[p.id].decl].scope == fnScope
  }

  function FormalDecl(sem: SemContext, p: Node, fnScope: ScopeId): DeclId
    requires FormalOf(sem, p, fnScope)
  {
    sem.identDecl[p.id].decl
  }

  /** The declarations the formals resolve to, in order. */
  function FormalDecls(sem: SemContext, params: seq<Node>, fnScope: ScopeId): (ds: seq<DeclId>)
    requires forall i :: 0 <= i < |params| ==> FormalOf(sem, params[i], fnScope)
    ensures |ds| == |params|
    ensures forall i :: 0 <= i < |params| ==> ds[i] == FormalDecl(sem, params[i], fnScope)
  {
    if params == [] then []
    else FormalDecls(sem, params[..|params| - 1], fnScope) + [FormalDecl(sem, params[|params| - 1], fnScope)]
  }

  /** The parameter copies for the declarations `ds`: the `i`-th argument
      stored into the slot of `ds[i]` in the record of `fnScope`, with no
      `parent->` hop, for `i` in order. */
  function ParamCopies(fnScope: ScopeId, ds: seq<DeclId>): string
  {
    if ds == [] then ""
    else ParamCopies(fnScope, ds[..|ds| - 1]) + SlotPath(fnScope, 0, ds[|ds| - 1]) + ParamCopy(|ds| - 1)
  }

  /** The call convention's copies: when every formal is an ordinary
      declaration of the function's scope, the copies store `param0`,
      `param1`, ... into the slots of the first, second, ... formal, in
      order, each in the function's own record. */
  lemma {:induction false} FormalsCopyParams(sem: SemContext, params: seq<Node>, fnScope: ScopeId)
    requires Valid(sem) && fnScope < |sem.scopes|
    requires forall i :: 0 <= i < |params| ==> FormalOf(sem, params[i], fnScope)
    ensures FormalsText(sem, params, fnScope) == Ok(ParamCopies(fnScope, FormalDecls(sem, params, fnScope)))
    decreases |params|
  {
    if params != [] {
      var init := params[..|params| - 1];
      var p := params[|params| - 1];
      FormalsCopyParams(sem, init, fnScope);
      FormalInFunctionScope(sem, p, fnScope);
      var ds := FormalDecls(sem, params, fnScope);
      assert ds[..|ds| - 1] == FormalDecls(sem, init, fnScope);
    }
  }

  /** Each copy reads back as the function's record, the formal's slot and
      the argument number. */
  lemma ParamCopiesReadBack(fnScope: ScopeId, ds: seq<DeclId>, i: nat, rest: string)
    requires i < |ds|
    ensures DecodeParamCopy(SlotPath(fnScope, 0, ds[i]) + ParamCopy(i) + rest) == Some((fnScope, ds[i], i, rest))
  {
    ParamCopyRoundTrip(fnScope, ds[i], i, rest);
  }

  /** In a lowered closure, right after entering the function's scope come
      the copies of `param0 .. param{n-1}` into the formals' slots, in
      order. */
  lemma ClosureCopiesFormals(sem: SemContext, owner: Node, params: seq<Node>, block: Node, scope: ScopeId, t: string)
    requires Valid(sem)
    requires owner.FunctionExpression? || owner.FunctionDeclaration?
    requires owner.params == params && owner.fnBody == block
    requires FunctionExpText(sem, owner, params, block, scope) == Ok(t)
    requires block.id in sem.nodeScope && sem.nodeScope[block.id] < |sem.scopes|
    requires forall i :: 0 <= i < |params| ==> FormalOf(sem, params[i], sem.nodeScope[block.id])
    ensures var fnScope := sem.nodeScope[block.id];
            var pre := ClosureEntry(|params|, scope, fnScope) + ParamCopies(fnScope, FormalDecls(sem, params, fnScope));
            |pre| <= |t| && t[..|pre|] == pre
  {
    var fnScope := sem.nodeScope[block.id];
    FormalsCopyParams(sem, params, fnScope);
    var copies := ParamCopies(fnScope, FormalDecls(sem, params, fnScope));
    var body := StmtsText(sem, block.body, fnScope, ";\n").value;
    var entry := ClosureEntry(|params|, scope, fnScope);
    assert FunctionCodeText(sem, owner, params, block, fnScope) == Ok(copies + body);
    assert t == entry + (copies + body) + ClosureTail(scope);
    Assoc(entry, copies + body, ClosureTail(scope));
    Assoc(entry, copies, body + ClosureTail(scope));
    Assoc(copies, body, ClosureTail(scope));
    SplitAt(entry + copies, body + ClosureTail(scope));
  }

  // ------------------------------------------------------- failure cases

  predicate IsExpressionKind(n: Node)
  {
    || n.FunctionExpression? || n.ObjectExpression? || n.ArrayExpression?
    || n.MemberExpression? || n.CallExpression? || n.Identifier?
    || n.AssignmentExpression? || n.BinaryExpression? || n.UpdateExpression?
    || n.NumericLiteral? || n.BooleanLiteral? || n.StringLiteral?
  }

  predicate IsStatementKind(n: Node)
  {
    || n.BlockStatement? || n.VariableDeclaration? || n.VariableDeclarator?
    || n.FunctionDeclaration? || n.ReturnStatement? || n.ExpressionStatement?
    || n.WhileStatement? || n.ForStatement? || n.IfStatement?
    || n.TryStatement? || n.ThrowStatement?
  }

  /** A node of a kind `gen_expr` does not list fails as an unimplemented
      expression; the literal kinds never fail. */
  lemma ExpressionKinds(sem: SemContext, node: Node, scope: ScopeId)
    ensures !IsExpressionKind(node) ==> ExprText(sem, node, scope) == Err(UnimplementedExpression)
    ensures node.NumericLiteral? || node.BooleanLiteral? || node.StringLiteral? ==> ExprText(sem, node, scope).Ok?
  {
  }

  /** A node of a kind `gen_stmt` does not list fails as an unimplemented
      statement: in particular every expression kind. */
  lemma StatementKinds(sem: SemContext, node: Node, scope: ScopeId)
    ensures !IsStatementKind(node) ==> StmtText(sem, node, scope) == Err(UnimplementedStatement)
    ensures IsExpressionKind(node) ==> !IsStatementKind(node)
  {
  }

  /** A property that is neither computed nor an identifier is rejected. */
  lemma MemberPropRejectsNonIdentifier(sem: SemContext, property: Node, scope: ScopeId)
    requires !property.Identifier?
    ensures MemberPropText(sem, property, false, scope) == Err(UnexpectedNode)
  {
  }

  /** An object literal whose first failing entry is not a `Property` fails
      as an unexpected node. */
  lemma ObjectRejectsNonProperty(sem: SemContext, node: Node, scope: ScopeId, k: nat)
    requires node.ObjectExpression? && k < |node.properties| && !node.properties[k].Property?
    requires forall j :: 0 <= j < k ==> PropertyText(sem, node.properties[j], scope).Ok?
    ensures ExprText(sem, node, scope) == Err(UnexpectedNode)
  {
    PropertiesFirstFailure(sem, node.properties, scope, k);
  }

  /** The program fails without a scope for the module, and on anything but
      a module. */
  lemma ProgramFailures(sem: SemContext, node: Node)
    ensures node.id !in sem.nodeScope ==> ProgramText(sem, node) == Err(MissingScope)
    ensures node.id in sem.nodeScope && !node.Module? ==> ProgramText(sem, node) == Err(UnexpectedNode)
  {
  }

  /** A function whose body has no scope fails with a missing scope. */
  lemma FunctionNeedsScope(sem: SemContext, owner: Node, scope: ScopeId)
    requires owner.FunctionExpression? || owner.FunctionDeclaration?
    requires owner.fnBody.id !in sem.nodeScope
    ensures FunctionExpText(sem, owner, owner.params, owner.fnBody, scope) == Err(MissingScope)
  {
  }
}
