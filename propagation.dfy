/** How failures travel through the lowering of a list: the original lowers
    list elements one after another inside a loop, and the first panic ends
    the run. So a list lowers successfully exactly when every element
    does, and when one fails, the list fails with the error of the first
    failing element. */
module Propagation {
  import opened Results
  import opened Ast
  import opened Sema
  import opened Lowering

  // ------------------------------------------------ a failed prefix is final

  lemma {:induction false} StmtsErrPrefix(sem: SemContext, ss: seq<Node>, scope: ScopeId, sep: string, k: nat)
    requires k <= |ss| && StmtsText(sem, ss[..k], scope, sep).Err?
    ensures StmtsText(sem, ss, scope, sep) == StmtsText(sem, ss[..k], scope, sep)
    decreases |ss|
  {
    if k < |ss| {
      var init := ss[..|ss| - 1];
      assert init[..k] == ss[..k];
      StmtsErrPrefix(sem, init, scope, sep, k);
    } else {
      assert ss[..k] == ss;
    }
  }

  lemma {:induction false} ExprsErrPrefix(sem: SemContext, es: seq<Node>, scope: ScopeId, pre: string, post: string, k: nat)
    requires k <= |es| && ExprsText(sem, es[..k], scope, pre, post).Err?
    ensures ExprsText(sem, es, scope, pre, post) == ExprsText(sem, es[..k], scope, pre, post)
    decreases |es|
  {
    if k < |es| {
      var init := es[..|es| - 1];
      assert init[..k] == es[..k];
      ExprsErrPrefix(sem, init, scope, pre, post, k);
    } else {
      assert es[..k] == es;
    }
  }

  lemma {:induction false} FormalsErrPrefix(sem: SemContext, ps: seq<Node>, scope: ScopeId, k: nat)
    requires k <= |ps| && FormalsText(sem, ps[..k], scope).Err?
    ensures FormalsText(sem, ps, scope) == FormalsText(sem, ps[..k], scope)
    decreases |ps|
  {
    if k < |ps| {
      var init := ps[..|ps| - 1];
      assert init[..k] == ps[..k];
      FormalsErrPrefix(sem, init, scope, k);
    } else {
      assert ps[..k] == ps;
    }
  }

  lemma {:induction false} PropertiesErrPrefix(sem: SemContext, ps: seq<Node>, scope: ScopeId, k: nat)
    requires k <= |ps| && PropertiesText(sem, ps[..k], scope).Err?
    ensures PropertiesText(sem, ps, scope) == PropertiesText(sem, ps[..k], scope)
    decreases |ps|
  {
    if k < |ps| {
      var init := ps[..|ps| - 1];
      assert init[..k] == ps[..k];
      PropertiesErrPrefix(sem, init, scope, k);
    } else {
      assert ps[..k] == ps;
    }
  }

  // ------------------------------------------------ success iff every part

  /** A statement list lowers exactly when each of its statements does. */
  lemma {:induction false} StmtsOkIffAll(sem: SemContext, ss: seq<Node>, scope: ScopeId, sep: string)
    ensures StmtsText(sem, ss, scope, sep).Ok? <==> forall i :: 0 <= i < |ss| ==> StmtText(sem, ss[i], scope).Ok?
    decreases |ss|
  {
    if ss != [] {
      var init := ss[..|ss| - 1];
      StmtsOkIffAll(sem, init, scope, sep);
      assert forall i :: 0 <= i < |init| ==> init[i] == ss[i];
    }
  }

  /** An expression list lowers exactly when each of its expressions does. */
  lemma {:induction false} ExprsOkIffAll(sem: SemContext, es: seq<Node>, scope: ScopeId, pre: string, post: string)
    ensures ExprsText(sem, es, scope, pre, post).Ok? <==> forall i :: 0 <= i < |es| ==> ExprText(sem, es[i], scope).Ok?
    decreases |es|
  {
    if es != [] {
      ExprsOkIffAll(sem, es[..|es| - 1], scope, pre, post);
      ExprsStep(sem, es, scope, pre, post);
      AllExprsSnoc(sem, es, es[..|es| - 1], scope);
    }
  }

  lemma ExprsStep(sem: SemContext, es: seq<Node>, scope: ScopeId, pre: string, post: string)
    requires es != []
    ensures ExprsText(sem, es, scope, pre, post).Ok?
        <==> ExprsText(sem, es[..|es| - 1], scope, pre, post).Ok? && ExprText(sem, es[|es| - 1], scope).Ok?
  {
  }

  /** Every expression of `es` lowers exactly when every one but the last
      does and the last one does. */
  lemma AllExprsSnoc(sem: SemContext, es: seq<Node>, init: seq<Node>, scope: ScopeId)
    requires es != [] && init == es[..|es| - 1]
    ensures (forall i :: 0 <= i < |es| ==> ExprText(sem, es[i], scope).Ok?)
        <==> (forall i :: 0 <= i < |init| ==> ExprText(sem, init[i], scope).Ok?)
             && ExprText(sem, es[|es| - 1], scope).Ok?
  {
    assert forall i :: 0 <= i < |init| ==> init[i] == es[i];
  }

  /** The parameter copies lower exactly when each formal does, lowered in
      the function's scope. */
  lemma {:induction false} FormalsOkIffAll(sem: SemContext, ps: seq<Node>, fnScope: ScopeId)
    ensures FormalsText(sem, ps, fnScope).Ok? <==> forall i :: 0 <= i < |ps| ==> ExprText(sem, ps[i], fnScope).Ok?
    decreases |ps|
  {
    if ps != [] {
      FormalsOkIffAll(sem, ps[..|ps| - 1], fnScope);
      FormalsStep(sem, ps, fnScope);
      AllExprsSnoc(sem, ps, ps[..|ps| - 1], fnScope);
    }
  }

  lemma FormalsStep(sem: SemContext, ps: seq<Node>, fnScope: ScopeId)
    requires ps != []
    ensures FormalsText(sem, ps, fnScope).Ok?
        <==> FormalsText(sem, ps[..|ps| - 1], fnScope).Ok? && ExprText(sem, ps[|ps| - 1], fnScope).Ok?
  {
  }

  /** An object literal's initialisers lower exactly when each property
      does. */
  lemma {:induction false} PropertiesOkIffAll(sem: SemContext, ps: seq<Node>, scope: ScopeId)
    ensures PropertiesText(sem, ps, scope).Ok? <==> forall i :: 0 <= i < |ps| ==> PropertyText(sem, ps[i], scope).Ok?
    decreases |ps|
  {
    if ps != [] {
      var init := ps[..|ps| - 1];
      PropertiesOkIffAll(sem, init, scope);
      assert forall i :: 0 <= i < |init| ==> init[i] == ps[i];
    }
  }

  /** When property `k` is the first that fails, the object literal fails
      with its error. */
  lemma PropertiesFirstFailure(sem: SemContext, ps: seq<Node>, scope: ScopeId, k: nat)
    requires k < |ps| && PropertyText(sem, ps[k], scope).Err?
    requires forall j :: 0 <= j < k ==> PropertyText(sem, ps[j], scope).Ok?
    ensures PropertiesText(sem, ps, scope) == Err(PropertyText(sem, ps[k], scope).error)
  {
    var pre := ps[..k + 1];
    assert pre[..k] == ps[..k];
    PropertiesOkIffAll(sem, ps[..k], scope);
    PropertiesErrPrefix(sem, ps, scope, k + 1);
  }

  /** When statement `k` is the first that fails, the list fails with its
      error: nothing after it is lowered and nothing before it hides it. */
  lemma StmtsFirstFailure(sem: SemContext, ss: seq<Node>, scope: ScopeId, sep: string, k: nat)
    requires k < |ss| && StmtText(sem, ss[k], scope).Err?
    requires forall j :: 0 <= j < k ==> StmtText(sem, ss[j], scope).Ok?
    ensures StmtsText(sem, ss, scope, sep) == Err(StmtText(sem, ss[k], scope).error)
  {
    var pre := ss[..k + 1];
    assert pre[..k] == ss[..k];
    StmtsOkIffAll(sem, ss[..k], scope, sep);
    StmtsErrPrefix(sem, ss, scope, sep, k + 1);
  }

  /** When expression `k` is the first that fails, the list fails with its
      error. */
  lemma ExprsFirstFailure(sem: SemContext, es: seq<Node>, scope: ScopeId, pre: string, post: string, k: nat)
    requires k < |es| && ExprText(sem, es[k], scope).Err?
    requires forall j :: 0 <= j < k ==> ExprText(sem, es[j], scope).Ok?
    ensures ExprsText(sem, es, scope, pre, post) == Err(ExprText(sem, es[k], scope).error)
  {
    var p := es[..k + 1];
    assert p[..k] == es[..k];
    ExprsOkIffAll(sem, es[..k], scope, pre, post);
    ExprsErrPrefix(sem, es, scope, pre, post, k + 1);
  }

  /** The whole pass succeeds exactly when the module has a scope and every
      top-level statement lowers; one failing statement fails the pass. */
  lemma ProgramOkIff(sem: SemContext, m: Node)
    ensures ProgramText(sem, m).Ok? <==>
      m.Module? && m.id in sem.nodeScope
      && forall i :: 0 <= i < |m.body| ==> StmtText(sem, m.body[i], sem.nodeScope[m.id]).Ok?
  {
    if m.Module? && m.id in sem.nodeScope {
      StmtsOkIffAll(sem, m.body, sem.nodeScope[m.id], ";");
    }
  }
}
