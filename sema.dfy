/** The semantic context the resolver hands to the lowering: the lexical
    scope table, the declaration table, the scope attached to a node and the
    resolution of each identifier. The lowering only reads it. */
module Sema {
  import opened Results
  import opened Ast

  type ScopeId = nat
  type DeclId = nat

  /** One lexical scope: its parent, its nesting depth (root 0) and the
      declarations it owns, in declaration order. */
  datatype LexicalScope = LexicalScope(parentScope: Option<ScopeId>, depth: nat, decls: seq<DeclId>)

  /** `Ordinary` stands for every declaration kind the lowering stores in a
      scope record (var, let, const, parameter, function name, ...). */
  datatype DeclKind = Ordinary | GlobalProperty | UndeclaredGlobalProperty

  datatype Decl = Decl(kind: DeclKind, scope: ScopeId)

  datatype Resolution = ResolvedTo(decl: DeclId) | Unresolvable

  datatype SemContext = SemContext(
    scopes: seq<LexicalScope>,
    decls: seq<Decl>,
    nodeScope: map<NodeId, ScopeId>,
    identDecl: map<NodeId, Resolution>)

  /** Scope `i` links to an existing parent exactly one level shallower, or
      is a root at depth 0. */
  predicate DepthLinked(sem: SemContext, i: ScopeId)
    requires i < |sem.scopes|
  {
    match sem.scopes[i].parentScope
    case None => sem.scopes[i].depth == 0
    case Some(p) => p < |sem.scopes| && sem.scopes[i].depth == sem.scopes[p].depth + 1
  }

  /** What the resolver guarantees about the tables: the depth invariant on
      every scope, and every declaration owned by an existing scope. */
  predicate Valid(sem: SemContext)
  {
    && (forall i :: 0 <= i < |sem.scopes| ==> DepthLinked(sem, i))
    && (forall d :: 0 <= d < |sem.decls| ==> sem.decls[d].scope < |sem.scopes|)
  }

  function Depth(sem: SemContext, s: ScopeId): nat
    requires s < |sem.scopes|
  {
    sem.scopes[s].depth
  }

  /** The scopes visible from `s`, innermost first: `s`, its parent, ...,
      up to its root. Exactly one scope per depth from `s`'s down to 0. */
  function Chain(sem: SemContext, s: ScopeId): (c: seq<ScopeId>)
    requires Valid(sem) && s < |sem.scopes|
    ensures |c| == Depth(sem, s) + 1 && c[0] == s
    ensures forall i :: 0 <= i < |c| ==> c[i] < |sem.scopes| && Depth(sem, c[i]) + i == Depth(sem, s)
    ensures forall i :: 0 <= i < |c| - 1 ==> sem.scopes[c[i]].parentScope == Some(c[i + 1])
    ensures sem.scopes[c[|c| - 1]].parentScope == None
    decreases Depth(sem, s)
  {
    assert DepthLinked(sem, s);
    match sem.scopes[s].parentScope
    case None => [s]
    case Some(p) => [s] + Chain(sem, p)
  }

  /** Follows `k` parent links from `s`, as `k` `parent->` dereferences do at
      run time; `None` when a link is missing on the way. */
  function Up(sem: SemContext, s: ScopeId, k: nat): Option<ScopeId>
    decreases k
  {
    if k == 0 then Some(s)
    else if s >= |sem.scopes| then None
    else match sem.scopes[s].parentScope
      case None => None
      case Some(p) => Up(sem, p, k - 1)
  }

  /** `k` parent links from `s` lead to the `k`-th scope of its chain, and
      no further than the root. */
  lemma {:induction false} UpFollowsChain(sem: SemContext, s: ScopeId, k: nat)
    requires Valid(sem) && s < |sem.scopes|
    ensures Up(sem, s, k) == if k < |Chain(sem, s)| then Some(Chain(sem, s)[k]) else None
    decreases k
  {
    var c := Chain(sem, s);
    if k > 0 {
      match sem.scopes[s].parentScope
      case None =>
      case Some(p) =>
        assert c == [s] + Chain(sem, p);
        UpFollowsChain(sem, p, k - 1);
    }
  }

  /** The identifier rule's hop count is right: if `owner` is `s` or one of
      its enclosing scopes, it is not deeper than `s`, and following
      `depth(s) - depth(owner)` parent links from `s` reaches exactly
      `owner`. */
  lemma HopsReachOwner(sem: SemContext, s: ScopeId, owner: ScopeId)
    requires Valid(sem) && s < |sem.scopes|
    requires owner in Chain(sem, s)
    ensures owner < |sem.scopes| && Depth(sem, owner) <= Depth(sem, s)
    ensures Up(sem, s, Depth(sem, s) - Depth(sem, owner)) == Some(owner)
  {
    var c := Chain(sem, s);
    var j :| 0 <= j < |c| && c[j] == owner;
    assert Depth(sem, s) - Depth(sem, owner) == j;
    UpFollowsChain(sem, s, j);
  }
}
