/**
 * The router's `root` map, one trie per HTTP method, and what `#add` and
 * `#match` do to and with it. Both routers share this logic.
 */
module RouteTable {
  import opened Wrappers
  import opened HttpTypes
  import opened Paths
  import opened RouterNodes
  import opened SegmentTrie
  import opened TrieLemmas

  /** `root: Map<string, RouterNode>`: the trie of each method seen so far. */
  type Roots = map<Method, Trie>

  ghost predicate RootsWellFormed(roots: Roots)
  {
    forall m :: m in roots ==> WellFormed(roots[m])
  }

  /** The router's state after a registration call, and the error it threw, if any. */
  datatype Registration = Registration(roots: Roots, conflict: Option<RouteConflict>)

  /**
   * `#add(method, path, handler)`: start a trie for a method not seen yet,
   * then walk or create the path's nodes and bind the handler. A conflict
   * leaves the router as it was: it can only arise in a trie that already
   * existed, before any node was changed.
   */
  function Register(roots: Roots, m: Method, path: string, h: Handler): (r: Registration)
    requires RootsWellFormed(roots)
    ensures RootsWellFormed(r.roots)
    ensures r.conflict.Some? ==> m in roots && r.roots == roots
    ensures r.conflict.None? ==> m in r.roots && r.roots == roots[m := r.roots[m]]
  {
    FreshTrieWellFormed();
    var t := if m in roots then roots[m] else NewTrie();
    assert m !in roots ==> AddFrom(t, 0, path, SplitPath(path), h).Ok? by {
      if m !in roots {
        AddFromFreshNodeSucceeds(t, 0, path, SplitPath(path), h);
      }
    }
    match AddFrom(t, 0, path, SplitPath(path), h)
    case Ok(t') => Registration(roots[m := t'], None)
    case Err(e) => Registration(roots, Some(e))
  }

  /** `#match(method, path)`: `null` when the method has no trie yet. */
  function Route(roots: Roots, m: Method, path: string): (r: Option<MatchedRoute>)
    requires RootsWellFormed(roots)
    ensures m !in roots ==> r.None?
    ensures r.Some? ==> m in roots && exists n :: 0 <= n < |roots[m]| && roots[m][n].handler == Some(r.value.handler)
  {
    if m !in roots then None else MatchFrom(roots[m], 0, SplitPath(path), map[])
  }

  /**
   * After registering a pattern, every request path that instances it in
   * the resulting trie matches the new handler, each `:name` bound to the
   * request's segment at that position.
   */
  lemma RegisterThenRoute(roots: Roots, m: Method, path: string, h: Handler, request: string)
    requires RootsWellFormed(roots)
    requires Register(roots, m, path, h).conflict.None?
    requires Instance(Register(roots, m, path, h).roots[m], 0, SplitPath(path), SplitPath(request))
    ensures Route(Register(roots, m, path, h).roots, m, request)
      == Some(MatchedRoute(Bind(SplitPath(path), SplitPath(request), map[]), h))
  {
    FreshTrieWellFormed();
    var t := if m in roots then roots[m] else NewTrie();
    var t' := Register(roots, m, path, h).roots[m];
    assert AddFrom(t, 0, path, SplitPath(path), h) == Ok(t');
    AddEffect(t, 0, path, SplitPath(path), h);
    InstanceMatches(t', 0, SplitPath(path), SplitPath(request), map[]);
  }

  /**
   * Every answer `#match` gives comes from a pattern: the request instances
   * the pattern its walk follows in the method's trie, the handler is that
   * pattern's, and the parameters are the ones the pattern binds.
   */
  lemma RouteIsInstance(roots: Roots, m: Method, request: string)
    requires RootsWellFormed(roots) && Route(roots, m, request).Some?
    ensures m in roots
    ensures var t, segments := roots[m], SplitPath(request);
      var p := WalkPattern(t, 0, segments);
      && Instance(t, 0, p, segments)
      && Follow(t, 0, p).Some?
      && t[Follow(t, 0, p).value].handler.Some?
      && Route(roots, m, request)
         == Some(MatchedRoute(Bind(p, segments, map[]), t[Follow(t, 0, p).value].handler.value))
  {
    MatchIsInstance(roots[m], 0, SplitPath(request), map[]);
  }

  /**
   * After registering a path with no parameter segment, matching that path
   * under the same method gives the handler and no parameters.
   */
  lemma RegisterThenRouteLiteral(roots: Roots, m: Method, path: string, h: Handler)
    requires RootsWellFormed(roots)
    requires Register(roots, m, path, h).conflict.None?
    requires IsLiteral(SplitPath(path))
    ensures Route(Register(roots, m, path, h).roots, m, path) == Some(MatchedRoute(map[], h))
  {
    FreshTrieWellFormed();
    var t := if m in roots then roots[m] else NewTrie();
    var t' := Register(roots, m, path, h).roots[m];
    assert AddFrom(t, 0, path, SplitPath(path), h) == Ok(t');
    AddEffect(t, 0, path, SplitPath(path), h);
    LiteralInstance(t', 0, SplitPath(path), map[]);
    RegisterThenRoute(roots, m, path, h, path);
  }

  /**
   * A registration throws exactly when the method already has a trie in
   * which some `:name` segment of the path meets a node declaring another
   * name. Another method's trie never takes part.
   */
  lemma ConflictOnlyWithinMethod(roots: Roots, m: Method, path: string, h: Handler)
    requires RootsWellFormed(roots)
    ensures Register(roots, m, path, h).conflict.Some?
      <==> m in roots && exists i: nat :: ConflictAt(roots[m], 0, SplitPath(path), i)
  {
    if m in roots {
      ConflictIff(roots[m], 0, path, SplitPath(path), h);
    }
  }

  /**
   * Registering the same method and path twice is registering it once with
   * the second handler: the handler is replaced and no node is created.
   */
  lemma RegisterTwice(roots: Roots, m: Method, path: string, h1: Handler, h2: Handler)
    requires RootsWellFormed(roots)
    requires Register(roots, m, path, h1).conflict.None?
    ensures Register(Register(roots, m, path, h1).roots, m, path, h2) == Register(roots, m, path, h2)
  {
    FreshTrieWellFormed();
    var t := if m in roots then roots[m] else NewTrie();
    var t1 := Register(roots, m, path, h1).roots[m];
    assert AddFrom(t, 0, path, SplitPath(path), h1) == Ok(t1);
    AddTwice(t, 0, path, SplitPath(path), h1, h2);
    ConflictIff(t, 0, path, SplitPath(path), h1);
    ConflictIff(t, 0, path, SplitPath(path), h2);
  }

  /**
   * A registration touches only its own method's trie: every other method
   * answers every request as before.
   */
  lemma RegisterLeavesOtherMethods(roots: Roots, m: Method, path: string, h: Handler, other: Method, request: string)
    requires RootsWellFormed(roots) && other != m
    ensures Route(Register(roots, m, path, h).roots, other, request) == Route(roots, other, request)
  {
  }

  /**
   * A pattern registered before still leads to the same node after another
   * registration under the same method, with the handler it had unless the
   * new path leads there too. In particular a same-named parameter reuses
   * the parameter child, so the routes beneath it survive.
   */
  lemma RegisterKeepsRoutes(roots: Roots, m: Method, path: string, h: Handler, pattern: seq<string>)
    requires RootsWellFormed(roots) && m in roots
    requires Register(roots, m, path, h).conflict.None?
    requires Follow(roots[m], 0, pattern).Some?
    ensures var t' := Register(roots, m, path, h).roots[m];
      var n := Follow(roots[m], 0, pattern).value;
      && Follow(t', 0, pattern) == Some(n)
      && t'[n].handler == if Follow(t', 0, SplitPath(path)) == Some(n) then Some(h) else roots[m][n].handler
  {
    var t := roots[m];
    var t' := Register(roots, m, path, h).roots[m];
    assert AddFrom(t, 0, path, SplitPath(path), h) == Ok(t');
    AddEffect(t, 0, path, SplitPath(path), h);
    FollowPersists(t, t', 0, pattern);
  }
}
