/**
 * The router of packages/octane/src/router/router.ts: registration through
 * `get`/`post`/`put`/`patch`/`delete`/`head`/`options`, lookup through
 * `#match`. Here `get` also registers the handler under HEAD.
 */
module OctaneRouter {
  import opened Wrappers
  import opened HttpTypes
  import opened Paths
  import opened RouterNodes
  import opened SegmentTrie
  import opened TrieLemmas
  import opened RouteTable

  /** `get(path, handler)`: `#add('GET', ...)`, then, if that did not throw, `head(path, handler)`. */
  function RegisterGet(roots: Roots, path: string, h: Handler): (r: Registration)
    requires RootsWellFormed(roots)
    ensures RootsWellFormed(r.roots)
  {
    var g := Register(roots, GET, path, h);
    if g.conflict.Some? then g else Register(g.roots, HEAD, path, h)
  }

  /** HEAD has exactly GET's trie: both absent, or both the same. */
  ghost predicate HeadMirrorsGet(roots: Roots)
  {
    && (GET in roots <==> HEAD in roots)
    && (GET in roots ==> roots[GET] == roots[HEAD])
  }

  /**
   * After `get(path, handler)` returns, HEAD on that path matches the same
   * handler as GET; for a path without parameters, with no parameters.
   */
  lemma GetServesHead(roots: Roots, path: string, h: Handler)
    requires RootsWellFormed(roots)
    requires RegisterGet(roots, path, h).conflict.None?
    requires IsLiteral(SplitPath(path))
    ensures Route(RegisterGet(roots, path, h).roots, GET, path) == Some(MatchedRoute(map[], h))
    ensures Route(RegisterGet(roots, path, h).roots, HEAD, path) == Some(MatchedRoute(map[], h))
  {
    var g := Register(roots, GET, path, h);
    RegisterThenRouteLiteral(roots, GET, path, h);
    RegisterThenRouteLiteral(g.roots, HEAD, path, h);
    RegisterLeavesOtherMethods(g.roots, HEAD, path, h, GET, path);
  }

  /**
   * A router whose GET and HEAD routes were all registered through `get`
   * keeps HEAD's trie equal to GET's: `get` either throws before changing
   * anything or does the same to both.
   */
  lemma GetKeepsHeadMirrored(roots: Roots, path: string, h: Handler)
    requires RootsWellFormed(roots) && HeadMirrorsGet(roots)
    ensures HeadMirrorsGet(RegisterGet(roots, path, h).roots)
    ensures RegisterGet(roots, path, h).conflict.Some? ==> RegisterGet(roots, path, h).roots == roots
  {
    var g := Register(roots, GET, path, h);
    if g.conflict.None? {
      FreshTrieWellFormed();
      var t := if GET in roots then roots[GET] else NewTrie();
      assert AddFrom(t, 0, path, SplitPath(path), h) == Ok(g.roots[GET]);
      assert (if HEAD in g.roots then g.roots[HEAD] else NewTrie()) == t;
    }
  }

  /** While HEAD mirrors GET, every request answers the same under both. */
  lemma HeadAnswersAsGet(roots: Roots, request: string)
    requires RootsWellFormed(roots) && HeadMirrorsGet(roots)
    ensures Route(roots, HEAD, request) == Route(roots, GET, request)
  {
  }

  class Router {
    /** `root`: the trie of each method registered so far. */
    var root: Roots

    ghost predicate Valid()
      reads this
    {
      RootsWellFormed(root)
    }

    /** `new Router()`: no method has a trie. */
    constructor()
      ensures Valid() && root == map[]
    {
      root := map[];
    }

    /**
     * `#add(method, path, handler)`: the conflict it throws, if any, and the
     * router's new state.
     */
    method Add(m: Method, path: string, h: Handler) returns (conflict: Option<RouteConflict>)
      requires Valid()
      modifies this
      ensures Valid()
      ensures Registration(root, conflict) == Register(old(root), m, path, h)
    {
      FreshTrieWellFormed();
      var t0 := if m in root then root[m] else NewTrie();
      if m !in root {
        AddFromFreshNodeSucceeds(t0, 0, path, SplitPath(path), h);
      }
      var t;
      t, conflict := AddRoute(t0, path, h);
      if conflict.None? {
        root := root[m := t];
      }
    }

    /** `#match(method, path)`: the matched route, or `null`. */
    method Match(m: Method, path: string) returns (r: Option<MatchedRoute>)
      requires Valid()
      ensures r == Route(root, m, path)
    {
      if m !in root {
        return None;
      }
      r := MatchRoute(root[m], path);
    }

    /** `get(path, handler)`: registers under GET, then under HEAD. */
    method Get(path: string, h: Handler) returns (conflict: Option<RouteConflict>)
      requires Valid()
      modifies this
      ensures Valid()
      ensures Registration(root, conflict) == RegisterGet(old(root), path, h)
    {
      conflict := Add(GET, path, h);
      if conflict.None? {
        conflict := Head(path, h);
      }
    }

    /** `post(path, handler)`. */
    method Post(path: string, h: Handler) returns (conflict: Option<RouteConflict>)
      requires Valid()
      modifies this
      ensures Valid()
      ensures Registration(root, conflict) == Register(old(root), POST, path, h)
    {
      conflict := Add(POST, path, h);
    }

    /** `put(path, handler)`. */
    method Put(path: string, h: Handler) returns (conflict: Option<RouteConflict>)
      requires Valid()
      modifies this
      ensures Valid()
      ensures Registration(root, conflict) == Register(old(root), PUT, path, h)
    {
      conflict := Add(PUT, path, h);
    }

    /** `patch(path, handler)`. */
    method Patch(path: string, h: Handler) returns (conflict: Option<RouteConflict>)
      requires Valid()
      modifies this
      ensures Valid()
      ensures Registration(root, conflict) == Register(old(root), PATCH, path, h)
    {
      conflict := Add(PATCH, path, h);
    }

    /** `delete(path, handler)`. */
    method Delete(path: string, h: Handler) returns (conflict: Option<RouteConflict>)
      requires Valid()
      modifies this
      ensures Valid()
      ensures Registration(root, conflict) == Register(old(root), DELETE, path, h)
    {
      conflict := Add(DELETE, path, h);
    }

    /** `head(path, handler)`. */
    method Head(path: string, h: Handler) returns (conflict: Option<RouteConflict>)
      requires Valid()
      modifies this
      ensures Valid()
      ensures Registration(root, conflict) == Register(old(root), HEAD, path, h)
    {
      conflict := Add(HEAD, path, h);
    }

    /** `options(path, handler)`. */
    method Options(path: string, h: Handler) returns (conflict: Option<RouteConflict>)
      requires Valid()
      modifies this
      ensures Valid()
      ensures Registration(root, conflict) == Register(old(root), OPTIONS, path, h)
    {
      conflict := Add(OPTIONS, path, h);
    }
  }
}
