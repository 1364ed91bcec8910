/**
 * The router of packages/veloci-router/src/router/router.ts: the same trie
 * as the other router, but registration only through `get`, `post`, `put`,
 * `patch` and `delete`, and `get` registers under GET alone.
 */
module VelociRouter {
  import opened Wrappers
  import opened HttpTypes
  import opened Paths
  import opened RouterNodes
  import opened SegmentTrie
  import opened TrieLemmas
  import opened RouteTable

  /** The methods this router's public registration calls can reach. */
  predicate Registrable(m: Method)
  {
    m in {GET, POST, PUT, PATCH, DELETE}
  }

  /** A table built through the public calls has no trie for HEAD or OPTIONS. */
  ghost predicate OnlyRegistrable(roots: Roots)
  {
    forall m :: m in roots ==> Registrable(m)
  }

  /**
   * Registering under a reachable method keeps HEAD and OPTIONS without a
   * trie, so a HEAD or OPTIONS request never matches on this router, not
   * even on a path registered with `get`.
   */
  lemma HeadNeverMatches(roots: Roots, m: Method, path: string, h: Handler, request: string)
    requires RootsWellFormed(roots) && OnlyRegistrable(roots) && Registrable(m)
    ensures OnlyRegistrable(Register(roots, m, path, h).roots)
    ensures Route(Register(roots, m, path, h).roots, HEAD, request) == None
    ensures Route(Register(roots, m, path, h).roots, OPTIONS, request) == None
  {
    var r := Register(roots, m, path, h);
    forall m' | m' in r.roots
      ensures Registrable(m')
    {
      if m' != m {
        assert m' in roots;
      }
    }
  }

  class Router {
    /** `root`: the trie of each method registered so far. */
    var root: Roots

    ghost predicate Valid()
      reads this
    {
      RootsWellFormed(root) && OnlyRegistrable(root)
    }

    /** `new Router()`: no method has a trie. */
    constructor()
      ensures Valid() && root == map[]
    {
      root := map[];
    }

    /**
     * `_add(method, path, handler)`: the conflict it throws, if any, and the
     * router's new state.
     */
    method Add(m: Method, path: string, h: Handler) returns (conflict: Option<RouteConflict>)
      requires Valid() && Registrable(m)
      modifies this
      ensures Valid()
      ensures Registration(root, conflict) == Register(old(root), m, path, h)
    {
      HeadNeverMatches(root, m, path, h, path);
      FreshTrieWellFormed();
      var t0 := if m in root then root[m] else NewTrie();
      if m !in root {
        AddFromFreshNodeSucceeds(t0, 0, path, SplitPath(path), h);
      }
      var t;
      t, conflict := AddRoute(t0, path, h);
      if conflict.None? {
        root := root[m := t];
      }
    }

    /**
     * `_match(method, path)`: the matched route, or `null`; always `null`
     * for HEAD and OPTIONS.
     */
    method Match(m: Method, path: string) returns (r: Option<MatchedRoute>)
      requires Valid()
      ensures r == Route(root, m, path)
      ensures !Registrable(m) ==> r == None
    {
      if m !in root {
        return None;
      }
      r := MatchRoute(root[m], path);
    }

    /** `get(path, handler)`: GET only. */
    method Get(path: string, h: Handler) returns (conflict: Option<RouteConflict>)
      requires Valid()
      modifies this
      ensures Valid()
      ensures Registration(root, conflict) == Register(old(root), GET, path, h)
    {
      conflict := Add(GET, path, h);
    }

    /** `post(path, handler)`. */
    method Post(path: string, h: Handler) returns (conflict: Option<RouteConflict>)
      requires Valid()
      modifies this
      ensures Valid()
      ensures Registration(root, conflict) == Register(old(root), POST, path, h)
    {
      conflict := Add(POST, path, h);
    }

    /** `put(path, handler)`. */
    method Put(path: string, h: Handler) returns (conflict: Option<RouteConflict>)
      requires Valid()
      modifies this
      ensures Valid()
      ensures Registration(root, conflict) == Register(old(root), PUT, path, h)
    {
      conflict := Add(PUT, path, h);
    }

    /** `patch(path, handler)`. */
    method Patch(path: string, h: Handler) returns (conflict: Option<RouteConflict>)
      requires Valid()
      modifies this
      ensures Valid()
      ensures Registration(root, conflict) == Register(old(root), PATCH, path, h)
    {
      conflict := Add(PATCH, path, h);
    }

    /** `delete(path, handler)`. */
    method Delete(path: string, h: Handler) returns (conflict: Option<RouteConflict>)
      requires Valid()
      modifies this
      ensures Valid()
      ensures Registration(root, conflict) == Register(old(root), DELETE, path, h)
    {
      conflict := Add(DELETE, path, h);
    }
  }
}
