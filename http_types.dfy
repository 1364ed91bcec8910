/**
 * The types the router shares with the rest of the framework
 * (packages/octane/src/types/index.ts).
 */
module HttpTypes {

  /** RouteMethod: the HTTP methods a route can be registered under. */
  datatype Method = GET | POST | PUT | DELETE | PATCH | OPTIONS | HEAD

  /**
   * A route handler closure. The router never calls it; it only stores it
   * and hands it back, so the model knows a handler by its identity alone.
   */
  type Handler = nat

  /** A route middleware closure, likewise known by its identity alone. */
  type Middleware = nat

  /**
   * MatchedRoute as the router builds it: the parameters bound while
   * walking the trie and the handler of the node reached.
   */
  datatype MatchedRoute = MatchedRoute(params: map<string, string>, handler: Handler)

  /**
   * The error `#add` throws when a `:name` segment meets a node that already
   * declares a different parameter: the path being registered, the offending
   * segment and the name already in place.
   */
  datatype RouteConflict = RouteConflict(path: string, segment: string, existing: string)
  {
    /** The text of the thrown Error. */
    function Message(): (r: string)
      ensures |r| == 17 + |path| + 29 + |segment| + 30 + |existing| + 1
      ensures r[..17] == "Route conflict: \""
      ensures r[17..17 + |path|] == path
      ensures r[17 + |path|..17 + |path| + 29] == "\" has conflicting parameter \""
      ensures r[17 + |path| + 29..17 + |path| + 29 + |segment|] == segment
      ensures r[17 + |path| + 29 + |segment|..|r| - 1 - |existing|] == "\" to another paths parameter \""
      ensures r[|r| - 1 - |existing|..|r| - 1] == existing
      ensures r[|r| - 1] == '"'
    {
      "Route conflict: \"" + path + "\" has conflicting parameter \"" + segment
      + "\" to another paths parameter \"" + existing + "\""
    }
  }
}
