/**
 * Worked registrations on concrete paths: parameter binding, the literal
 * child's precedence over the parameter child, and where conflicts arise.
 */
module RouteExamples {
  import opened Wrappers
  import opened HttpTypes
  import opened Paths
  import opened RouterNodes
  import opened SegmentTrie
  import opened RouteTable
  import opened OctaneRouter

  lemma UsersPath()
    ensures SplitPath("/users/:id") == ["users", ":id"]
    ensures SplitPath("/users/42") == ["users", "42"]
    ensures SplitPath("/users") == ["users"]
  {
    assert PathOf(["users", ":id"]) == "/users/:id";
    assert PathOf(["users", "42"]) == "/users/42";
    assert PathOf(["users"]) == "/users";
    SplitPathOf(["users", ":id"]);
    SplitPathOf(["users", "42"]);
    SplitPathOf(["users"]);
  }

  /** The trie `get('/users/:id', h)` builds from a fresh root. */
  function UsersTrie(h: Handler): (t: Trie)
    ensures WellFormed(t) && |t| == 3
  {
    FreshTrieWellFormed();
    SetHandler(AttachParam(AttachLiteral(NewTrie(), 0, "users"), 1, "id"), 2, h)
  }

  /** The walk of `#add` over `users`, `:id` from a fresh root, whatever the path text. */
  lemma AddUsersSegments(path: string, h: Handler)
    ensures AddFrom(NewTrie(), 0, path, ["users", ":id"], h) == Ok(UsersTrie(h))
  {
    FreshTrieWellFormed();
    var t1 := AttachLiteral(NewTrie(), 0, "users");
    assert GetUrlParamName("users") == None;
    assert ["users", ":id"][1..] == [":id"];
    assert AddFrom(NewTrie(), 0, path, ["users", ":id"], h) == AddFrom(t1, 1, path, [":id"], h);
    assert GetUrlParamName(":id") == Some("id");
    assert AddFrom(t1, 1, path, [":id"], h) == AddFrom(AttachParam(t1, 1, "id"), 2, path, [], h);
  }

  lemma AddUsersPattern(h: Handler)
    ensures Register(map[], GET, "/users/:id", h) == Registration(map[GET := UsersTrie(h)], None)
  {
    UsersPath();
    AddUsersSegments("/users/:id", h);
  }

  lemma MatchUsers(h: Handler)
    ensures MatchFrom(UsersTrie(h), 0, ["users", "42"], map[]) == Some(MatchedRoute(map["id" := "42"], h))
    ensures MatchFrom(UsersTrie(h), 0, ["users"], map[]) == None
  {
    var t := UsersTrie(h);
    assert t[0].children == map["users" := 1];
    assert t[1].children == map[] && t[1].paramName == Some("id") && t[1].paramChild == Some(2);
    assert t[2].handler == Some(h) && t[1].handler == None;
    assert MatchFrom(t, 0, ["users", "42"], map[]) == MatchFrom(t, 1, ["42"], map[]);
    assert MatchFrom(t, 1, ["42"], map[]) == MatchFrom(t, 2, [], map["id" := "42"]);
    assert MatchFrom(t, 0, ["users"], map[]) == MatchFrom(t, 1, [], map[]);
  }

  /**
   * `get('/users/:id', h)` on a new router: `/users/42` matches with
   * `{ id: '42' }`, while `/users` has no handler.
   */
  lemma UserById(h: Handler)
    ensures var r := Register(map[], GET, "/users/:id", h);
      && r.conflict.None?
      && Route(r.roots, GET, "/users/42") == Some(MatchedRoute(map["id" := "42"], h))
      && Route(r.roots, GET, "/users") == None
  {
    UsersPath();
    AddUsersPattern(h);
    MatchUsers(h);
  }

  lemma MorePaths()
    ensures SplitPath("/users/me") == ["users", "me"]
    ensures SplitPath("/users/:name") == ["users", ":name"]
  {
    assert PathOf(["users", "me"]) == "/users/me";
    assert PathOf(["users", ":name"]) == "/users/:name";
    SplitPathOf(["users", "me"]);
    SplitPathOf(["users", ":name"]);
  }

  /** The trie after `get('/users/:id', h)` then `get('/users/me', h2)`. */
  function UsersMeTrie(h: Handler, h2: Handler): (t: Trie)
    ensures WellFormed(t) && |t| == 4
  {
    SetHandler(AttachLiteral(UsersTrie(h), 1, "me"), 3, h2)
  }

  lemma AddMeSegments(path: string, h: Handler, h2: Handler)
    ensures AddFrom(UsersTrie(h), 0, path, ["users", "me"], h2) == Ok(UsersMeTrie(h, h2))
  {
    var t := UsersTrie(h);
    assert t[0].children == map["users" := 1] && t[1].children == map[];
    assert GetUrlParamName("users") == None && GetUrlParamName("me") == None;
    assert ["users", "me"][1..] == ["me"];
    assert AddFrom(t, 0, path, ["users", "me"], h2) == AddFrom(t, 1, path, ["me"], h2);
    assert AddFrom(t, 1, path, ["me"], h2) == AddFrom(AttachLiteral(t, 1, "me"), 3, path, [], h2);
  }

  lemma AddMePattern(h: Handler, h2: Handler)
    ensures Register(map[GET := UsersTrie(h)], GET, "/users/me", h2)
      == Registration(map[GET := UsersMeTrie(h, h2)], None)
  {
    MorePaths();
    AddMeSegments("/users/me", h, h2);
  }

  lemma MatchUsersMe(h: Handler, h2: Handler)
    ensures MatchFrom(UsersMeTrie(h, h2), 0, ["users", "me"], map[]) == Some(MatchedRoute(map[], h2))
    ensures MatchFrom(UsersMeTrie(h, h2), 0, ["users", "42"], map[]) == Some(MatchedRoute(map["id" := "42"], h))
  {
    var t := UsersMeTrie(h, h2);
    assert t[0].children == map["users" := 1];
    assert t[1].children == map["me" := 3] && t[1].paramName == Some("id") && t[1].paramChild == Some(2);
    assert t[2].handler == Some(h) && t[3].handler == Some(h2);
    assert MatchFrom(t, 0, ["users", "me"], map[]) == MatchFrom(t, 1, ["me"], map[]);
    assert MatchFrom(t, 1, ["me"], map[]) == MatchFrom(t, 3, [], map[]);
    assert MatchFrom(t, 0, ["users", "42"], map[]) == MatchFrom(t, 1, ["42"], map[]);
    assert MatchFrom(t, 1, ["42"], map[]) == MatchFrom(t, 2, [], map["id" := "42"]);
  }

  /**
   * A literal segment wins over a parameter at the same node: with
   * `/users/:id` and `/users/me` registered, `/users/me` reaches the literal
   * route and binds nothing, while `/users/42` still binds `id`.
   */
  lemma LiteralBeforeParameter(h: Handler, h2: Handler)
    ensures var r1 := Register(map[], GET, "/users/:id", h);
      var r2 := Register(r1.roots, GET, "/users/me", h2);
      && r2.conflict.None?
      && Route(r2.roots, GET, "/users/me") == Some(MatchedRoute(map[], h2))
      && Route(r2.roots, GET, "/users/42") == Some(MatchedRoute(map["id" := "42"], h))
  {
    UsersPath();
    MorePaths();
    AddUsersPattern(h);
    AddMePattern(h, h2);
    MatchUsersMe(h, h2);
  }

  lemma AddNameSegments(path: string, h: Handler, h2: Handler)
    ensures AddFrom(UsersTrie(h), 0, path, ["users", ":name"], h2) == Err(RouteConflict(path, ":name", "id"))
  {
    var t := UsersTrie(h);
    assert t[0].children == map["users" := 1] && t[1].paramName == Some("id");
    assert GetUrlParamName("users") == None && GetUrlParamName(":name") == Some("name");
    assert ["users", ":name"][1..] == [":name"];
    assert AddFrom(t, 0, path, ["users", ":name"], h2) == AddFrom(t, 1, path, [":name"], h2);
  }

  /**
   * `/users/:name` after `/users/:id` throws under the same method, naming
   * the path, the new segment and the name in place, and changes nothing;
   * under another method it is accepted, since each method has its own trie.
   */
  lemma ConflictSameMethodOnly(h: Handler, h2: Handler)
    ensures var r1 := Register(map[], GET, "/users/:id", h);
      && Register(r1.roots, GET, "/users/:name", h2)
        == Registration(r1.roots, Some(RouteConflict("/users/:name", ":name", "id")))
      && Register(r1.roots, PUT, "/users/:name", h2).conflict.None?
  {
    UsersPath();
    MorePaths();
    AddUsersPattern(h);
    AddNameSegments("/users/:name", h, h2);
    var r1 := Register(map[], GET, "/users/:id", h);
    assert PUT !in r1.roots;
  }

  /** The trie `head('/users/me', h3)` builds from a fresh root. */
  function MeTrie(h3: Handler): (t: Trie)
    ensures WellFormed(t) && |t| == 3
  {
    FreshTrieWellFormed();
    SetHandler(AttachLiteral(AttachLiteral(NewTrie(), 0, "users"), 1, "me"), 2, h3)
  }

  /** `MeTrie` after `/users/:id` is registered on it as well. */
  function MeIdTrie(h3: Handler, h: Handler): (t: Trie)
    ensures WellFormed(t) && |t| == 4
  {
    SetHandler(AttachParam(MeTrie(h3), 1, "id"), 3, h)
  }

  lemma AddMeFresh(path: string, h3: Handler)
    ensures AddFrom(NewTrie(), 0, path, ["users", "me"], h3) == Ok(MeTrie(h3))
  {
    FreshTrieWellFormed();
    var t1 := AttachLiteral(NewTrie(), 0, "users");
    assert GetUrlParamName("users") == None && GetUrlParamName("me") == None;
    assert ["users", "me"][1..] == ["me"];
    assert AddFrom(NewTrie(), 0, path, ["users", "me"], h3) == AddFrom(t1, 1, path, ["me"], h3);
    assert AddFrom(t1, 1, path, ["me"], h3) == AddFrom(AttachLiteral(t1, 1, "me"), 2, path, [], h3);
  }

  lemma AddIdOverMe(path: string, h3: Handler, h: Handler)
    ensures AddFrom(MeTrie(h3), 0, path, ["users", ":id"], h) == Ok(MeIdTrie(h3, h))
  {
    var t := MeTrie(h3);
    assert t[0].children == map["users" := 1] && t[1].paramName == None;
    assert GetUrlParamName("users") == None && GetUrlParamName(":id") == Some("id");
    assert ["users", ":id"][1..] == [":id"];
    assert AddFrom(t, 0, path, ["users", ":id"], h) == AddFrom(t, 1, path, [":id"], h);
    assert AddFrom(t, 1, path, [":id"], h) == AddFrom(AttachParam(t, 1, "id"), 3, path, [], h);
  }

  lemma MatchMeBothWays(h3: Handler, h: Handler)
    ensures MatchFrom(UsersTrie(h), 0, ["users", "me"], map[]) == Some(MatchedRoute(map["id" := "me"], h))
    ensures MatchFrom(MeIdTrie(h3, h), 0, ["users", "me"], map[]) == Some(MatchedRoute(map[], h3))
  {
    var g := UsersTrie(h);
    assert g[0].children == map["users" := 1];
    assert g[1].children == map[] && g[1].paramName == Some("id") && g[1].paramChild == Some(2);
    assert g[2].handler == Some(h);
    assert MatchFrom(g, 0, ["users", "me"], map[]) == MatchFrom(g, 1, ["me"], map[]);
    assert MatchFrom(g, 1, ["me"], map[]) == MatchFrom(g, 2, [], map["id" := "me"]);
    var t := MeIdTrie(h3, h);
    assert t[0].children == map["users" := 1] && t[1].children == map["me" := 2];
    assert t[2].handler == Some(h3);
    assert MatchFrom(t, 0, ["users", "me"], map[]) == MatchFrom(t, 1, ["me"], map[]);
    assert MatchFrom(t, 1, ["me"], map[]) == MatchFrom(t, 2, [], map[]);
  }

  /**
   * `head` is public, so HEAD's trie need not mirror GET's: after
   * `head('/users/me', h3)` and then `get('/users/:id', h)`, GET `/users/me`
   * binds `id` and reaches `h`, while HEAD `/users/me` takes the literal
   * route to `h3`.
   */
  lemma HeadCanDifferFromGet(h3: Handler, h: Handler)
    ensures var r0 := Register(map[], HEAD, "/users/me", h3);
      var r1 := RegisterGet(r0.roots, "/users/:id", h);
      && r0.conflict.None? && r1.conflict.None?
      && Route(r1.roots, GET, "/users/me") == Some(MatchedRoute(map["id" := "me"], h))
      && Route(r1.roots, HEAD, "/users/me") == Some(MatchedRoute(map[], h3))
  {
    UsersPath();
    MorePaths();
    AddMeFresh("/users/me", h3);
    AddUsersSegments("/users/:id", h);
    AddIdOverMe("/users/:id", h3, h);
    MatchMeBothWays(h3, h);
  }
}
