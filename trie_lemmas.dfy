/**
 * What registering a route and matching a path promise, proved about the
 * recursive definitions of `#add` and `#match` in SegmentTrie.
 */
module TrieLemmas {
  import opened Wrappers
  import opened HttpTypes
  import opened Paths
  import opened RouterNodes
  import opened SegmentTrie

  /** `t'` keeps every node of `t` with its links: nodes and edges are only added. */
  ghost predicate Extends(t: Trie, t': Trie)
  {
    |t| <= |t'| && forall i :: 0 <= i < |t| ==> NodeExtends(t[i], t'[i])
  }

  /** `b` has every literal child of `a`, and `a`'s parameter if it has one. */
  ghost predicate NodeExtends(a: RouterNode, b: RouterNode)
  {
    && (forall k :: k in a.children ==> k in b.children && b.children[k] == a.children[k])
    && (a.paramName.Some? ==> b.paramName == a.paramName && b.paramChild == a.paramChild)
    && b.middleware == a.middleware
  }

  /**
   * Every node of `t'` but `k` has the handler it had in `t`, and a node
   * `t` did not have has none.
   */
  ghost predicate HandlersKept(t: Trie, t': Trie, k: nat)
    requires |t| <= |t'|
  {
    forall i :: 0 <= i < |t'| && i != k ==> t'[i].handler == (if i < |t| then t[i].handler else None)
  }

  /** No segment of the pattern declares a parameter. */
  ghost predicate IsLiteral(pattern: seq<string>)
  {
    forall i :: 0 <= i < |pattern| ==> !IsParamSegment(pattern[i])
  }

  lemma ExtendsTransitive(t1: Trie, t2: Trie, t3: Trie)
    requires Extends(t1, t2) && Extends(t2, t3)
    ensures Extends(t1, t3)
  {
    forall i | 0 <= i < |t1|
      ensures NodeExtends(t1[i], t3[i])
    {
      assert NodeExtends(t1[i], t2[i]) && NodeExtends(t2[i], t3[i]);
    }
  }

  /**
   * A fresh node is never a match target: it has no handler, and no child of
   * either kind to go on to.
   */
  lemma FreshNodeNeverMatches(t: Trie, c: nat, segments: seq<string>, params: map<string, string>)
    requires WellFormed(t) && c < |t| && t[c] == NewNode()
    ensures MatchFrom(t, c, segments, params) == None
  {
  }

  /** From a fresh node, `#add` never meets a conflict: everything below is created. */
  lemma {:induction false} AddFromFreshNodeSucceeds(t: Trie, c: nat, path: string, segments: seq<string>, h: Handler)
    requires WellFormed(t) && c < |t| && t[c] == NewNode()
    ensures AddFrom(t, c, path, segments, h).Ok?
    decreases |segments|
  {
    if segments != [] {
      var segment := segments[0];
      if IsParamSegment(segment) {
        assert segment == ":" + GetUrlParamName(segment).value;
        AddFromFreshNodeSucceeds(AttachParam(t, c, segment[1..]), |t|, path, segments[1..], h);
      } else {
        AddFromFreshNodeSucceeds(AttachLiteral(t, c, segment), |t|, path, segments[1..], h);
      }
    }
  }

  /**
   * The effect of a successful `#add`: the trie only grows, the pattern now
   * leads to a node holding the new handler, and that node is the only one
   * whose handler changed (nodes created on the way have none).
   */
  lemma {:induction false} AddEffect(t: Trie, c: nat, path: string, segments: seq<string>, h: Handler)
    requires WellFormed(t) && c < |t|
    requires AddFrom(t, c, path, segments, h).Ok?
    ensures var t' := AddFrom(t, c, path, segments, h).value;
      && Extends(t, t')
      && Follow(t', c, segments).Some?
      && t'[Follow(t', c, segments).value].handler == Some(h)
      && HandlersKept(t, t', Follow(t', c, segments).value)
    decreases |segments|
  {
    var t' := AddFrom(t, c, path, segments, h).value;
    assert NodeWellFormed(t, c);
    if segments == [] {
      assert forall i :: 0 <= i < |t| ==> NodeExtends(t[i], t'[i]);
    } else {
      var segment, rest := segments[0], segments[1..];
      var paramName := GetUrlParamName(segment);
      var t1, n;
      if Truthy(paramName) {
        assert segment[1..] == paramName.value;
        if !Truthy(t[c].paramName) || t[c].paramChild.None? {
          t1, n := AttachParam(t, c, segment[1..]), |t|;
        } else {
          t1, n := t, t[c].paramChild.value;
        }
      } else if segment !in t[c].children {
        t1, n := AttachLiteral(t, c, segment), |t|;
      } else {
        t1, n := t, t[c].children[segment];
      }
      assert t' == AddFrom(t1, n, path, rest, h).value;
      assert Extends(t, t1) by {
        forall i | 0 <= i < |t|
          ensures NodeExtends(t[i], t1[i])
        {
          assert NodeWellFormed(t, i);
        }
      }
      AddEffect(t1, n, path, rest, h);
      ExtendsTransitive(t, t1, t');
      assert c < n;
      assert t'[c] == t1[c] by {
        assert t'[..n][c] == t1[..n][c];
      }
      assert Follow(t', c, segments) == Follow(t', n, rest);
    }
  }

  /** The pattern's edges in `t` are still there in any extension of it. */
  lemma {:induction false} FollowPersists(t: Trie, t': Trie, c: nat, pattern: seq<string>)
    requires WellFormed(t) && WellFormed(t') && c < |t| && Extends(t, t')
    requires Follow(t, c, pattern).Some?
    ensures Follow(t', c, pattern) == Follow(t, c, pattern)
    decreases |pattern|
  {
    assert NodeWellFormed(t, c) && NodeExtends(t[c], t'[c]);
    if pattern != [] {
      if IsParamSegment(pattern[0]) {
        FollowPersists(t, t', t[c].paramChild.value, pattern[1..]);
      } else {
        FollowPersists(t, t', t[c].children[pattern[0]], pattern[1..]);
      }
    }
  }

  /**
   * Position `i` of the pattern conflicts with the trie: it declares a
   * parameter, and the node its prefix leads to already declares another.
   */
  ghost predicate ConflictAt(t: Trie, c: nat, pattern: seq<string>, i: nat)
    requires WellFormed(t) && c < |t|
  {
    && i < |pattern|
    && IsParamSegment(pattern[i])
    && Follow(t, c, pattern[..i]).Some?
    && t[Follow(t, c, pattern[..i]).value].paramName.Some?
    && t[Follow(t, c, pattern[..i]).value].paramName != Some(pattern[i][1..])
  }

  /** The first step of a pattern: where its first segment leads from `c`. */
  lemma {:induction false} FollowPrefixStep(t: Trie, c: nat, pattern: seq<string>, i: nat, n: nat)
    requires WellFormed(t) && c < |t| && 0 < i <= |pattern|
    requires Follow(t, c, [pattern[0]]) == Some(n)
    ensures n < |t| && Follow(t, c, pattern[..i]) == Follow(t, n, pattern[1..][..i - 1])
  {
    assert pattern[..i][0] == pattern[0];
    assert pattern[..i][1..] == pattern[1..][..i - 1];
    assert [pattern[0]][1..] == [];
  }

  /**
   * `#add` throws exactly when some `:name` segment of the path meets a node,
   * reached by the segments before it, that already declares another name;
   * the error names the path, that segment and the name in place. So
   * whether a path conflicts depends only on the trie as it stands.
   */
  lemma {:induction false} ConflictIff(t: Trie, c: nat, path: string, segments: seq<string>, h: Handler)
    requires WellFormed(t) && c < |t|
    ensures AddFrom(t, c, path, segments, h).Err? <==> exists i: nat :: ConflictAt(t, c, segments, i)
    ensures AddFrom(t, c, path, segments, h).Err? ==>
      exists i: nat :: ConflictAt(t, c, segments, i) &&
        AddFrom(t, c, path, segments, h).error
          == RouteConflict(path, segments[i], t[Follow(t, c, segments[..i]).value].paramName.value)
    decreases |segments|
  {
    assert NodeWellFormed(t, c);
    if segments == [] {
      assert forall i: nat :: !ConflictAt(t, c, segments, i);
    } else {
      var segment, rest := segments[0], segments[1..];
      var paramName := GetUrlParamName(segment);
      var r := AddFrom(t, c, path, segments, h);
      assert segments[..0] == [];
      if Truthy(paramName) && Truthy(t[c].paramName) && t[c].paramName.value != paramName.value {
        assert segment[1..] == paramName.value;
        assert ConflictAt(t, c, segments, 0);
      } else {
        // The first segment raises no conflict: the walk goes on from `n`.
        var t1, n, created;
        if Truthy(paramName) {
          assert segment[1..] == paramName.value;
          if !Truthy(t[c].paramName) || t[c].paramChild.None? {
            t1, n, created := AttachParam(t, c, segment[1..]), |t|, true;
          } else {
            t1, n, created := t, t[c].paramChild.value, false;
          }
        } else if segment !in t[c].children {
          t1, n, created := AttachLiteral(t, c, segment), |t|, true;
        } else {
          t1, n, created := t, t[c].children[segment], false;
        }
        assert r == AddFrom(t1, n, path, rest, h);
        assert !ConflictAt(t, c, segments, 0);
        if created {
          AddFromFreshNodeSucceeds(t1, n, path, rest, h);
          assert Follow(t, c, [segment]).None?;
        } else {
          assert t1 == t;
          assert Follow(t, c, [segment]) == Some(n);
          ConflictIff(t, n, path, rest, h);
          forall i: nat | ConflictAt(t, c, segments, i)
            ensures ConflictAt(t, n, rest, i - 1)
          {
            FollowPrefixStep(t, c, segments, i, n);
            assert rest[i - 1] == segments[i];
          }
          if r.Err? {
            var j: nat :| ConflictAt(t, n, rest, j) &&
              r.error == RouteConflict(path, rest[j], t[Follow(t, n, rest[..j]).value].paramName.value);
            FollowPrefixStep(t, c, segments, j + 1, n);
            assert rest[j] == segments[j + 1];
            assert ConflictAt(t, c, segments, j + 1);
          }
        }
      }
    }
  }

  /**
   * Registering the same pattern again replaces the handler and creates
   * nothing: the trie is the one the second registration alone would give.
   */
  lemma {:induction false} AddTwice(t: Trie, c: nat, path: string, segments: seq<string>, h1: Handler, h2: Handler)
    requires WellFormed(t) && c < |t|
    requires AddFrom(t, c, path, segments, h1).Ok?
    ensures AddFrom(AddFrom(t, c, path, segments, h1).value, c, path, segments, h2)
      == AddFrom(t, c, path, segments, h2)
    decreases |segments|
  {
    var t1 := AddFrom(t, c, path, segments, h1).value;
    assert NodeWellFormed(t, c);
    if segments == [] {
      assert SetHandler(t1, c, h2) == SetHandler(t, c, h2);
    } else {
      var segment, rest := segments[0], segments[1..];
      var paramName := GetUrlParamName(segment);
      var u, n;
      if Truthy(paramName) {
        assert segment[1..] == paramName.value;
        if !Truthy(t[c].paramName) || t[c].paramChild.None? {
          u, n := AttachParam(t, c, segment[1..]), |t|;
        } else {
          u, n := t, t[c].paramChild.value;
        }
      } else if segment !in t[c].children {
        u, n := AttachLiteral(t, c, segment), |t|;
      } else {
        u, n := t, t[c].children[segment];
      }
      assert t1 == AddFrom(u, n, path, rest, h1).value;
      assert AddFrom(t, c, path, segments, h2) == AddFrom(u, n, path, rest, h2);
      assert c < n;
      assert t1[c] == u[c] by {
        assert t1[..n][c] == u[..n][c];
      }
      assert NodeWellFormed(t1, c);
      assert AddFrom(t1, c, path, segments, h2) == AddFrom(t1, n, path, rest, h2);
      AddTwice(u, n, path, rest, h1, h2);
    }
  }

  /**
   * A match binds nothing but request segments: every parameter it returns
   * was either bound before or holds one of the segments, and it binds at
   * most one name per segment.
   */
  lemma {:induction false} BindingsFromSegments(t: Trie, c: nat, segments: seq<string>, params: map<string, string>)
    requires WellFormed(t) && c < |t|
    requires MatchFrom(t, c, segments, params).Some?
    ensures var m := MatchFrom(t, c, segments, params).value;
      && params.Keys <= m.params.Keys
      && |m.params.Keys| <= |params.Keys| + |segments|
      && forall k :: k in m.params ==> (k in params && m.params[k] == params[k]) || m.params[k] in segments
    decreases |segments|
  {
    assert NodeWellFormed(t, c);
    if segments != [] {
      var segment, rest := segments[0], segments[1..];
      if segment in t[c].children {
        BindingsFromSegments(t, t[c].children[segment], rest, params);
      } else {
        var params' := params[t[c].paramName.value := segment];
        assert params'.Keys == params.Keys + {t[c].paramName.value};
        BindingsFromSegments(t, t[c].paramChild.value, rest, params');
      }
      var m := MatchFrom(t, c, segments, params).value;
      forall k | k in m.params && m.params[k] in rest
        ensures m.params[k] in segments
      {
      }
    }
  }

  /**
   * `request` is an instance of `pattern` in the trie: it has the pattern's
   * literal segments, and at each `:name` position the node declares `name`
   * and has no literal child keyed by the request's segment (a literal child
   * would win over the parameter).
   */
  ghost predicate Instance(t: Trie, c: nat, pattern: seq<string>, request: seq<string>)
    requires WellFormed(t) && c < |t|
    decreases |pattern|
  {
    assert NodeWellFormed(t, c);
    && |pattern| == |request|
    && (pattern != [] ==>
          if IsParamSegment(pattern[0]) then
            && t[c].paramName == Some(pattern[0][1..])
            && request[0] !in t[c].children
            && Instance(t, t[c].paramChild.value, pattern[1..], request[1..])
          else
            && request[0] == pattern[0]
            && pattern[0] in t[c].children
            && Instance(t, t[c].children[pattern[0]], pattern[1..], request[1..]))
  }

  /**
   * The parameters a request binds against a pattern, in order, so that a
   * name declared twice keeps the later segment.
   */
  function Bind(pattern: seq<string>, request: seq<string>, params: map<string, string>): map<string, string>
    requires |pattern| == |request|
    decreases |pattern|
  {
    if pattern == [] then params
    else
      Bind(pattern[1..], request[1..],
           if IsParamSegment(pattern[0]) then params[pattern[0][1..] := request[0]] else params)
  }

  /**
   * The meaning of a match: a request that instances a pattern reaches the
   * node the pattern leads to and binds each `:name` to its segment.
   */
  lemma {:induction false} InstanceMatches(t: Trie, c: nat, pattern: seq<string>, request: seq<string>,
                                           params: map<string, string>)
    requires WellFormed(t) && c < |t| && Instance(t, c, pattern, request)
    ensures Follow(t, c, pattern).Some?
    ensures var n := Follow(t, c, pattern).value;
      MatchFrom(t, c, request, params)
        == if t[n].handler.Some? then Some(MatchedRoute(Bind(pattern, request, params), t[n].handler.value))
           else None
    decreases |pattern|
  {
    assert NodeWellFormed(t, c);
    if pattern != [] {
      if IsParamSegment(pattern[0]) {
        var name := pattern[0][1..];
        InstanceMatches(t, t[c].paramChild.value, pattern[1..], request[1..], params[name := request[0]]);
      } else {
        InstanceMatches(t, t[c].children[pattern[0]], pattern[1..], request[1..], params);
      }
    }
  }

  /**
   * The pattern the literal-first walk of `#match` follows for a request:
   * the segment itself where a literal child keys it, else the declaring
   * `:name` of the parameter child, and it stops where neither exists.
   */
  function WalkPattern(t: Trie, c: nat, request: seq<string>): (p: seq<string>)
    requires WellFormed(t) && c < |t|
    ensures |p| <= |request|
    decreases |request|
  {
    assert NodeWellFormed(t, c);
    if request == [] then []
    else if request[0] in t[c].children then
      [request[0]] + WalkPattern(t, t[c].children[request[0]], request[1..])
    else if Truthy(t[c].paramName) && t[c].paramChild.Some? then
      [":" + t[c].paramName.value] + WalkPattern(t, t[c].paramChild.value, request[1..])
    else []
  }

  /**
   * The converse of `InstanceMatches`: a request that matches instances the
   * pattern its walk follows, and the match is that pattern's handler with
   * the `Bind` parameters. So a match never binds or answers anything a
   * registered pattern does not account for.
   */
  lemma {:induction false} MatchIsInstance(t: Trie, c: nat, request: seq<string>, params: map<string, string>)
    requires WellFormed(t) && c < |t| && MatchFrom(t, c, request, params).Some?
    ensures var p := WalkPattern(t, c, request);
      && Instance(t, c, p, request)
      && Follow(t, c, p).Some?
      && t[Follow(t, c, p).value].handler.Some?
      && MatchFrom(t, c, request, params)
         == Some(MatchedRoute(Bind(p, request, params), t[Follow(t, c, p).value].handler.value))
    decreases |request|
  {
    assert NodeWellFormed(t, c);
    var p := WalkPattern(t, c, request);
    if request != [] {
      if request[0] in t[c].children {
        var n := t[c].children[request[0]];
        assert !IsParamSegment(request[0]);
        MatchIsInstance(t, n, request[1..], params);
        assert p[0] == request[0] && p[1..] == WalkPattern(t, n, request[1..]);
      } else {
        var name := t[c].paramName.value;
        var n := t[c].paramChild.value;
        assert (":" + name)[1..] == name;
        MatchIsInstance(t, n, request[1..], params[name := request[0]]);
        assert p[0] == ":" + name && p[1..] == WalkPattern(t, n, request[1..]);
      }
    }
  }

  /** A literal pattern the trie holds is an instance of itself and binds nothing. */
  lemma {:induction false} LiteralInstance(t: Trie, c: nat, pattern: seq<string>, params: map<string, string>)
    requires WellFormed(t) && c < |t| && IsLiteral(pattern) && Follow(t, c, pattern).Some?
    ensures Instance(t, c, pattern, pattern)
    ensures Bind(pattern, pattern, params) == params
    decreases |pattern|
  {
    if pattern != [] {
      assert !IsParamSegment(pattern[0]);
      assert IsLiteral(pattern[1..]) by {
        forall i | 0 <= i < |pattern[1..]|
          ensures !IsParamSegment(pattern[1..][i])
        {
          assert pattern[1..][i] == pattern[i + 1];
        }
      }
      LiteralInstance(t, t[c].children[pattern[0]], pattern[1..], params);
    }
  }

  /**
   * A binding survives the positions that do not declare its name again: they
   * either bind another name or bind nothing.
   */
  lemma {:induction false} BindKeeps(pattern: seq<string>, request: seq<string>, params: map<string, string>,
                                     name: string)
    requires |pattern| == |request| && name in params
    requires forall k :: 0 <= k < |pattern| && IsParamSegment(pattern[k]) ==> pattern[k][1..] != name
    ensures name in Bind(pattern, request, params)
    ensures Bind(pattern, request, params)[name] == params[name]
    decreases |pattern|
  {
    if pattern != [] {
      var next := if IsParamSegment(pattern[0]) then params[pattern[0][1..] := request[0]] else params;
      assert IsParamSegment(pattern[0]) ==> pattern[0][1..] != name;
      forall k | 0 <= k < |pattern[1..]| && IsParamSegment(pattern[1..][k])
        ensures pattern[1..][k][1..] != name
      {
        assert pattern[1..][k] == pattern[k + 1];
      }
      BindKeeps(pattern[1..], request[1..], next, name);
    }
  }

  /**
   * A name is bound to the segment at the last position that declares it:
   * when `pattern[j]` is `:name` and no later position declares `name`, the
   * match binds `name` to `request[j]`, whatever earlier positions bound.
   */
  lemma {:induction false} BindLastDeclaration(pattern: seq<string>, request: seq<string>,
                                               params: map<string, string>, j: nat)
    requires |pattern| == |request| && j < |pattern| && IsParamSegment(pattern[j])
    requires forall k :: j < k < |pattern| && IsParamSegment(pattern[k]) ==> pattern[k][1..] != pattern[j][1..]
    ensures pattern[j][1..] in Bind(pattern, request, params)
    ensures Bind(pattern, request, params)[pattern[j][1..]] == request[j]
    decreases |pattern|
  {
    var next := if IsParamSegment(pattern[0]) then params[pattern[0][1..] := request[0]] else params;
    if j == 0 {
      forall k | 0 <= k < |pattern[1..]| && IsParamSegment(pattern[1..][k])
        ensures pattern[1..][k][1..] != pattern[0][1..]
      {
        assert pattern[1..][k] == pattern[k + 1];
      }
      BindKeeps(pattern[1..], request[1..], next, pattern[0][1..]);
    } else {
      assert pattern[1..][j - 1] == pattern[j];
      forall k | j - 1 < k < |pattern[1..]| && IsParamSegment(pattern[1..][k])
        ensures pattern[1..][k][1..] != pattern[1..][j - 1][1..]
      {
        assert pattern[1..][k] == pattern[k + 1];
      }
      BindLastDeclaration(pattern[1..], request[1..], next, j - 1);
    }
  }

  /** The parameter names a pattern declares. */
  function Declared(pattern: seq<string>): set<string>
    decreases |pattern|
  {
    if pattern == [] then {}
    else (if IsParamSegment(pattern[0]) then {pattern[0][1..]} else {}) + Declared(pattern[1..])
  }

  /** A match binds exactly the names bound before and those the pattern declares. */
  lemma {:induction false} BindDomain(pattern: seq<string>, request: seq<string>, params: map<string, string>)
    requires |pattern| == |request|
    ensures Bind(pattern, request, params).Keys == params.Keys + Declared(pattern)
    decreases |pattern|
  {
    if pattern != [] {
      var next := if IsParamSegment(pattern[0]) then params[pattern[0][1..] := request[0]] else params;
      BindDomain(pattern[1..], request[1..], next);
    }
  }

  /** For example, `/:id/x/:id` against `/1/x/2` binds `id` to `2` alone. */
  lemma RepeatedNameKeepsLater()
    ensures Bind([":id", "x", ":id"], ["1", "x", "2"], map[]) == map["id" := "2"]
  {
    var pattern, request := [":id", "x", ":id"], ["1", "x", "2"];
    ParamNameRoundTrip("id");
    assert ":id"[1..] == "id";
    BindLastDeclaration(pattern, request, map[], 2);
    BindDomain(pattern, request, map[]);
    assert !IsParamSegment("x");
    assert pattern[1..] == ["x", ":id"] && pattern[1..][1..] == [":id"];
    assert Declared(pattern) == {"id"};
  }
}
