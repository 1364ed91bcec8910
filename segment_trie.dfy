/**
 * The segment-trie walk of `#add` / `_add` and `#match` / `_match`, the same
 * in both routers: a recursive definition of each from a given node, and the
 * cursor loops of the source proved equal to it.
 */
module SegmentTrie {
  import opened Wrappers
  import opened HttpTypes
  import opened Paths
  import opened RouterNodes

  /**
   * What `#add` does from node `c` on: walk or create one node per segment,
   * then bind the handler at the last node. A `:name` segment goes to the
   * parameter child, created on first use; a node that already declares a
   * different name makes it throw (Err). Other segments, a bare `:`
   * included, go to the literal child keyed by the segment.
   */
  function AddFrom(t: Trie, c: nat, path: string, segments: seq<string>, h: Handler)
    : (r: Result<Trie, RouteConflict>)
    requires WellFormed(t) && c < |t|
    ensures r.Ok? ==> WellFormed(r.value) && |t| <= |r.value| && r.value[..c] == t[..c]
    decreases |segments|
  {
    assert NodeWellFormed(t, c);
    if segments == [] then
      Ok(SetHandler(t, c, h))
    else
      var segment := segments[0];
      var paramName := GetUrlParamName(segment);
      if Truthy(paramName) then
        if Truthy(t[c].paramName) && t[c].paramName.value != paramName.value then
          Err(RouteConflict(path, segment, t[c].paramName.value))
        else if !Truthy(t[c].paramName) || t[c].paramChild.None? then
          AddFrom(AttachParam(t, c, segment[1..]), |t|, path, segments[1..], h)
        else
          AddFrom(t, t[c].paramChild.value, path, segments[1..], h)
      else if segment !in t[c].children then
        AddFrom(AttachLiteral(t, c, segment), |t|, path, segments[1..], h)
      else
        AddFrom(t, t[c].children[segment], path, segments[1..], h)
  }

  /**
   * What `#match` does from node `c` on, with the parameters bound so far:
   * the literal child first, else the parameter child (binding the segment
   * to the parameter's name), else no match; at the end, the node's handler
   * if it has one.
   */
  function MatchFrom(t: Trie, c: nat, segments: seq<string>, params: map<string, string>)
    : (r: Option<MatchedRoute>)
    requires WellFormed(t) && c < |t|
    ensures r.Some? ==> exists n :: c <= n < |t| && t[n].handler == Some(r.value.handler)
    ensures r.Some? ==> params.Keys <= r.value.params.Keys
    ensures segments == [] ==> (r.Some? <==> t[c].handler.Some?)
    ensures (segments != [] && segments[0] !in t[c].children
             && !(Truthy(t[c].paramName) && t[c].paramChild.Some?)) ==> r.None?
    decreases |segments|
  {
    assert NodeWellFormed(t, c);
    if segments == [] then
      if t[c].handler.Some? then Some(MatchedRoute(params, t[c].handler.value)) else None
    else if segments[0] in t[c].children then
      MatchFrom(t, t[c].children[segments[0]], segments[1..], params)
    else if Truthy(t[c].paramName) && t[c].paramChild.Some? then
      MatchFrom(t, t[c].paramChild.value, segments[1..], params[t[c].paramName.value := segments[0]])
    else
      None
  }

  /**
   * Where a route pattern leads in the trie as it stands, creating nothing:
   * a `:name` segment follows the parameter child of a node that declares
   * `name`, any other segment follows the literal child it keys.
   */
  function Follow(t: Trie, c: nat, pattern: seq<string>): (r: Option<nat>)
    requires WellFormed(t) && c < |t|
    ensures r.Some? ==> c <= r.value < |t|
    decreases |pattern|
  {
    assert NodeWellFormed(t, c);
    if pattern == [] then Some(c)
    else if IsParamSegment(pattern[0]) then
      if t[c].paramName == Some(pattern[0][1..]) then
        Follow(t, t[c].paramChild.value, pattern[1..])
      else None
    else if pattern[0] in t[c].children then
      Follow(t, t[c].children[pattern[0]], pattern[1..])
    else None
  }

  /**
   * The loop of `#add` over one method's trie. It returns the trie as it
   * stands when the loop finishes or throws, and the conflict thrown, if
   * any. A conflict is always met before anything was changed.
   */
  method AddRoute(t0: Trie, path: string, h: Handler) returns (t: Trie, conflict: Option<RouteConflict>)
    requires WellFormed(t0)
    ensures WellFormed(t)
    ensures conflict.None? ==> AddFrom(t0, 0, path, SplitPath(path), h) == Ok(t)
    ensures conflict.Some? ==> AddFrom(t0, 0, path, SplitPath(path), h) == Err(conflict.value) && t == t0
  {
    var segments := SplitPath(path);
    t := t0;
    var node: nat := 0;
    for i := 0 to |segments|
      invariant WellFormed(t) && node < |t|
      invariant AddFrom(t, node, path, segments[i..], h) == AddFrom(t0, 0, path, segments, h)
      invariant t == t0 || (|t0| <= node && t[node] == NewNode())
    {
      assert NodeWellFormed(t, node);
      assert segments[i..][1..] == segments[i + 1..];
      var segment := segments[i];
      var paramName := GetUrlParamName(segment);
      if Truthy(paramName) {
        if Truthy(t[node].paramName) && t[node].paramName.value != paramName.value {
          return t, Some(RouteConflict(path, segment, t[node].paramName.value));
        } else if !Truthy(t[node].paramName) || t[node].paramChild.None? {
          t := AttachParam(t, node, segment[1..]);
        }
        node := t[node].paramChild.value;
      } else {
        if segment !in t[node].children {
          t := AttachLiteral(t, node, segment);
        }
        node := t[node].children[segment];
      }
    }
    t := SetHandler(t, node, h);
    conflict := None;
  }

  /**
   * The loop of `#match` over one method's trie: a cursor that follows the
   * literal child, else the parameter child while filling `params`, and
   * stops when a segment has neither.
   */
  method MatchRoute(t: Trie, path: string) returns (r: Option<MatchedRoute>)
    requires WellFormed(t)
    ensures r == MatchFrom(t, 0, SplitPath(path), map[])
  {
    var segments := SplitPath(path);
    var params: map<string, string> := map[];
    var node: Option<nat> := Some(0);
    for i := 0 to |segments|
      invariant node.Some? && node.value < |t|
      invariant MatchFrom(t, node.value, segments[i..], params) == MatchFrom(t, 0, segments, map[])
    {
      var n := node.value;
      assert NodeWellFormed(t, n);
      assert segments[i..][1..] == segments[i + 1..];
      var segment := segments[i];
      if segment in t[n].children {
        node := Some(t[n].children[segment]);
      } else if Truthy(t[n].paramName) && t[n].paramChild.Some? {
        params := params[t[n].paramName.value := segment];
        node := t[n].paramChild;
      } else {
        node := None;
        break;
      }
    }
    if node.None? || t[node.value].handler.None? {
      return None;
    }
    r := Some(MatchedRoute(params, t[node.value].handler.value));
  }
}
