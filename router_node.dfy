/**
 * RouterNode (packages/octane/src/router/routerNode.ts) and the per-method
 * trie the router builds out of such nodes.
 *
 * A trie is a table of nodes, the root at position 0; a node refers to its
 * children by position. Nodes are only ever appended, and a child always
 * sits after its parent, so the table is a tree.
 */
module RouterNodes {
  import opened Wrappers
  import opened HttpTypes
  import opened Paths

  /**
   * A trie node: literal children by exact segment, at most one parameter
   * (its name and the child it leads to), the handler bound at this path,
   * and a middleware list the router never fills.
   */
  datatype RouterNode = RouterNode(
    paramName: Option<string>,
    paramChild: Option<nat>,
    children: map<string, nat>,
    handler: Option<Handler>,
    middleware: seq<Middleware>)

  /** `new RouterNode()`: no parameter, no children, no handler, no middleware. */
  function NewNode(): (n: RouterNode)
    ensures n.paramName.None? && n.paramChild.None? && |n.children| == 0
    ensures n.handler.None? && |n.middleware| == 0
  {
    RouterNode(None, None, map[], None, [])
  }

  /** One method's trie: a node table with the root at position 0. */
  type Trie = seq<RouterNode>

  /** The trie `#add` starts for a method it has not seen: a fresh root alone. */
  function NewTrie(): Trie
  {
    [NewNode()]
  }

  /**
   * What every node of a trie the router built satisfies: `paramName` and
   * `paramChild` are set together and the name is never empty; no literal
   * child is keyed by a parameter segment; every link points forward into
   * the table; the middleware list is still empty.
   */
  ghost predicate NodeWellFormed(t: Trie, i: nat)
    requires i < |t|
  {
    var n := t[i];
    && (n.paramName.Some? <==> n.paramChild.Some?)
    && (n.paramName.Some? ==> n.paramName.value != "" && i < n.paramChild.value < |t|)
    && (forall k :: k in n.children ==> !IsParamSegment(k) && i < n.children[k] < |t|)
    && n.middleware == []
  }

  ghost predicate WellFormed(t: Trie)
  {
    |t| > 0 && forall i :: 0 <= i < |t| ==> NodeWellFormed(t, i)
  }

  lemma FreshTrieWellFormed()
    ensures WellFormed(NewTrie())
  {
    assert NodeWellFormed(NewTrie(), 0);
  }

  /** `node.children.set(segment, new RouterNode())` on node `c`. */
  function AttachLiteral(t: Trie, c: nat, segment: string): (t': Trie)
    requires WellFormed(t) && c < |t| && !IsParamSegment(segment)
    ensures WellFormed(t') && |t'| == |t| + 1 && t'[|t|] == NewNode()
    ensures t'[c] == t[c].(children := t[c].children[segment := |t|])
    ensures forall i :: 0 <= i < |t| && i != c ==> t'[i] == t[i]
  {
    var t' := t[c := t[c].(children := t[c].children[segment := |t|])] + [NewNode()];
    assert WellFormed(t') by {
      forall i | 0 <= i < |t'|
        ensures NodeWellFormed(t', i)
      {
        if i < |t| {
          assert NodeWellFormed(t, i);
        }
      }
    }
    t'
  }

  /** `node.paramName = name; node.paramChild = new RouterNode()` on node `c`. */
  function AttachParam(t: Trie, c: nat, name: string): (t': Trie)
    requires WellFormed(t) && c < |t| && name != ""
    ensures WellFormed(t') && |t'| == |t| + 1 && t'[|t|] == NewNode()
    ensures t'[c] == t[c].(paramName := Some(name), paramChild := Some(|t|))
    ensures forall i :: 0 <= i < |t| && i != c ==> t'[i] == t[i]
  {
    var t' := t[c := t[c].(paramName := Some(name), paramChild := Some(|t|))] + [NewNode()];
    assert WellFormed(t') by {
      forall i | 0 <= i < |t'|
        ensures NodeWellFormed(t', i)
      {
        if i < |t| {
          assert NodeWellFormed(t, i);
        }
      }
    }
    t'
  }

  /** `node.handler = handler` on node `c`. */
  function SetHandler(t: Trie, c: nat, h: Handler): (t': Trie)
    requires WellFormed(t) && c < |t|
    ensures WellFormed(t') && |t'| == |t|
    ensures t'[c] == t[c].(handler := Some(h))
    ensures forall i :: 0 <= i < |t| && i != c ==> t'[i] == t[i]
  {
    var t' := t[c := t[c].(handler := Some(h))];
    assert WellFormed(t') by {
      forall i | 0 <= i < |t'|
        ensures NodeWellFormed(t', i)
      {
        assert NodeWellFormed(t, i);
      }
    }
    t'
  }
}
