# Segment-trie router

This project models the routing core of the Octane HTTP framework. The same
logic appears in two places:

- `packages/octane/src/router/router.ts`;
- its older variant `packages/veloci-router/src/router/router.ts`.

The router builds one trie of `RouterNode`s per HTTP method, and it works in
two directions:

- **Registration.** A call such as `get(path, handler)` splits the path into
  its non-empty `/`-separated segments. It walks the method's trie from the
  root, creating nodes on the way, and stores the handler at the last node.
  - A segment `:name` goes to the node's single parameter child.
  - Any other segment goes to the literal child keyed by that segment.
  - A node that already declares a different parameter name makes the
    registration throw a route-conflict error.
- **Matching.** `#match(method, path)` walks the same trie.
  - For each segment it takes the literal child first, then the parameter
    child, binding the segment to the parameter's name.
  - It returns the handler and the bound parameters, or `null`.

Module by module:

- **`Paths`** (`paths.dfy`)
  - `#splitPath` as JavaScript's `split('/')` followed by `filter(Boolean)`.
  - `#getUrlParamName`, and the truthiness test that makes a bare `:` a
    literal segment.
- **`RouterNodes`** (`router_node.dfy`)
  - `RouterNode` as a record.
  - A trie as a table of such records with the root at position 0. A node
    names its children by position, and a child always sits after its
    parent.
  - The three in-place updates that `#add` makes:
    - attach a literal child;
    - attach a parameter child;
    - set the handler.
- **`SegmentTrie`** (`segment_trie.dfy`)
  - The recursive meaning of the `#add` and `#match` walks (`AddFrom`,
    `MatchFrom`).
  - The source's cursor loops (`AddRoute`, `MatchRoute`), each proved equal to
    that meaning.
  - `AddRoute` also proves that a conflict is always met before anything was
    changed, so a throwing registration leaves the trie as it was.
- **`TrieLemmas`** (`trie_lemmas.dfy`): what a registration does to a trie and
  what a match means.
  - When a registration throws, exactly.
  - Which nodes and handlers it keeps.
  - That registering twice is registering once.
  - That a request instancing a pattern reaches its handler with the expected
    bindings, and conversely that every match is such an instance.
  - That bindings only ever hold request segments, and a name declared twice
    keeps the later segment.
- **`RouteTable`** (`route_table.dfy`)
  - The router's `root` map, one trie per method.
  - `Register` (`#add`) and `Route` (`#match`) on it, and their properties
    across methods.
- **`OctaneRouter`** and **`VelociRouter`** (`octane_router.dfy`,
  `veloci_router.dfy`): the two `Router` classes.
  - The `root` field is updated in place.
  - Their methods are proved against `Register` and `Route`.
  - Octane's `get` also registers HEAD. HEAD then answers as GET does on a
    literal path, and on every path while HEAD routes come only from `get`
    (`HeadMirrorsGet`). `head` is public, so a route registered with `head`
    alone can make the two differ (`RouteExamples.HeadCanDifferFromGet`).
  - Veloci's `get` does not, so a HEAD request never matches there.
- **`RouteExamples`** (`route_examples.dfy`): registrations on concrete paths.
  - Parameter binding.
  - A literal child taking precedence over the parameter child.
  - Conflicts arising only within one method.

Handlers and middleware are opaque ids: the router stores them and hands them
back, and never calls them.

Two facts about the code shape what the router can do:

- There is one trie per method, so a registration under one method never
  conflicts with a route of another. A differently named parameter under
  another method is accepted (`RouteExamples.ConflictSameMethodOnly`).
- The router synthesises no 405 responses, `Allow` headers or OPTIONS
  answers, and has no route groups and no middleware chains.

## Model

| member | source | states |
|---|---|---|
| Paths.Split | packages/octane/src/router/router.ts:14 | `split('/')` gives at least one piece and no piece contains `/` |
| Paths.NonEmpty | packages/octane/src/router/router.ts:14 | `filter(Boolean)` keeps only non-empty pieces, each taken from the input, never more than the input has |
| Paths.SplitPath | packages/octane/src/router/router.ts:13-15 | every segment is non-empty and free of `/` |
| Paths.JoinSplit | packages/octane/src/router/router.ts:14 | joining the pieces of a split with `/` gives the string back, so the split loses nothing |
| Paths.SplitJoin | packages/octane/src/router/router.ts:14 | splitting slash-free pieces joined by `/` gives the pieces back |
| Paths.SplitSlashFree | packages/octane/src/router/router.ts:14 | a string without `/` splits into itself alone |
| Paths.SplitConcat | packages/octane/src/router/router.ts:14 | a `/` separates the pieces on its left from those on its right |
| Paths.NonEmptyConcat | packages/octane/src/router/router.ts:14 | the filter distributes over concatenation, keeping order |
| Paths.SplitPathConcat | packages/octane/src/router/router.ts:13-15 | the segments of `a/b` are those of `a` followed by those of `b` |
| Paths.ExtraSlashes | packages/octane/src/router/router.ts:13-15 | leading, trailing and doubled slashes contribute no segment |
| Paths.SplitPathOf | packages/veloci-router/src/router/router.ts:12-14 | `_splitPath` of the canonical path of non-empty slash-free segments returns exactly those segments, in order |
| Paths.GetUrlParamName | packages/octane/src/router/router.ts:17-23 | a name is returned exactly when the segment starts with `:`, and the segment is `:` followed by that name |
| Paths.ParamSegmentShape | packages/octane/src/router/router.ts:17-23 | the name a parameter segment declares is the segment after its `:` |
| Paths.Truthy | packages/octane/src/router/router.ts:35-36 | a string, `null` or `undefined` is truthy exactly when it is present and not the empty string |
| Paths.IsParamSegment | packages/octane/src/router/router.ts:34-35 | `#add` treats a segment as a parameter exactly when it is `:` followed by at least one character, so a bare `:` is literal |
| Paths.ParamNameRoundTrip | packages/octane/src/router/router.ts:17-23 | `:name` yields `name`, and is a parameter segment exactly when `name` is non-empty (a bare `:` is literal) |
| RouterNodes.NewNode | packages/octane/src/router/routerNode.ts:10-16 | a new node declares no parameter, has no parameter child, no literal children, no handler and no middleware |
| RouterNodes.FreshTrieWellFormed | packages/octane/src/router/routerNode.ts:10-16 | a fresh node has no parameter, no children, no handler and no middleware, so a trie of one fresh root is well formed |
| RouterNodes.AttachLiteral | packages/octane/src/router/router.ts:45-49 | adds a fresh node as literal child `segment` of node `c`, changes no other node and keeps the trie well formed |
| RouterNodes.AttachParam | packages/octane/src/router/router.ts:40-44 | sets `paramName` and `paramChild` of node `c` together to a fresh node, changes no other node and keeps the trie well formed |
| RouterNodes.SetHandler | packages/octane/src/router/router.ts:52-55 | sets the handler of node `c` only and keeps the trie well formed |
| SegmentTrie.AddFrom | packages/octane/src/router/router.ts:25-56 | a successful walk yields a well-formed trie that only grows and leaves the nodes before the start node unchanged |
| SegmentTrie.AddRoute | packages/octane/src/router/router.ts:30-55 | the `for` loop of `#add` computes the walk's result; on a conflict it returns the error and the trie unchanged |
| SegmentTrie.MatchFrom | packages/octane/src/router/router.ts:65-79 | a match returns a handler stored at some node at or after the start and keeps every parameter bound before; at the end of the path it matches exactly when the node has a handler; a segment with neither a literal child nor a usable parameter child gives `null` (what a match means is `TrieLemmas.MatchIsInstance`) |
| SegmentTrie.MatchRoute | packages/octane/src/router/router.ts:59-83 | the cursor loop of `#match` returns exactly the recursive match from the root with no parameters bound |
| TrieLemmas.FreshNodeNeverMatches | packages/octane/src/router/routerNode.ts:10-16 | a fresh node, having no handler and no children, is never a match target for any request |
| TrieLemmas.AddFromFreshNodeSucceeds | packages/octane/src/router/router.ts:26-28 | registering from a freshly created root never conflicts |
| TrieLemmas.AddEffect | packages/octane/src/router/router.ts:33-55 | a successful `#add` keeps every node and edge, makes the pattern lead to a node holding the new handler, and changes no other handler |
| TrieLemmas.FollowPersists | packages/octane/src/router/router.ts:40-44 | an earlier pattern still leads to the same node after the trie is extended, since a same-named parameter reuses the parameter child |
| TrieLemmas.ConflictIff | packages/octane/src/router/router.ts:35-39 | `#add` throws exactly when some `:name` segment reaches a node declaring another name; the error names the path, that segment and the name in place |
| TrieLemmas.AddTwice | packages/octane/src/router/router.ts:52-55 | registering a pattern again replaces only the handler: the trie equals the one the second registration alone gives |
| TrieLemmas.BindingsFromSegments | packages/veloci-router/src/router/router.ts:64-75 | a match binds only names whose values are request segments (or were bound before), at most one new key per segment |
| TrieLemmas.InstanceMatches | packages/octane/src/router/router.ts:62-79 | a request instancing a pattern (literals equal, no literal child shadowing a parameter) reaches the pattern's node with each `:name` bound to its segment |
| TrieLemmas.MatchIsInstance | packages/octane/src/router/router.ts:62-79 | conversely, every successful match is an instance of the literal-first pattern the walk follows: that pattern leads to a node with a handler, and the match is that handler with the pattern's `Bind` parameters |
| TrieLemmas.LiteralInstance | packages/octane/src/router/router.ts:62-79 | a literal pattern present in the trie matches itself and binds nothing |
| TrieLemmas.BindKeeps | packages/octane/src/router/router.ts:69-70 | a binding survives every later position that does not declare the same name |
| TrieLemmas.BindLastDeclaration | packages/octane/src/router/router.ts:69-70 | for every pattern, a name is bound to the request segment at the last position that declares it, whatever earlier positions bound |
| TrieLemmas.BindDomain | packages/octane/src/router/router.ts:69-70 | a match binds exactly the names bound before and the names the pattern declares |
| TrieLemmas.RepeatedNameKeepsLater | packages/octane/src/router/router.ts:69-70 | example: `/:id/x/:id` against `/1/x/2` binds `id` to `2` and nothing else |
| RouteTable.Register | packages/octane/src/router/router.ts:25-56 | a conflict is possible only under a method that already has a trie and leaves the router unchanged; success changes only that method's trie |
| RouteTable.Route | packages/octane/src/router/router.ts:62-79 | a method with no trie never matches; a match returns a handler stored in that method's trie |
| RouteTable.RouteIsInstance | packages/octane/src/router/router.ts:58-88 | every answer of `#match` is the handler of a pattern the request's segments instance in the method's trie, with that pattern's parameter bindings |
| RouteTable.RegisterThenRoute | packages/octane/src/router/router.ts:25-88 | after a registration, every instance of the pattern matches the new handler with its parameters bound |
| RouteTable.RegisterThenRouteLiteral | packages/octane/src/router/router.ts:25-88 | after registering a path without parameters, matching that path under that method gives the handler and empty params |
| RouteTable.ConflictOnlyWithinMethod | packages/octane/src/router/router.ts:26-39 | a registration throws exactly when its own method's trie has a parameter-name clash on the path; other methods never take part |
| RouteTable.RegisterTwice | packages/octane/src/router/router.ts:52-55 | registering the same method and path twice equals registering it once with the second handler |
| RouteTable.RegisterLeavesOtherMethods | packages/octane/src/router/router.ts:25-31 | a registration leaves every other method's answers unchanged |
| RouteTable.RegisterKeepsRoutes | packages/octane/src/router/router.ts:40-44 | an earlier route still leads to its node, whose handler is kept unless the new path leads there too |
| OctaneRouter.RegisterGet | packages/octane/src/router/router.ts:119-122 | `get` registers under GET, then under HEAD unless GET threw; the router stays well formed |
| OctaneRouter.GetServesHead | packages/octane/src/router/router.ts:119-122 | after `get` on a literal path, both GET and HEAD match it with the handler and empty params |
| OctaneRouter.GetKeepsHeadMirrored | packages/octane/src/router/router.ts:119-142 | `get` keeps HEAD's trie equal to GET's, and a throwing `get` changes nothing |
| OctaneRouter.HeadAnswersAsGet | packages/octane/src/router/router.test.ts:112-120 | while HEAD's trie mirrors GET's, every HEAD request matches exactly what the GET request matches |
| OctaneRouter.Router.constructor | packages/octane/src/router/router.ts:9-11 | a new router has no trie for any method |
| OctaneRouter.Router.Add | packages/octane/src/router/router.ts:25-56 | the new `root` and the thrown conflict are exactly `Register` of the old `root` |
| OctaneRouter.Router.Match | packages/octane/src/router/router.ts:58-88 | the result is exactly `Route` on the current `root` |
| OctaneRouter.Router.Get | packages/octane/src/router/router.ts:119-122 | the new `root` and the conflict are `RegisterGet` of the old `root` |
| OctaneRouter.Router.Post | packages/octane/src/router/router.ts:124-126 | registers under POST |
| OctaneRouter.Router.Put | packages/octane/src/router/router.ts:128-130 | registers under PUT |
| OctaneRouter.Router.Patch | packages/octane/src/router/router.ts:132-134 | registers under PATCH |
| OctaneRouter.Router.Delete | packages/octane/src/router/router.ts:136-138 | registers under DELETE |
| OctaneRouter.Router.Head | packages/octane/src/router/router.ts:140-142 | registers under HEAD |
| OctaneRouter.Router.Options | packages/octane/src/router/router.ts:144-146 | registers under OPTIONS |
| VelociRouter.HeadNeverMatches | packages/veloci-router/src/router/router.ts:115-117 | registering through the public calls never gives HEAD or OPTIONS a trie, so HEAD and OPTIONS requests never match |
| VelociRouter.Router.constructor | packages/veloci-router/src/router/router.ts:8-10 | a new router has no trie for any method |
| VelociRouter.Router.Add | packages/veloci-router/src/router/router.ts:24-55 | the new `root` and the thrown conflict are exactly `Register` of the old `root` |
| VelociRouter.Router.Match | packages/veloci-router/src/router/router.ts:57-87 | the result is exactly `Route` on the current `root`, and `null` for HEAD and OPTIONS |
| VelociRouter.Router.Get | packages/veloci-router/src/router/router.ts:115-117 | registers under GET only |
| VelociRouter.Router.Post | packages/veloci-router/src/router/router.ts:119-121 | registers under POST |
| VelociRouter.Router.Put | packages/veloci-router/src/router/router.ts:123-125 | registers under PUT |
| VelociRouter.Router.Patch | packages/veloci-router/src/router/router.ts:127-129 | registers under PATCH |
| VelociRouter.Router.Delete | packages/veloci-router/src/router/router.ts:131-133 | registers under DELETE |
| RouteExamples.UsersPath | packages/octane/src/router/router.ts:13-15 | `/users/:id`, `/users/42` and `/users` split into the expected segments |
| RouteExamples.UserById | packages/octane/src/router/router.ts:58-88 | after `/users/:id`, `/users/42` matches with `{ id: '42' }` and `/users` does not match |
| RouteExamples.LiteralBeforeParameter | packages/octane/src/router/router.ts:66-71 | with `/users/:id` and `/users/me` registered, `/users/me` reaches the literal route and `/users/42` still binds `id` |
| RouteExamples.ConflictSameMethodOnly | packages/octane/src/router/router.ts:36-39 | `/users/:name` after `/users/:id` throws under GET with the exact error fields and changes nothing; under PUT it is accepted |
| RouteExamples.HeadCanDifferFromGet | packages/octane/src/router/router.ts:119-142 | after `head('/users/me', h3)` then `get('/users/:id', h)`, GET `/users/me` reaches `h` binding `id`, while HEAD `/users/me` reaches `h3` with no parameters |
| HttpTypes.RouteConflict.Message | packages/octane/src/router/router.ts:37-39 | the message is `Route conflict: "` then the path, the segment and the existing name at fixed offsets between fixed texts |

## Left out

- HTTP serving is not modelled:
  - `#createServer` and `_createServer`;
  - `listen`, `sendNotFound`, `sendError`;
  - URL parsing, the response decorators and logging.
  These are I/O and foreign libraries.
- Handlers and middleware are ids and are never executed. Middleware lists stay empty because the router never writes to them.
- Route groups, per-route middleware config, 405 and `Allow` responses, and OPTIONS synthesis are absent from the router code, so they are not modelled.
- The `try`/`catch` in `#match` is not modelled: nothing in the modelled walk can throw.
- A `path` that is not a string (`path?.split` on `undefined`) cannot occur here: the path is typed `string`.
- Parameter bindings are a `map`, so the insertion order of the JavaScript `params` object is not kept.
- A parameter named `__proto__` behaves like any other name here. Assigning it on a plain JavaScript object does not create an own property, and the model does not reproduce that.
- Node identity is not modelled: a trie is a table of node records, and an in-place field update replaces a record. Nothing else holds a reference to a node, so no aliasing is lost.
- The error is a `RouteConflict` value, not a thrown `Error`. `HttpTypes.RouteConflict.Message` builds the message text.
- VelociRouter.Router.Add: requires one of the methods the public calls pass (GET, POST, PUT, PATCH, DELETE). `_add` is private, and this keeps HEAD and OPTIONS without a trie.
