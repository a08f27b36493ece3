# webmux routing core in Dafny

A model of the request multiplexer of the Go package `webmux`. It covers
the path segmenter (`shiftPath`, `cleanPath`), the method sets
(`Methods`, `AnyMethod`, `Add`, `Has`, `String`), the routing tree with
registration (`HandleMethods`, `node.addChild`, `muxEntry.setHandler`),
lookup (`lookup`, `Lookup`), the `MuxMatch` accessors and the choice of
handler in `ServeHTTPErr`.

The files:

- `wrappers.dfy`: the `Option` datatype.
- `path.dfy` (module `Paths`): `ShiftPath` and `CleanPath` on strings,
  and `Segments`, the sequence of heads that repeated shifting takes off
  a path. `JoinSegments` is its inverse, and both round trips are
  proved.
- `method.dfy` (module `MethodSets`): `MethodSet` as a duplicate-free
  `seq<string>` in insertion order. `Methods` keeps its loop and is
  proved equal to `Distinct`, a specification by repeated `Add`.
  `String` is `strings.Join` with `", "`.
- `routes.dfy` (module `Routes`): the tree as an abstract trie, with no
  heap. A node is named by its key path from the root. A tree is the
  set of those key paths (its shape) plus a map from key paths to
  entries. It defines:
  - `PatternKeys` and `PatternParams`: the key path and the
    parameter names that registration derives from a pattern;
  - `Walk`: what the lookup loop does.

  The module then proves the walk's properties: the walk is
  deterministic, it returns the deepest entry on its route, when it gets
  stuck, and what it captures.
- `mux.dfy` (module `Mux`): the classes `MuxEntry`, `Node`, `MuxMatch`
  and `ServeMux` over the heap, with the loops of `mux.go`.
  - `ServeMux` carries ghost maps from key paths to its nodes, their
    children and their entries. `Valid()` ties these maps to the
    pointers.
  - `HandleMethods` is specified against `PatternKeys`, `PatternParams`
    and `BoundFrom`. `BoundFrom` is the handler table and methods cache
    after `setHandler` has run for each method, stopping at the first
    method that panics.
  - `LookupInto` (the source's `lookup`) is specified against
    `Routes.Walk` on the tree's shape and entries.
  - `ServeHTTPErr` is specified against `SelectHandler`.
- `scenarios.dfy` (module `Scenarios`): registrations and requests run
  through the model for any segment texts. They show the behaviour of
  the code where its tests or comments say otherwise.

The model follows the code wherever the code, its doc comments and its
tests disagree:

- **A placeholder matches exactly one segment.** When no registered
  node continues the walk past the placeholder, a request with more
  segments than the pattern is not found. The test table at
  `mux_test.go:44-48` expects "/images/*img" to capture "123/456"; the
  model proves that this request finds nothing (`NoGreedyWildcard`).
  When deeper nodes do continue the walk, the request can instead end on
  a shallower entry, which then holds more values than it has names
  (`ShallowerEntry`).
- **A trailing slash is one more, empty, segment.** A wildcard child
  captures it as "". The test at `mux_test.go:127-131` expects no match
  for "/users/" against "/users/*any"; the model proves that the
  analogous request matches with the value "" (`TrailingSlash`). The
  test at `mux_test.go:103-107` registers "/home" and "home/:page" and
  expects "/home/" to match "/home". In the code the wildcard child of
  "home" takes the empty segment, and its entry is the deepest one
  passed (mux.go:187-189), so "home/:page" is returned with "" captured
  (`WalkDeepest`).
- **GET adds HEAD to the methods cache only, not to the handlers.** The
  comment of `setHandler` says otherwise. A HEAD request is still
  served by the GET handler, because `ServeHTTPErr` falls back to it
  (`GetAnswersHead`).
- **A new entry's cache starts as [OPTIONS].**
- **An entry keeps the pattern and parameter names of its first
  registration.** A later pattern with the same key path binds its
  methods on that entry.
- **A request segment that is literally "*" follows the wildcard child
  as an exact child and captures nothing.** The match then has fewer
  values than parameter names (`LiteralStar`). So `MuxMatch.Param`
  requires the value it reads to exist. Where the Go code would index
  out of range, the model demands that of its caller instead.

The six files are verified together, for example with
`dafny verify --resource-limit 2000000 --verification-time-limit 0 wrappers.dfy path.dfy method.dfy routes.dfy mux.dfy scenarios.dfy`.

The tests call `webmux.New`, which `mux.go` does not define; the
constructor is `NewMux`.

## Model

| member | source | states |
|---|---|---|
| Paths.IndexByte | path.go:10 | the index of the first '/' (or any c), -1 exactly when c does not occur |
| Paths.ShiftPath | path.go:9-17 | after the dropped first character, head and tail re-join to the path; head holds no '/', tail is empty or starts with '/', and tail is shorter than the path |
| Paths.CleanPath | path.go:20-32 | the result starts with '/', is p or "/" + p, and equals p exactly when p already starts with '/' |
| Paths.Segments | path.go:9-17 | the heads repeated shifting takes off a path contain no '/', and a non-empty path has at least one |
| Paths.CleanEmptyIsRoot | path.go:21-23 | the empty path cleans to "/" |
| Paths.CleanPathIdempotent | path.go:20-32 | cleaning twice is cleaning once |
| Paths.ShiftPathSplits | path.go:9-17 | for a rooted path, "/" + head + tail is the path: shifting loses nothing |
| Paths.SplitUnique | path.go:9-17 | a path has exactly one split into a '/'-free head and a tail that is empty or starts with '/' |
| Paths.ShiftPathOfJoin | path.go:9-17 | shifting "/" + s + rest, with s '/'-free and rest rooted or empty, gives back s and rest |
| Paths.JoinSegmentsOfSegments | path.go:9-17 | joining a rooted path's segments with '/' gives the path back |
| Paths.SegmentsOfJoinSegments | path.go:9-17 | the segments of joined '/'-free segments are those segments |
| Paths.ShiftRoot | path.go:12-13 | "/" shifts to an empty head and tail: the root path is one empty segment |
| Paths.TrailingSlashSegment | path.go:9-17 | "/home/" has the segments "home" and "" |
| MethodSets.IndexOf | mux.go:337-341 | the first position at which a listed name occurs |
| MethodSets.Has | method.go:56-58 | true exactly when some position of the set holds the method |
| MethodSets.Add | method.go:47-53 | the result has the token and holds exactly the old tokens and the token; a set that has the token is returned as it is, otherwise the token is appended at the end; a duplicate-free set stays duplicate-free |
| MethodSets.AddIdempotent | method.go:47-53 | adding a token twice is adding it once |
| MethodSets.Distinct | method.go:27-37 | the deduplicated list holds exactly the tokens of the input |
| MethodSets.Methods | method.go:27-37 | the loop builds the duplicate-free list of the input's tokens, every input token kept, in order of first occurrence |
| MethodSets.DistinctNoDup | method.go:25-37 | Methods never lists a token twice |
| MethodSets.DistinctOrder | method.go:27-37 | tokens appear in the order of their first occurrences in the input |
| MethodSets.DistinctOfNoDup | method.go:27-37 | a duplicate-free input is left as it is |
| MethodSets.AnyMethod | method.go:39-44 | nine distinct tokens, exactly the methods listed at method.go:10-20, among them GET, HEAD and OPTIONS |
| MethodSets.String | method.go:61-63 | the empty set renders as "" and a single method as itself |
| MethodSets.Join | method.go:62 | no parts join to "", and a join starts with its first part |
| MethodSets.JoinLast | method.go:62 | a join ends with its last part |
| MethodSets.JoinAppend | method.go:62 | joining one more part appends the separator and the part |
| MethodSets.StringAdd | method.go:61-63 | adding a new method to a non-empty set appends ", " and the method to its rendering |
| Routes.IsPlaceholder | mux.go:102 | a placeholder segment is non-empty, and "*" itself is one |
| Routes.KeyOf | mux.go:102-105 | a segment is keyed "*" exactly when it is a placeholder, and by itself otherwise |
| Routes.Keys | mux.go:102-105 | one key per segment: a placeholder's key is "*", any other segment is its own key |
| Routes.RegistrationStep | mux.go:99-116 | one pass of the registration loop: the head shifted off the rest of the pattern is its next segment, the walked keys grow by its key, and the names grow by its name exactly when it is a placeholder |
| Routes.ProgressStep | mux.go:99-116 | the loop invariant of registration (keys and names of the segments behind, segments of the path ahead) is kept by one pass |
| Routes.ParamsCount | mux.go:102-105 | a pattern has exactly one parameter name per wildcard key |
| Routes.PatternShape | mux.go:95-116 | a pattern has one key per segment of its cleaned path, at least one, and one parameter name per wildcard key, so no more names than keys |
| Routes.CountWildBound | mux.go:102-105 | at most every key of a key path is the wildcard |
| Routes.ParamsNamed | mux.go:102-103 | the name recorded for a placeholder is its text after the first character, at the position given by the wildcard keys before it |
| Routes.LiteralKeys | mux.go:102-105 | a pattern without placeholders is keyed by its own segments and records no names |
| Routes.WalkValues | mux.go:167-190 | the walk only appends to the values it was given, at most one per segment, and once it has passed an entry, reaching the end means an entry is found |
| Routes.LookupValues | mux.go:161-199 | lookup captures at most one value per segment of the cleaned request path |
| Routes.RouteUnique | mux.go:167-190 | the walk is deterministic: a request has at most one route through a tree |
| Routes.WalkNoEntry | mux.go:187-190 | along a route with no entry, the walk keeps the entry it had seen and captures exactly the fallback segments |
| Routes.WalkDeepest | mux.go:161-199 | along a route, lookup returns the entry of the deepest node that carries one, with every segment taken by a wildcard captured in order |
| Routes.TrailIsRoute | mux.go:167-182 | the keys the walk takes form a route, and when they stop short the next segment has neither an exact nor a wildcard child |
| Routes.WalkStuckIff | mux.go:180-182 | the walk fails exactly when some segment has no child to follow, and then lookup returns nil whatever entries it passed |
| Routes.CapturesCount | mux.go:172-177 | for segments other than "*", one value is captured per wildcard key on the route |
| Routes.ExactRoute | mux.go:36-37 | when every prefix of a path is a node, the walk follows the exact children, even where wildcard children exist |
| Routes.RegisteredPathFound | mux.go:161-199 | a request whose segments are a key path carrying an entry finds that entry with nothing captured, whatever else is registered |
| Routes.CapturesMatchParams | mux.go:102-105 | a route along a pattern's own key path, for segments none of which is "*", captures exactly one value per parameter name |
| Routes.TrailFound | mux.go:161-199 | a request whose walk follows a child for every segment and ends on a node with an entry finds that entry, with the captures of its route |
| Routes.LiteralPatternFound | mux.go:28 | a registered literal pattern is found by the request equal to it |
| Mux.CacheAdd | mux.go:288-292 | the cache after binding a method is the old cache, followed by the method if it was absent, then by HEAD if the method is GET and HEAD was absent; so it holds exactly the old methods, the method and, for GET, HEAD, and stays duplicate-free |
| Mux.BindAll | mux.go:130-132 | after binding methods to a handler, the table holds the old methods and the new ones; each new one maps to the handler, and the others keep their handlers |
| Mux.FirstConflict | mux.go:280-284 | the methods before the returned index are unbound and not repeated, and the method at it is bound already or repeats one before it: where setHandler panics |
| Mux.HandlerIn | mux.go:362 | a bound method gives the handler the table binds to it, and an unbound method gives nil |
| Mux.SelectHandler | mux.go:216-230 | a handler is served exactly when the request method has one, or the request is HEAD and GET has one, and then it is that handler; 204 with the methods cache as Allow exactly for OPTIONS without a handler; otherwise not found |
| Mux.MuxEntry.constructor | mux.go:120-127 | a new entry has the pattern and names given, no handlers and the cache [OPTIONS] |
| Mux.MuxEntry.SetHandler | mux.go:275-293 | panics naming the method and pattern exactly when the method is bound, changing nothing; otherwise binds it and adds it to the cache, with HEAD too for GET; the cache stays duplicate-free and lists OPTIONS and every bound method |
| Mux.Node.constructor | mux.go:110 | a new node has no children and no entry |
| Mux.Node.AddChild | mux.go:254-260 | the child is set under the key, the other children and the entry are unchanged |
| Mux.MuxMatch.constructor | mux.go:156 | a new match has no entry and no values |
| Mux.MuxMatch.Reset | mux.go:304-309 | the match has no entry and no values |
| Mux.MuxMatch.Pattern | mux.go:312-318 | "" without an entry, else the entry's raw pattern |
| Mux.MuxMatch.Params | mux.go:322-328 | no names without an entry, else the entry's names |
| Mux.MuxMatch.Param | mux.go:331-344 | "" without an entry or when no parameter has the name; otherwise the value at the position of the first parameter with that name |
| Mux.MuxMatch.Methods | mux.go:347-353 | the empty set without an entry, else the entry's methods cache |
| Mux.MuxMatch.Handler | mux.go:357-363 | nil without an entry or without a handler for the method, else that handler |
| Mux.ServeMux.constructor | mux.go:55-65 | a new multiplexer is a lone root: no other node and no entry |
| Mux.ServeMux.Descend | mux.go:107-114 | the child under the key becomes the node at the extended key path: the existing child if there was one, else a new node |
| Mux.ServeMux.AddNewChild | mux.go:109-113 | a missing child is created empty and added under the key, and the tree stays well formed |
| Mux.ServeMux.Advance | mux.go:100-115 | one pass of the registration loop: the path gets shorter, the walk descends to the node at the key path extended by the segment's key, an existing child is reused and a missing one is new, and the loop invariant is kept |
| Mux.ServeMux.WalkPattern | mux.go:95-116 | the registration loop ends at the node of the pattern's key path with its parameter names; the tree grows by exactly the prefixes of that key path; existing nodes and entries stay where they were, and every node added is newly allocated |
| Mux.ServeMux.SetEntry | mux.go:127 | the entry is set on the node at the key path; the tree, the children and the other nodes' entries are unchanged |
| Mux.ServeMux.Install | mux.go:120-127 | a fitting entry set on a node that had none is added to the entry map at the node's key path, and the tree stays valid |
| Mux.ServeMux.AttachEntry | mux.go:120-127 | a new entry with the pattern, the names and the cache [OPTIONS] is set on a node that had none |
| Mux.ServeMux.EnsureEntry | mux.go:118-128 | the node's existing entry is kept; if there is none, a new one is created with the pattern and names |
| Mux.ServeMux.BindMethods | mux.go:130-132 | the binding loop leaves the entry as BoundFrom states: the methods before the first conflict are bound and cached, and a conflict is reported as its panic |
| Mux.ServeMux.Locate | mux.go:95-128 | the tree grows by the prefixes of the pattern's key path; the entry there is the old one if any, else a new one with the pattern and names; no existing entry changes; every node added is newly allocated |
| Mux.ServeMux.Bind | mux.go:130-132 | the binding loop on an entry of the tree binds as BoundFrom states and keeps the tree valid |
| Mux.ServeMux.Register | mux.go:95-132 | the tree grows by the key path's prefixes; the entry at the key path is the old or a new one, bound as BoundFrom states; every other entry is unchanged; every node added is newly allocated |
| Mux.ServeMux.HandleMethods | mux.go:83-133 | panics for an empty method set, an empty pattern or a nil handler, in that order, changing nothing; otherwise the tree grows by the prefixes of the pattern's key path; an existing entry there keeps its pattern and names, while a new one gets the pattern's; the methods are bound until the first conflict; no other entry changes; the tree stays valid; every node and entry added is newly allocated, so a further registration on the same multiplexer can be framed |
| Mux.ServeMux.NoRootEntry | mux.go:95-128 | registration never sets an entry on the root: every pattern has at least one key |
| Mux.ServeMux.LookupParams | mux.go:161-199 | a request whose walk follows a child for every segment, none of them "*", and ends on an entry's node finds that entry with one value per parameter name, so every name has a value |
| Mux.ServeMux.LookupInto | mux.go:161-199 | the values and the result are those of the lookup walk over the tree's shape and entries: found exactly when the walk reached the end having passed an entry, and then the match carries the deepest one; values are appended even on failure |
| Mux.ServeMux.Lookup | mux.go:155-159 | nil exactly when the walk finds no entry, else a new match with the entry found and the captured values |
| Mux.ServeMux.ServeHTTPErr | mux.go:203-235 | not found when lookup fails; otherwise the outcome SelectHandler chooses for the request method on the entry found, and a served handler sees a match with that entry and the captured values |
| Scenarios.PlaceholderPattern | mux.go:99-116 | the pattern "/a/:x" is keyed a, then "*", and records the name x |
| Scenarios.PlaceholderMidPattern | mux.go:99-116 | the pattern "/a/:x/b" is keyed a, "*", b |
| Scenarios.LiteralPattern | mux.go:99-116 | a one-segment literal pattern is keyed by itself and records no names |
| Scenarios.OneSegmentWalk | mux.go:167-182 | a wildcard child with no children takes one segment only: a request with a further segment is not found |
| Scenarios.StuckBelowWildcard | mux.go:170-182 | below a wildcard child without a child for the next segment, the walk gets stuck |
| Scenarios.OneSegmentAfter | mux.go:161-199 | after registering only "/a/:x", the request "/a/x/y" finds nothing |
| Scenarios.PlaceholderWalk | mux.go:170-177 | a segment without an exact child goes to the wildcard child and is captured, and the walk ends on its entry |
| Scenarios.ExactWalk | mux.go:170 | segments that are exact children are followed and capture nothing |
| Scenarios.ShallowerEntryWalk | mux.go:187-194 | with an entry at a and none at its wildcard child, "/a/x" returns the entry at a with x captured |
| Scenarios.RegisterOnce | mux.go:83-133 | a new multiplexer with one registration has exactly the pattern's key prefixes as nodes and an entry at the key path with the pattern and its names, bound as BoundFrom states from no handlers and the cache [OPTIONS] |
| Scenarios.PlaceholderAfter | mux.go:161-199 | after registering "/a/:x", the request "/a/v" finds that entry and captures v |
| Scenarios.LiteralStarAfter | mux.go:170-177 | after registering "/a/:x", the request "/a/*" finds that entry and captures nothing |
| Scenarios.LiteralAfter | mux.go:161-199 | in any tree that holds the key path of the literal "/a" with an entry there, such as the tree after registering "/a", the request "/a" finds that entry with nothing captured |
| Scenarios.ShallowerAfter | mux.go:187-194 | after registering "/a" and then "/a/:x/b", the request "/a/v" returns the entry of "/a" with v captured |
| Scenarios.ShallowerFacts | mux.go:99-116 | after registering "/a" and "/a/:x/b", a and its wildcard child are nodes, a has no other child x and carries the entry of "/a", and the wildcard child has none |
| Scenarios.ShallowerEntry | mux.go:187-194 | on a multiplexer where "/a" and then "/a/:name/b" were registered, "/a/x" finds "/a" with no parameter names but the value x |
| Scenarios.AddRoute | mux.go:83-133 | a registration whose arguments pass the checks: the tree grows by the key path's prefixes, the entry map by the entry there (the old one, or a new one with the pattern and names), its methods bound as BoundFrom states, and every node and entry added is new |
| Scenarios.RegisterTwo | mux.go:83-133 | two registrations on a new multiplexer: the first creates an entry with its pattern; the second binds on that entry when the key paths are equal, and on a new entry with its own pattern otherwise |
| Scenarios.SameKeys | mux.go:44-45 | patterns that differ only in a placeholder's name have the same key path, so they share one entry |
| Scenarios.SharedBindings | mux.go:275-293 | GET bound on a new entry, then a second GET panics naming the entry's pattern and changes nothing, while POST is bound beside GET with the cache OPTIONS, GET, HEAD, POST |
| Scenarios.SharedEntry | mux.go:44-45 | GET registered under two patterns that differ only in a placeholder's name panics on the second, naming the first pattern, and leaves the entry as it was; POST under the second pattern is bound beside GET |
| Scenarios.FirstGet | mux.go:286-292 | binding GET on a new entry binds GET alone and caches OPTIONS, GET, HEAD |
| Scenarios.GetAgain | mux.go:280-284 | binding GET where GET is bound panics naming GET and the entry's pattern, and nothing changes |
| Scenarios.OtherMethod | mux.go:286-288 | binding a method not bound yet, other than GET, binds it and adds it to the cache if absent (OPTIONS, already cached, is not appended again) |
| Scenarios.GetGetPost | mux.go:275-293 | GET, then GET again, then POST on one entry: the second panics, and the entry ends with GET and POST bound and the cache OPTIONS, GET, HEAD, POST |
| Scenarios.GetDispatch | mux.go:216-230 | on an entry with only GET bound, OPTIONS answers 204 with "OPTIONS, GET, HEAD", POST is not found, and HEAD is served by the GET handler |
| Scenarios.TrailingSlash | mux.go:161-199 | after registering "/a/:name", the request "/a/" matches it with the value "" |
| Scenarios.NoGreedyWildcard | mux.go:161-199 | after registering "/a/*name", the request "/a/x/y" returns nil |
| Scenarios.LiteralStar | mux.go:170-177 | after registering "/a/:name", the request "/a/*" matches it with no values for its one name |
| Scenarios.ParamAfterLookup | mux.go:331-344 | on any multiplexer, a request whose walk ends on an entry's node without a "*" segment is found with one value per name, and Param reads the value captured for the name, or "" for a name the entry does not have |
| Scenarios.DispatchOnGet | mux.go:203-230 | on a multiplexer where only GET was registered for "/a", a request for "/a" gets what SelectHandler chooses on the handlers {GET} and the cache OPTIONS, GET, HEAD |
| Scenarios.GetAnswersHead | mux.go:216-230 | on that multiplexer, OPTIONS answers 204 with "OPTIONS, GET, HEAD", POST is not found and HEAD is served by the GET handler |

## Left out

- ServeHTTP and the writing of the response are not modelled. `ServeHTTPErr` returns an `Outcome` instead: not found, 204 with an Allow value, or the handler to serve. The handler's own result is not modelled.
- `errHandler`, `HandleError`, `HandleErrorFunc` and `error_handler.go` are not part of this model. They only choose what to do with an error.
- The `sync.Pool` of matches is not modelled. `ServeHTTPErr` takes the pooled match as a parameter and resets it, as the pool's user does.
- `NewContext`, `FromContext` and the request context are not modelled. The served handler's access to the match is stated as the match's state.
- `handler.go` (`HandlerFunc`) and the wrappers `Handle`, `HandleFunc` and `HandleMethodsFunc` are not modelled. They only convert their arguments before calling `HandleMethods`. A handler is an identity token (`Handler`), and nil is `Nil`.
- The example server is not modelled.
- Go panics are results. `HandleMethods` and `SetHandler` return `Option<Panic>`. The state a panic leaves is the state before the panicking call: for a conflict in the binding loop, the earlier methods stay bound.
- `Node` has a `children` map that is never nil. Go's lazy `make` in `addChild` and `setHandler` is not modelled, because it is observably the same.
- `MuxMatch.Params` returns `[]` where Go returns a nil slice. The model does not distinguish the two.
- `MuxMatch.Reset` empties the values. Keeping the backing array of a Go slice is not modelled.
- `Params`, `PatternKeys`, `PatternParams`, `Walk` and `Lookup` in `Routes` carry no contracts of their own. Their properties are stated by lemmas (`ParamsCount`, `ParamsNamed`, `LiteralKeys`, `PatternShape`, `WalkValues`, `LookupValues`, `WalkDeepest` and the others above), so that the proofs that only use these functions do not carry them.
- Go slice aliasing is not modelled. `AnyMethod` returns the shared `commonMethods` slice (method.go:42-44), and the `append` in `Add` can leave two results sharing one backing array (method.go:47-53). Method sets here are values. The core never writes into a method set in place, only replaces it with the result of `Add`, so its behaviour does not depend on the sharing.
- The model does not treat the request URL as bytes. Strings are sequences of characters, and '/' splits them at the same places.
