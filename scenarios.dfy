/**
 * Registrations and requests run through the model, for any segment
 * texts, showing what the code does where its tests and comments expect
 * something else: a placeholder matches exactly one segment, a trailing
 * slash is an empty segment, a shallower entry is returned with extra
 * captures, a request segment that is literally "*" captures nothing, GET
 * answers HEAD only at dispatch, and a second pattern with the same keys
 * is bound on the first one's entry.
 */
module Scenarios {
  import opened Wrappers
  import opened Paths
  import opened MethodSets
  import opened Routes
  import opened Mux

  /** A path segment: no '/' inside. */
  predicate Plain(s: string)
  {
    '/' !in s
  }

  /** The path written as segs, joined with '/', is clean and has exactly those segments. */
  lemma PathOf(segs: seq<string>)
    requires segs != [] && forall i :: 0 <= i < |segs| ==> Plain(segs[i])
    ensures CleanPath(JoinSegments(segs)) == JoinSegments(segs)
    ensures Segments(CleanPath(JoinSegments(segs))) == segs
  {
    SegmentsOfJoinSegments(segs);
  }

  /** The prefixes of a two-key path. */
  lemma PrefixesOfTwo(a: string, b: string)
    ensures Prefixes([a, b]) == {[], [a], [a, b]}
  {
    var ks := [a, b];
    assert ks[..0] == [] && ks[..1] == [a] && ks[..2] == ks;
  }

  /** The prefixes of a three-key path. */
  lemma PrefixesOfThree(a: string, b: string, c: string)
    ensures Prefixes([a, b, c]) == {[], [a], [a, b], [a, b, c]}
  {
    var ks := [a, b, c];
    assert ks[..0] == [] && ks[..1] == [a] && ks[..2] == [a, b] && ks[..3] == ks;
  }

  /** The pattern a, then a placeholder: keyed a, then the wildcard, with the placeholder's name. */
  lemma PlaceholderPattern(a: string, ph: string)
    requires Plain(a) && Plain(ph) && !IsPlaceholder(a) && IsPlaceholder(ph)
    ensures PatternKeys(JoinSegments([a, ph])) == [a, Wildcard]
    ensures PatternParams(JoinSegments([a, ph])) == [ph[1..]]
    ensures Prefixes(PatternKeys(JoinSegments([a, ph]))) == {[], [a], [a, Wildcard]}
  {
    PathOf([a, ph]);
    assert [a, ph][1..] == [ph] && [ph][1..] == [];
    assert Params([ph]) == [ph[1..]];
    PrefixesOfTwo(a, Wildcard);
  }

  /**
   * A placeholder takes one segment: from a, the walk follows the wildcard
   * child for x, and is stuck at y when that child has no children.
   */
  lemma OneSegmentWalk<E>(shape: set<seq<string>>, entries: map<seq<string>, E>, a: string, x: string, y: string)
    requires Plain(a) && Plain(x) && Plain(y)
    requires [a] in shape && ([a, x] in shape ==> x == Wildcard) && [a, Wildcard] in shape
    requires [a, Wildcard, y] !in shape && [a, Wildcard, Wildcard] !in shape
    ensures Found(Routes.Lookup(shape, entries, JoinSegments([a, x, y]))) == None
  {
    PathOf([a, x, y]);
    assert [] + [a] == [a] && [a, x, y] == [a] + [x, y];
    var s1 := EntryAt(entries, [a], None);
    WalkExact(shape, entries, [], a, [x, y], [], None);
    StuckBelowWildcard(shape, entries, a, x, y, s1);
  }

  /** The second and third steps of OneSegmentWalk: to the wildcard child, exactly or by capture, then stuck. */
  lemma StuckBelowWildcard<E>(shape: set<seq<string>>, entries: map<seq<string>, E>, a: string, x: string, y: string, s1: Option<E>)
    requires ([a, x] in shape ==> x == Wildcard) && [a, Wildcard] in shape
    requires [a, Wildcard, y] !in shape && [a, Wildcard, Wildcard] !in shape
    ensures Walk(shape, entries, [a], [x, y], [], s1).Stuck?
  {
    assert [a] + [x] == [a, x] && [a] + [Wildcard] == [a, Wildcard] && [x, y] == [x] + [y];
    assert [a, Wildcard] + [y] == [a, Wildcard, y] && [a, Wildcard] + [Wildcard] == [a, Wildcard, Wildcard];
    var none: seq<string> := [];
    var s2 := EntryAt(entries, [a, Wildcard], s1);
    assert [y] == [y] + none;
    if x == Wildcard {
      WalkExact(shape, entries, [a], x, [y], none, s1);
      WalkNoChild(shape, entries, [a, Wildcard], y, none, none, s2);
    } else {
      WalkFallback(shape, entries, [a], x, [y], none, s1);
      WalkNoChild(shape, entries, [a, Wildcard], y, none, none + [x], s2);
    }
  }

  /** OneSegmentWalk, in the tree a new ServeMux has after registering a, then a placeholder. */
  lemma OneSegmentAfter<E>(shape: set<seq<string>>, entries: map<seq<string>, E>, a: string, ph: string, x: string, y: string)
    requires Plain(a) && Plain(ph) && Plain(x) && Plain(y) && !IsPlaceholder(a) && IsPlaceholder(ph)
    requires shape == {[]} + Prefixes(PatternKeys(JoinSegments([a, ph])))
    ensures Found(Routes.Lookup(shape, entries, JoinSegments([a, x, y]))) == None
  {
    PlaceholderPattern(a, ph);
    OneSegmentWalk(shape, entries, a, x, y);
  }

  /**
   * A segment with no exact child below a is taken by the wildcard child,
   * which captures it; with an entry there, the walk ends on that entry.
   */
  lemma PlaceholderWalk<E>(shape: set<seq<string>>, entries: map<seq<string>, E>, a: string, x: string)
    requires Plain(a) && Plain(x)
    requires [a] in shape && [a, x] !in shape && [a, Wildcard] in shape && [a, Wildcard] in entries
    ensures Routes.Lookup(shape, entries, JoinSegments([a, x])) == Reached([x], Some(entries[[a, Wildcard]]))
  {
    PathOf([a, x]);
    assert [] + [a] == [a] && [a] + [x] == [a, x] && [a] + [Wildcard] == [a, Wildcard];
    assert [a, x] == [a] + ([x] + []);
    var none: seq<string> := [];
    assert none + [x] == [x];
    WalkExact(shape, entries, [], a, [x] + [], [], None);
    WalkFallback(shape, entries, [a], x, [], none, EntryAt(entries, [a], None));
  }

  /** Two segments, each an exact child: the walk ends at the node of both, on its entry, capturing nothing. */
  lemma ExactWalk<E>(shape: set<seq<string>>, entries: map<seq<string>, E>, a: string, s: string)
    requires Plain(a) && Plain(s)
    requires [a] in shape && [a, s] in shape && [a, s] in entries
    ensures Routes.Lookup(shape, entries, JoinSegments([a, s])) == Reached([], Some(entries[[a, s]]))
  {
    PathOf([a, s]);
    var none: seq<string> := [];
    var s1 := EntryAt(entries, [a], None);
    assert [a] + [s] == [a, s] && [s] + none == [s] && [] + [a] == [a];
    WalkExact(shape, entries, [], a, [s], none, None);
    WalkExact(shape, entries, [a], s, none, none, s1);
  }

  /**
   * With an entry at a and none at its wildcard child, a request for a and
   * one more segment returns the entry at a, the deepest passed, with the
   * segment captured by the wildcard child on the way.
   */
  lemma ShallowerEntryWalk<E>(shape: set<seq<string>>, entries: map<seq<string>, E>, a: string, x: string)
    requires Plain(a) && Plain(x)
    requires [a] in shape && [a] in entries && [a, x] !in shape && [a, Wildcard] in shape && [a, Wildcard] !in entries
    ensures Routes.Lookup(shape, entries, JoinSegments([a, x])) == Reached([x], Some(entries[[a]]))
  {
    PathOf([a, x]);
    assert [] + [a] == [a] && [a] + [x] == [a, x] && [a] + [Wildcard] == [a, Wildcard];
    assert [a, x] == [a] + ([x] + []);
    var none: seq<string> := [];
    assert none + [x] == [x];
    WalkExact(shape, entries, [], a, [x] + [], [], None);
    WalkFallback(shape, entries, [a], x, [], none, Some(entries[[a]]));
  }

  /** The pattern a, a placeholder, then b: keyed a, the wildcard, then b. */
  lemma PlaceholderMidPattern(a: string, ph: string, b: string)
    requires Plain(a) && Plain(ph) && Plain(b) && !IsPlaceholder(a) && IsPlaceholder(ph) && !IsPlaceholder(b)
    ensures PatternKeys(JoinSegments([a, ph, b])) == [a, Wildcard, b]
    ensures Prefixes(PatternKeys(JoinSegments([a, ph, b]))) == {[], [a], [a, Wildcard], [a, Wildcard, b]}
  {
    PathOf([a, ph, b]);
    var segs := [a, ph, b];
    assert segs[1..] == [ph, b] && segs[1..][1..] == [b] && [b][1..] == [];
    PrefixesOfThree(a, Wildcard, b);
  }

  /** The pattern of one literal segment a. */
  lemma LiteralPattern(a: string)
    requires Plain(a) && !IsPlaceholder(a)
    ensures PatternKeys(JoinSegments([a])) == [a] && PatternParams(JoinSegments([a])) == []
    ensures Prefixes(PatternKeys(JoinSegments([a]))) == {[], [a]}
  {
    PathOf([a]);
    var ks := [a];
    assert ks[1..] == [];
    assert Params(ks) == [] + Params([]);
    assert ks[..0] == [] && ks[..1] == ks;
  }

  /** A new ServeMux with one successful registration: one entry, at the pattern's keys. */
  method RegisterOnce(methods: MethodSet, pattern: string, handler: Handler) returns (mux: ServeMux, err: Option<Panic>)
    requires methods != [] && pattern != "" && handler != Nil
    ensures fresh(mux) && mux.Valid()
    ensures mux.Shape() == {[]} + Prefixes(PatternKeys(pattern))
    ensures PatternKeys(pattern) in mux.EntryMap()
    ensures var e := mux.EntryMap()[PatternKeys(pattern)];
            && e.pattern == pattern && e.params == PatternParams(pattern)
            && BoundFrom(e.handlers, e.methods, err, map[], [OPTIONS], methods, handler, pattern)
  {
    mux := new ServeMux();
    err := mux.HandleMethods(methods, pattern, handler);
  }

  /** PlaceholderWalk, in the tree a new ServeMux has after registering a, then a placeholder. */
  lemma PlaceholderAfter<E>(shape: set<seq<string>>, entries: map<seq<string>, E>, a: string, ph: string, x: string)
    requires Plain(a) && Plain(ph) && Plain(x) && !IsPlaceholder(a) && IsPlaceholder(ph) && x != Wildcard
    requires shape == {[]} + Prefixes(PatternKeys(JoinSegments([a, ph])))
    requires PatternKeys(JoinSegments([a, ph])) in entries
    ensures PatternKeys(JoinSegments([a, ph])) == [a, Wildcard] && PatternParams(JoinSegments([a, ph])) == [ph[1..]]
    ensures Routes.Lookup(shape, entries, JoinSegments([a, x])) == Reached([x], Some(entries[[a, Wildcard]]))
  {
    PlaceholderPattern(a, ph);
    PlaceholderWalk(shape, entries, a, x);
  }

  /** ExactWalk on the wildcard key, in the tree a new ServeMux has after registering a, then a placeholder. */
  lemma LiteralStarAfter<E>(shape: set<seq<string>>, entries: map<seq<string>, E>, a: string, ph: string)
    requires Plain(a) && Plain(ph) && !IsPlaceholder(a) && IsPlaceholder(ph)
    requires shape == {[]} + Prefixes(PatternKeys(JoinSegments([a, ph])))
    requires PatternKeys(JoinSegments([a, ph])) in entries
    ensures PatternKeys(JoinSegments([a, ph])) == [a, Wildcard] && PatternParams(JoinSegments([a, ph])) == [ph[1..]]
    ensures Routes.Lookup(shape, entries, JoinSegments([a, Wildcard])) == Reached([], Some(entries[[a, Wildcard]]))
  {
    PlaceholderPattern(a, ph);
    ExactWalk(shape, entries, a, Wildcard);
  }

  /** A request for a literal pattern, in any tree that holds its key path with an entry there. */
  lemma LiteralAfter<E>(shape: set<seq<string>>, entries: map<seq<string>, E>, a: string)
    requires Plain(a) && !IsPlaceholder(a)
    requires Prefixes(PatternKeys(JoinSegments([a]))) <= shape && PatternKeys(JoinSegments([a])) in entries
    ensures PatternKeys(JoinSegments([a])) == [a]
    ensures Routes.Lookup(shape, entries, JoinSegments([a])) == Reached([], Some(entries[[a]]))
  {
    var pattern := JoinSegments([a]);
    LiteralPattern(a);
    assert Literal(Segments(CleanPath(pattern))) by {
      PathOf([a]);
    }
    LiteralPatternFound(shape, entries, pattern);
  }

  /** A key path longer than ks, or differing from it at some index, is not a prefix of ks. */
  lemma NotPrefix(ks: seq<string>, p: seq<string>, i: nat)
    requires |ks| < |p| || (i < |p| <= |ks| && p[i] != ks[i])
    ensures p !in Prefixes(ks)
  {
    forall j | 0 <= j <= |ks|
      ensures ks[..j] != p
    {
      if |ks[..j]| == |p| {
        assert ks[..j][i] == ks[i];
      }
    }
  }

  /**
   * ShallowerEntryWalk, in the tree a new ServeMux has after registering a,
   * then a, a placeholder and b, with the entries v0 and v of the two.
   */
  lemma ShallowerAfter<E>(shape: set<seq<string>>, entries: map<seq<string>, E>, v0: E, v: E,
                          a: string, ph: string, b: string, x: string)
    requires Plain(a) && Plain(ph) && Plain(b) && Plain(x) && !IsPlaceholder(a) && IsPlaceholder(ph) && !IsPlaceholder(b)
    requires x != Wildcard
    requires shape == ({[]} + Prefixes(PatternKeys(JoinSegments([a])))) + Prefixes(PatternKeys(JoinSegments([a, ph, b])))
    requires entries == map[PatternKeys(JoinSegments([a])) := v0][PatternKeys(JoinSegments([a, ph, b])) := v]
    ensures PatternKeys(JoinSegments([a])) == [a] && PatternParams(JoinSegments([a])) == []
    ensures Routes.Lookup(shape, entries, JoinSegments([a, x])) == Reached([x], Some(v0))
  {
    LiteralPattern(a);
    PlaceholderMidPattern(a, ph, b);
    ShallowerFacts(shape, entries, v0, v, a, b, x);
    ShallowerEntryWalk(shape, entries, a, x);
  }

  /** The tree and entries of ShallowerAfter, written with its key paths: what ShallowerEntryWalk asks of them. */
  lemma ShallowerFacts<E>(shape: set<seq<string>>, entries: map<seq<string>, E>, v0: E, v: E, a: string, b: string, x: string)
    requires x != Wildcard
    requires shape == ({[]} + Prefixes([a])) + Prefixes([a, Wildcard, b])
    requires entries == map[[a] := v0][[a, Wildcard, b] := v]
    ensures [a] in shape && [a, Wildcard] in shape && [a, x] !in shape
    ensures [a] in entries && entries[[a]] == v0 && [a, Wildcard] !in entries
  {
    var ks := [a, Wildcard, b];
    assert ks[..1] == [a] && ks[..2] == [a, Wildcard];
    NotPrefix(ks, [a, x], 1);
    NotPrefix([a], [a, x], 0);
    assert [a] != ks && [a, Wildcard] != [a] && [a, Wildcard] != ks by {
      assert |ks| == 3 && |[a, Wildcard]| == 2;
    }
  }

  /** Two patterns that differ only in a placeholder's name have the same keys, so they share a node. */
  lemma SameKeys(a: string, ph1: string, ph2: string)
    requires Plain(a) && Plain(ph1) && Plain(ph2) && !IsPlaceholder(a) && IsPlaceholder(ph1) && IsPlaceholder(ph2)
    ensures PatternKeys(JoinSegments([a, ph1])) == PatternKeys(JoinSegments([a, ph2])) == [a, Wildcard]
    ensures PatternParams(JoinSegments([a, ph1])) == [ph1[1..]]
  {
    PlaceholderPattern(a, ph1);
    PlaceholderPattern(a, ph2);
  }

  /** Binding GET on a new entry: GET is bound, and the cache is OPTIONS, GET, HEAD. */
  lemma FirstGet(h: map<string, Handler>, c: MethodSet, err: Option<Panic>, handler: Handler, pattern: string)
    requires BoundFrom(h, c, err, map[], [OPTIONS], [GET], handler, pattern)
    ensures err == None && h == map[GET := handler] && c == [OPTIONS, GET, HEAD]
  {
    assert FirstConflict({}, [GET]) == 1;
    assert [GET][..1] == [GET] && [GET][..0] == [];
    assert BindAll(map[], [GET], handler) == map[][GET := handler];
    assert CacheAddAll([OPTIONS], [GET]) == CacheAdd([OPTIONS], GET);
    assert !Has([OPTIONS], GET) && !Has([OPTIONS], HEAD);
  }

  /** Binding GET where GET is bound already: the panic names GET and the entry's pattern, and nothing changes. */
  lemma GetAgain(h: map<string, Handler>, c: MethodSet, err: Option<Panic>, h0: map<string, Handler>, c0: MethodSet,
                 handler: Handler, pattern: string)
    requires GET in h0 && BoundFrom(h, c, err, h0, c0, [GET], handler, pattern)
    ensures err == Some(MultipleRegistrations(GET, pattern)) && h == h0 && c == c0
  {
    assert FirstConflict(h0.Keys, [GET]) == 0;
    assert [GET][..0] == [];
  }

  /** Binding a method not bound yet, other than GET: it is bound, and added to the cache if absent. */
  lemma OtherMethod(h: map<string, Handler>, c: MethodSet, err: Option<Panic>, h0: map<string, Handler>, c0: MethodSet,
                    m: string, handler: Handler, pattern: string)
    requires m !in h0 && m != GET && BoundFrom(h, c, err, h0, c0, [m], handler, pattern)
    ensures err == None && h == h0[m := handler] && c == Add(c0, m)
  {
    assert FirstConflict(h0.Keys, [m]) == 1;
    assert [m][..1] == [m] && [m][..0] == [];
    assert BindAll(h0, [m], handler) == h0[m := handler];
    assert CacheAddAll(c0, [m]) == CacheAdd(c0, m);
  }

  /**
   * The choices ServeHTTPErr makes on an entry where only GET was bound:
   * OPTIONS is answered with the cache, POST is not found, and HEAD is
   * served by the GET handler.
   */
  lemma GetDispatch(h: Handler)
    requires h != Nil
    ensures SelectHandler(OPTIONS, map[GET := h], [OPTIONS, GET, HEAD]) == NoContent(OPTIONS + ", " + GET + ", " + HEAD)
    ensures SelectHandler(POST, map[GET := h], [OPTIONS, GET, HEAD]) == ErrMuxNotFound
    ensures SelectHandler(HEAD, map[GET := h], [OPTIONS, GET, HEAD]) == Serve(h)
  {
    var ms := [OPTIONS, GET, HEAD];
    assert Join([GET, HEAD], ", ") == GET + ", " + HEAD;
    assert String(ms) == OPTIONS + ", " + GET + ", " + HEAD;
  }

  /**
   * GET, then GET again, then POST bound on one entry of pattern, as
   * HandleMethods does when three patterns share its keys: the second
   * panics naming the entry's pattern, and the third is bound beside the first.
   */
  lemma GetGetPost(h1: map<string, Handler>, c1: MethodSet, e1: Option<Panic>,
                   h2: map<string, Handler>, c2: MethodSet, e2: Option<Panic>,
                   h3: map<string, Handler>, c3: MethodSet, e3: Option<Panic>, pattern: string)
    requires BoundFrom(h1, c1, e1, map[], [OPTIONS], [GET], Fn(1), pattern)
    requires BoundFrom(h2, c2, e2, h1, c1, [GET], Fn(2), pattern)
    requires BoundFrom(h3, c3, e3, h2, c2, [POST], Fn(3), pattern)
    ensures e1 == None && e2 == Some(MultipleRegistrations(GET, pattern)) && e3 == None
    ensures h3 == map[GET := Fn(1), POST := Fn(3)] && c3 == [OPTIONS, GET, HEAD, POST]
  {
    FirstGet(h1, c1, e1, Fn(1), pattern);
    GetAgain(h2, c2, e2, h1, c1, Fn(2), pattern);
    OtherMethod(h3, c3, e3, h2, c2, POST, Fn(3), pattern);
    assert Add([OPTIONS, GET, HEAD], POST) == [OPTIONS, GET, HEAD, POST];
  }

  /**
   * With "/a/:name" registered, "/a/" is found: its empty last segment is
   * captured by the placeholder.
   */
  method TrailingSlash(a: string, name: string) returns (r: MuxMatch?)
    requires Plain(a) && Plain(name) && !IsPlaceholder(a)
    ensures r != null && r.values == [""]
    ensures r.Pattern() == JoinSegments([a, ":" + name]) && r.Params() == [name]
  {
    var ph := ":" + name;
    var mux, err := RegisterOnce([GET], JoinSegments([a, ph]), Fn(1));
    PlaceholderAfter(mux.Shape(), mux.EntryMap(), a, ph, "");
    r := mux.Lookup(JoinSegments([a, ""]));
  }

  /**
   * With a, then the wildcard "*name", registered, a request with two
   * segments below a is not found: the placeholder takes one segment only.
   */
  method NoGreedyWildcard(a: string, name: string, x: string, y: string) returns (r: MuxMatch?)
    requires Plain(a) && Plain(name) && Plain(x) && Plain(y) && !IsPlaceholder(a)
    ensures r == null
  {
    var ph := "*" + name;
    var mux, err := RegisterOnce([GET], JoinSegments([a, ph]), Fn(1));
    OneSegmentAfter(mux.Shape(), mux.EntryMap(), a, ph, x, y);
    r := mux.Lookup(JoinSegments([a, x, y]));
  }

  /**
   * With "/a/:name" registered, a request for a, then the segment "*",
   * follows the wildcard child as an exact key: it is found with no value
   * for the name.
   */
  method LiteralStar(a: string, name: string) returns (r: MuxMatch?)
    requires Plain(a) && Plain(name) && !IsPlaceholder(a)
    ensures r != null && r.values == [] && r.Params() == [name]
    ensures r.Pattern() == JoinSegments([a, ":" + name])
  {
    var ph := ":" + name;
    var mux, err := RegisterOnce([GET], JoinSegments([a, ph]), Fn(1));
    LiteralStarAfter(mux.Shape(), mux.EntryMap(), a, ph);
    r := mux.Lookup(JoinSegments([a, Wildcard]));
  }

  /**
   * On any valid multiplexer, a request whose walk ends on an entry's node
   * without a "*" segment is found by Lookup with one value per parameter
   * name, and Param reads the value captured for the name.
   */
  method ParamAfterLookup(mux: ServeMux, urlPath: string, name: string) returns (r: MuxMatch?, v: string)
    requires mux.Valid()
    requires Wildcard !in Segments(CleanPath(urlPath))
    requires var segs := Segments(CleanPath(urlPath));
             |Trail(mux.Shape(), [], segs)| == |segs| && Trail(mux.Shape(), [], segs) in mux.EntryMap()
    ensures r != null && r.entry == mux.EntryMap()[Trail(mux.Shape(), [], Segments(CleanPath(urlPath)))]
    ensures |r.values| == |r.entry.params|
    ensures name in r.entry.params ==> v == r.values[IndexOf(r.entry.params, name)]
    ensures name !in r.entry.params ==> v == ""
  {
    mux.LookupParams(urlPath);
    r := mux.Lookup(urlPath);
    v := r.Param(name);
  }

  /**
   * HandleMethods on arguments that pass its checks, as the two-registration
   * scenarios below use it: the tree grows by the prefixes of the pattern's
   * key path, the entry map by the entry at that key path (new, with the
   * pattern and its parameter names, or the one already there), the methods
   * are bound on that entry, and every node and entry added is new.
   */
  method AddRoute(mux: ServeMux, ms: MethodSet, p: string, hd: Handler) returns (err: Option<Panic>)
    requires mux.Valid() && ms != [] && p != "" && hd != Nil
    modifies mux, mux.Tree.Values, mux.Entries
    ensures mux.Valid()
    ensures mux.Shape() == old(mux.Shape()) + Prefixes(PatternKeys(p))
    ensures PatternKeys(p) in mux.EntryMap()
    ensures mux.EntryMap() == old(mux.EntryMap())[PatternKeys(p) := mux.EntryMap()[PatternKeys(p)]]
    ensures PatternKeys(p) in old(mux.EntryMap()) ==> mux.EntryMap()[PatternKeys(p)] == old(mux.EntryMap()[PatternKeys(p)])
    ensures PatternKeys(p) !in old(mux.EntryMap()) ==>
              mux.EntryMap()[PatternKeys(p)].pattern == p && mux.EntryMap()[PatternKeys(p)].params == PatternParams(p)
    ensures var e := mux.EntryMap()[PatternKeys(p)];
            var existed := PatternKeys(p) in old(mux.EntryMap());
            BoundFrom(e.handlers, e.methods, err,
                      if existed then old(e.handlers) else map[], if existed then old(e.methods) else [OPTIONS],
                      ms, hd, e.pattern)
    ensures fresh(mux.Tree.Values - old(mux.Tree.Values)) && fresh(mux.Entries - old(mux.Entries))
  {
    err := mux.HandleMethods(ms, p, hd);
  }

  /** A map made by one update of the empty map holds that one key and no other. */
  lemma OneEntry<E>(em: map<seq<string>, E>, k1: seq<string>, k2: seq<string>)
    requires k1 in em && em == map[][k1 := em[k1]]
    ensures em == map[k1 := em[k1]]
    ensures k2 in em <==> k2 == k1
  {
  }

  /**
   * Two registrations whose arguments pass the checks, on an empty ServeMux:
   * the tree holds the prefixes of both key paths; the first creates the
   * entry e1 and binds its methods there (leaving e1's handlers hs1 and
   * cache cs1); the second binds on e1 when the key paths are equal, and on
   * a new entry with its own pattern otherwise.
   */
  method RegisterTwo(mux: ServeMux, ms1: MethodSet, p1: string, hd1: Handler, ms2: MethodSet, p2: string, hd2: Handler)
    returns (err1: Option<Panic>, err2: Option<Panic>,
             ghost e1: MuxEntry, ghost hs1: map<string, Handler>, ghost cs1: MethodSet)
    requires mux.Valid() && mux.Shape() == {[]} && mux.EntryMap() == map[]
    requires ms1 != [] && p1 != "" && hd1 != Nil && ms2 != [] && p2 != "" && hd2 != Nil
    modifies mux, mux.Tree.Values, mux.Entries
    ensures mux.Valid()
    ensures mux.Shape() == ({[]} + Prefixes(PatternKeys(p1))) + Prefixes(PatternKeys(p2))
    ensures PatternKeys(p2) in mux.EntryMap()
    ensures mux.EntryMap() == map[PatternKeys(p1) := e1][PatternKeys(p2) := mux.EntryMap()[PatternKeys(p2)]]
    ensures e1.pattern == p1 && e1.params == PatternParams(p1)
    ensures BoundFrom(hs1, cs1, err1, map[], [OPTIONS], ms1, hd1, p1)
    ensures var e2 := mux.EntryMap()[PatternKeys(p2)];
            var same := PatternKeys(p2) == PatternKeys(p1);
            && (same ==> e2 == e1)
            && (!same ==> e2.pattern == p2 && e2.params == PatternParams(p2))
            && BoundFrom(e2.handlers, e2.methods, err2, if same then hs1 else map[], if same then cs1 else [OPTIONS],
                         ms2, hd2, e2.pattern)
  {
    err1 := AddRoute(mux, ms1, p1, hd1);
    e1 := mux.EntryMap()[PatternKeys(p1)];
    hs1 := e1.handlers;
    cs1 := e1.methods;
    OneEntry(mux.EntryMap(), PatternKeys(p1), PatternKeys(p2));
    err2 := AddRoute(mux, ms2, p2, hd2);
  }

  /**
   * With a registered, then a, a placeholder and b, a request for a with one
   * more segment x is found at the shallower entry of a, which captures x
   * though its pattern has no parameter.
   */
  method ShallowerEntry(a: string, name: string, b: string, x: string) returns (r: MuxMatch?)
    requires Plain(a) && Plain(name) && Plain(b) && Plain(x) && !IsPlaceholder(a) && !IsPlaceholder(b)
    requires x != Wildcard
    ensures r != null && r.Pattern() == JoinSegments([a]) && r.Params() == [] && r.values == [x]
  {
    var ph := ":" + name;
    var mux := new ServeMux();
    var err1, err2, e1, hs1, cs1 := RegisterTwo(mux, [GET], JoinSegments([a]), Fn(1), [GET], JoinSegments([a, ph, b]), Fn(2));
    ShallowerAfter(mux.Shape(), mux.EntryMap(), e1, mux.EntryMap()[PatternKeys(JoinSegments([a, ph, b]))], a, ph, b, x);
    r := mux.Lookup(JoinSegments([a, x]));
  }

  /**
   * GET bound on a new entry, then second bound on it: a second GET panics
   * naming the entry's pattern, and POST is bound without a panic.
   */
  lemma SharedBindings(h1: map<string, Handler>, c1: MethodSet, err1: Option<Panic>,
                       h2: map<string, Handler>, c2: MethodSet, err2: Option<Panic>, second: string, pattern: string)
    requires second == GET || second == POST
    requires BoundFrom(h1, c1, err1, map[], [OPTIONS], [GET], Fn(1), pattern)
    requires BoundFrom(h2, c2, err2, h1, c1, [second], Fn(2), pattern)
    ensures err1 == None
    ensures second == GET ==> err2 == Some(MultipleRegistrations(GET, pattern)) && h2 == h1 && c2 == c1
    ensures second == POST ==> err2 == None && h2 == map[GET := Fn(1), POST := Fn(2)] && c2 == [OPTIONS, GET, HEAD, POST]
  {
    FirstGet(h1, c1, err1, Fn(1), pattern);
    if second == GET {
      GetAgain(h2, c2, err2, h1, c1, Fn(2), pattern);
    } else {
      OtherMethod(h2, c2, err2, h1, c1, POST, Fn(2), pattern);
      assert Add([OPTIONS, GET, HEAD], POST) == [OPTIONS, GET, HEAD, POST];
    }
  }

  /**
   * Two patterns that differ only in a placeholder's name share one entry,
   * which keeps the first pattern: GET registered under each panics on the
   * second, naming the first pattern, and leaves the entry as it was; POST
   * under the second is bound beside GET.
   */
  method SharedEntry(a: string, n1: string, n2: string, second: string)
    returns (err1: Option<Panic>, err2: Option<Panic>, ghost handlers: map<string, Handler>, ghost cache: MethodSet)
    requires Plain(a) && Plain(n1) && Plain(n2) && !IsPlaceholder(a)
    requires second == GET || second == POST
    ensures err1 == None
    ensures second == GET ==> err2 == Some(MultipleRegistrations(GET, JoinSegments([a, ":" + n1])))
    ensures second == GET ==> handlers == map[GET := Fn(1)] && cache == [OPTIONS, GET, HEAD]
    ensures second == POST ==> err2 == None && handlers == map[GET := Fn(1), POST := Fn(2)] && cache == [OPTIONS, GET, HEAD, POST]
  {
    var ph1 := ":" + n1;
    var ph2 := ":" + n2;
    SameKeys(a, ph1, ph2);
    var mux := new ServeMux();
    ghost var e1, hs1, cs1;
    err1, err2, e1, hs1, cs1 := RegisterTwo(mux, [GET], JoinSegments([a, ph1]), Fn(1), [second], JoinSegments([a, ph2]), Fn(2));
    ghost var e := mux.EntryMap()[PatternKeys(JoinSegments([a, ph2]))];
    handlers := e.handlers;
    cache := e.methods;
    SharedBindings(hs1, cs1, err1, handlers, cache, err2, second, JoinSegments([a, ph1]));
    FirstGet(hs1, cs1, err1, Fn(1), JoinSegments([a, ph1]));
  }

  /** A request with method reqMethod for "/a", on a new ServeMux where GET alone was registered for "/a". */
  method DispatchOnGet(a: string, reqMethod: string) returns (d: Outcome)
    requires Plain(a) && !IsPlaceholder(a)
    ensures d == SelectHandler(reqMethod, map[GET := Fn(1)], [OPTIONS, GET, HEAD])
  {
    var pattern := JoinSegments([a]);
    var mux, err := RegisterOnce([GET], pattern, Fn(1));
    LiteralAfter(mux.Shape(), mux.EntryMap(), a);
    ghost var e := mux.EntryMap()[[a]];
    FirstGet(e.handlers, e.methods, err, Fn(1), pattern);
    var m := new MuxMatch();
    d := mux.ServeHTTPErr(reqMethod, pattern, m);
  }

  /**
   * With GET registered on "/a": HEAD is served by the GET handler, OPTIONS
   * is answered with the cache, and another method is not found.
   */
  method GetAnswersHead(a: string) returns (options: Outcome, post: Outcome, head: Outcome)
    requires Plain(a) && !IsPlaceholder(a)
    ensures options == NoContent(OPTIONS + ", " + GET + ", " + HEAD)
    ensures post == ErrMuxNotFound
    ensures head == Serve(Fn(1))
  {
    options := DispatchOnGet(a, OPTIONS);
    post := DispatchOnGet(a, POST);
    head := DispatchOnGet(a, HEAD);
    GetDispatch(Fn(1));
  }
}
