/**
 * The routing tree of mux.go seen as an abstract trie: a node is named by
 * the sequence of keys on the way to it from the root, so a tree is the set
 * of those key paths ("shape") and the entries some of its nodes carry.
 * This module states what registration computes from a pattern and what
 * the lookup walk returns, and proves the walk's properties.
 */
module Routes {
  import opened Wrappers
  import opened Paths

  /** The key under which every placeholder segment is stored. */
  const Wildcard := "*"

  /** A pattern segment that starts with ':' or '*'. */
  predicate IsPlaceholder(seg: string)
    ensures IsPlaceholder(seg) ==> seg != ""
    ensures seg == Wildcard ==> IsPlaceholder(seg)
  {
    seg != "" && (seg[0] == ':' || seg[0] == '*')
  }

  /** The tree key of a pattern segment. */
  function KeyOf(seg: string): (k: string)
    ensures k == Wildcard <==> IsPlaceholder(seg)
    ensures !IsPlaceholder(seg) ==> k == seg
  {
    if IsPlaceholder(seg) then Wildcard else seg
  }

  /** The tree keys of a sequence of pattern segments. */
  function Keys(segs: seq<string>): (ks: seq<string>)
    ensures |ks| == |segs|
    ensures forall i :: 0 <= i < |segs| ==> ks[i] == KeyOf(segs[i])
  {
    if segs == [] then [] else [KeyOf(segs[0])] + Keys(segs[1..])
  }

  /** The placeholder names of a sequence of pattern segments, in order. */
  function Params(segs: seq<string>): seq<string>
  {
    if segs == [] then []
    else (if IsPlaceholder(segs[0]) then [segs[0][1..]] else []) + Params(segs[1..])
  }

  /** The key path registration walks for a pattern. */
  function PatternKeys(pattern: string): seq<string>
  {
    Keys(Segments(CleanPath(pattern)))
  }

  /** The parameter names registration records for a pattern. */
  function PatternParams(pattern: string): seq<string>
  {
    Params(Segments(CleanPath(pattern)))
  }

  /** Registration consumes a path one segment at a time: the head ShiftPath takes off, then the rest. */
  lemma SegmentStep(path: string)
    requires path != ""
    ensures var (head, tail) := ShiftPath(path);
            Segments(path) == [head] + Segments(tail)
  {
  }

  /** Keys extend with the segments: the key of one more segment comes last. */
  lemma KeysSnoc(segs: seq<string>, seg: string)
    ensures Keys(segs + [seg]) == Keys(segs) + [KeyOf(seg)]
  {
    var l, r := Keys(segs + [seg]), Keys(segs) + [KeyOf(seg)];
    assert |l| == |r|;
    forall i | 0 <= i < |l|
      ensures l[i] == r[i]
    {
      assert (segs + [seg])[i] == if i < |segs| then segs[i] else seg;
    }
  }

  /** Parameter names extend with the segments: a placeholder's name comes last. */
  lemma {:induction false} ParamsSnoc(segs: seq<string>, seg: string)
    decreases |segs|
    ensures Params(segs + [seg]) == Params(segs) + (if IsPlaceholder(seg) then [seg[1..]] else [])
  {
    var name := if IsPlaceholder(seg) then [seg[1..]] else [];
    if segs == [] {
      assert [] + [seg] == [seg];
      assert [seg][1..] == [];
      assert Params([seg]) == name + Params([]);
    } else {
      ParamsSnoc(segs[1..], seg);
      assert (segs + [seg])[1..] == segs[1..] + [seg];
      var first := if IsPlaceholder(segs[0]) then [segs[0][1..]] else [];
      ConcatAssoc(first, Params(segs[1..]), name);
    }
  }

  /**
   * One step of the registration walk over the segments segs of a pattern,
   * i of them behind it and path ahead of it: the next segment is the head
   * ShiftPath takes off path, and the walked keys and names grow by its key
   * and, for a placeholder, its name.
   */
  lemma RegistrationStep(segs: seq<string>, i: nat, path: string)
    requires i <= |segs| && Segments(path) == segs[i..] && path != ""
    ensures var (head, tail) := ShiftPath(path);
            && i < |segs| && segs[i] == head && Segments(tail) == segs[i + 1..]
            && Keys(segs[..i + 1]) == Keys(segs[..i]) + [KeyOf(head)]
            && (IsPlaceholder(head) ==> Params(segs[..i + 1]) == Params(segs[..i]) + [head[1..]])
            && (!IsPlaceholder(head) ==> Params(segs[..i + 1]) == Params(segs[..i]))
  {
    var (head, tail) := ShiftPath(path);
    SegmentStep(path);
    SliceStep(segs, i, head, Segments(tail));
    KeysSnoc(segs[..i], head);
    ParamsSnoc(segs[..i], head);
    if !IsPlaceholder(head) {
      assert Params(segs[..i]) + [] == Params(segs[..i]);
    }
  }

  /**
   * The registration walk over the segments segs of a pattern, with i of
   * them behind it and path ahead of it, has reached the key path at and
   * collected the placeholder names params.
   */
  ghost predicate Progress(segs: seq<string>, i: nat, path: string, at: seq<string>, params: seq<string>)
  {
    i <= |segs| && Segments(path) == segs[i..] && at == Keys(segs[..i]) && params == Params(segs[..i])
  }

  /**
   * One step of the registration walk: the head ShiftPath takes off path
   * extends at by its key and, for a placeholder, params by its name.
   */
  lemma ProgressStep(segs: seq<string>, i: nat, path: string, at: seq<string>, params: seq<string>)
    requires Progress(segs, i, path, at, params) && path != ""
    ensures var (head, tail) := ShiftPath(path);
            Progress(segs, i + 1, tail, at + [KeyOf(head)], if IsPlaceholder(head) then params + [head[1..]] else params)
  {
    RegistrationStep(segs, i, path);
  }

  /** A tree grown by the prefixes of at, grown by at + [k], is grown by the prefixes of at + [k], a new one. */
  lemma PrefixesGrow(base: set<seq<string>>, at: seq<string>, k: string)
    ensures (base + Prefixes(at)) + {at + [k]} == base + Prefixes(at + [k])
    ensures at + [k] !in Prefixes(at)
  {
    PrefixesSnoc(at, k);
    forall j | 0 <= j <= |at|
      ensures at[..j] != at + [k]
    {
    }
  }

  /** The registration walk starts at the root with all of path's segments ahead. */
  lemma ProgressStart(path: string)
    ensures Progress(Segments(path), 0, path, [], [])
    ensures Prefixes([]) == {[]}
  {
    var segs := Segments(path);
    assert segs[..0] == [] && segs[0..] == segs;
    PrefixesEmpty();
  }

  /** The registration walk ends, with nothing ahead, at the keys and names of all the segments. */
  lemma ProgressEnd(segs: seq<string>, i: nat, at: seq<string>, params: seq<string>)
    requires Progress(segs, i, "", at, params)
    ensures at == Keys(segs) && params == Params(segs)
  {
    assert segs[..i] == segs;
  }

  /** The suffix of segs from i that starts with head: head is segs[i], and the prefix grows by it. */
  lemma SliceStep(segs: seq<string>, i: nat, head: string, tail: seq<string>)
    requires i <= |segs| && segs[i..] == [head] + tail
    ensures i < |segs| && segs[i] == head && segs[i + 1..] == tail
    ensures segs[..i + 1] == segs[..i] + [head]
  {
    assert segs[i..][0] == segs[i];
    assert segs[i + 1..] == segs[i..][1..];
  }

  /** Concatenation is associative (stated once so that callers need no extensionality reasoning). */
  lemma ConcatAssoc(a: seq<string>, b: seq<string>, c: seq<string>)
    ensures (a + b) + c == a + (b + c)
  {
  }

  /** How many keys of ks are the wildcard key. */
  function CountWild(ks: seq<string>): nat
  {
    if ks == [] then 0 else (if ks[0] == Wildcard then 1 else 0) + CountWild(ks[1..])
  }

  /** A segment sequence without placeholders. */
  predicate Literal(segs: seq<string>)
  {
    forall i :: 0 <= i < |segs| ==> !IsPlaceholder(segs[i])
  }

  /** There is one parameter name per wildcard key: the names line up with the captures. */
  lemma {:induction false} ParamsCount(segs: seq<string>)
    ensures |Params(segs)| == CountWild(Keys(segs))
  {
    if segs != [] {
      ParamsCount(segs[1..]);
      assert Keys(segs)[1..] == Keys(segs[1..]);
    }
  }

  /**
   * A pattern has one key per segment of its cleaned path, at least one,
   * and one parameter name per wildcard key.
   */
  lemma PatternShape(pattern: string)
    ensures |PatternKeys(pattern)| == |Segments(CleanPath(pattern))| >= 1
    ensures |PatternParams(pattern)| == CountWild(PatternKeys(pattern)) <= |PatternKeys(pattern)|
  {
    ParamsCount(Segments(CleanPath(pattern)));
    CountWildBound(PatternKeys(pattern));
  }

  /** At most every key is the wildcard. */
  lemma {:induction false} CountWildBound(ks: seq<string>)
    ensures CountWild(ks) <= |ks|
  {
    if ks != [] {
      CountWildBound(ks[1..]);
    }
  }

  /** The i-th parameter name is the i-th placeholder's text after its first character. */
  lemma {:induction false} ParamsNamed(segs: seq<string>, i: nat)
    requires i < |segs| && IsPlaceholder(segs[i])
    ensures CountWild(Keys(segs[..i])) < |Params(segs)|
    ensures Params(segs)[CountWild(Keys(segs[..i]))] == segs[i][1..]
  {
    assert segs[..i + 1] == segs[..i] + [segs[i]];
    if i == 0 {
      assert Keys(segs[..0]) == [];
    } else {
      ParamsNamed(segs[1..], i - 1);
      assert segs[1..][..i - 1] == segs[..i][1..];
      assert Keys(segs[..i])[1..] == Keys(segs[1..][..i - 1]);
      assert Keys(segs[..i])[0] == KeyOf(segs[0]);
    }
  }

  /** A literal pattern is keyed by its own segments and has no parameters. */
  lemma {:induction false} LiteralKeys(segs: seq<string>)
    requires Literal(segs)
    ensures Keys(segs) == segs && Params(segs) == []
  {
    if segs != [] {
      LiteralKeys(segs[1..]);
    }
  }

  /** Every key path from the root to the end of ks. */
  function Prefixes(ks: seq<string>): (ps: set<seq<string>>)
    ensures forall i :: 0 <= i <= |ks| ==> ks[..i] in ps
  {
    set i | 0 <= i <= |ks| :: ks[..i]
  }

  /** The empty key path has itself as its only prefix. */
  lemma PrefixesEmpty()
    ensures Prefixes([]) == {[]}
  {
    var empty: seq<string> := [];
    assert empty[..0] == empty;
  }

  /** Extending a key path by one key adds one prefix. */
  lemma PrefixesSnoc(ks: seq<string>, k: string)
    ensures Prefixes(ks + [k]) == Prefixes(ks) + {ks + [k]}
  {
    var ks' := ks + [k];
    forall p | p in Prefixes(ks')
      ensures p in Prefixes(ks) + {ks'}
    {
      assert p == ks'[..|p|];
      if |p| <= |ks| {
        assert p == ks[..|p|];
        assert ks[..|p|] in Prefixes(ks);
      } else {
        assert p == ks';
      }
    }
    forall p | p in Prefixes(ks)
      ensures p in Prefixes(ks')
    {
      assert p == ks'[..|p|];
      assert ks'[..|p|] in Prefixes(ks');
    }
    assert ks'[..|ks'|] == ks';
  }

  /** What the walk does with a segment at node at: the exact child, the wildcard child, or neither. */
  datatype Step = Exact | Fallback | NoChild

  function StepAt(shape: set<seq<string>>, at: seq<string>, seg: string): Step
  {
    if at + [seg] in shape then Exact
    else if at + [Wildcard] in shape then Fallback
    else NoChild
  }

  /** The state of a walk when it stops: stuck, or at the end of the path. */
  datatype Walked<E> = Stuck(values: seq<string>) | Reached(values: seq<string>, entry: Option<E>)

  /** The entry at p if there is one, else the entry seen before. */
  function EntryAt<E>(entries: map<seq<string>, E>, p: seq<string>, seen: Option<E>): Option<E>
  {
    if p in entries then Some(entries[p]) else seen
  }

  /**
   * The lookup walk, one segment at a time from node at: follow the exact
   * child, else follow the wildcard child and capture the segment, else stop
   * stuck; every node with an entry replaces the entry seen so far.
   */
  function Walk<E>(shape: set<seq<string>>, entries: map<seq<string>, E>, at: seq<string>,
                   segs: seq<string>, values: seq<string>, seen: Option<E>): Walked<E>
    decreases |segs|
  {
    if segs == [] then Reached(values, seen)
    else
      match StepAt(shape, at, segs[0])
      case NoChild => Stuck(values)
      case Exact =>
        var next := at + [segs[0]];
        Walk(shape, entries, next, segs[1..], values, EntryAt(entries, next, seen))
      case Fallback =>
        var next := at + [Wildcard];
        Walk(shape, entries, next, segs[1..], values + [segs[0]], EntryAt(entries, next, seen))
  }

  /**
   * The walk only appends to the values it was given, at most one per
   * segment, and once it has passed an entry it reaches the end with one
   * or gets stuck.
   */
  lemma {:induction false} WalkValues<E>(shape: set<seq<string>>, entries: map<seq<string>, E>, at: seq<string>,
                                         segs: seq<string>, values: seq<string>, seen: Option<E>)
    ensures var w := Walk(shape, entries, at, segs, values, seen);
            && |values| <= |w.values| <= |values| + |segs| && w.values[..|values|] == values
            && (w.Reached? && seen.Some? ==> w.entry.Some?)
    decreases |segs|
  {
    if segs != [] {
      match StepAt(shape, at, segs[0])
      case NoChild =>
      case Exact =>
        var next := at + [segs[0]];
        WalkValues(shape, entries, next, segs[1..], values, EntryAt(entries, next, seen));
      case Fallback =>
        var next := at + [Wildcard];
        WalkValues(shape, entries, next, segs[1..], values + [segs[0]], EntryAt(entries, next, seen));
        assert (values + [segs[0]])[..|values|] == values;
    }
  }

  /** Lookup captures at most one value per segment of the cleaned request path. */
  lemma LookupValues<E>(shape: set<seq<string>>, entries: map<seq<string>, E>, path: string)
    ensures |Lookup(shape, entries, path).values| <= |Segments(CleanPath(path))|
  {
    WalkValues(shape, entries, [], Segments(CleanPath(path)), [], None);
  }

  /** A step to the exact child. */
  lemma WalkExact<E>(shape: set<seq<string>>, entries: map<seq<string>, E>, at: seq<string>,
                     s: string, rest: seq<string>, values: seq<string>, seen: Option<E>)
    requires at + [s] in shape
    ensures Walk(shape, entries, at, [s] + rest, values, seen) ==
            Walk(shape, entries, at + [s], rest, values, EntryAt(entries, at + [s], seen))
  {
    assert ([s] + rest)[1..] == rest;
  }

  /** A step to the wildcard child, capturing the segment. */
  lemma WalkFallback<E>(shape: set<seq<string>>, entries: map<seq<string>, E>, at: seq<string>,
                        s: string, rest: seq<string>, values: seq<string>, seen: Option<E>)
    requires at + [s] !in shape && at + [Wildcard] in shape
    ensures Walk(shape, entries, at, [s] + rest, values, seen) ==
            Walk(shape, entries, at + [Wildcard], rest, values + [s], EntryAt(entries, at + [Wildcard], seen))
  {
    assert ([s] + rest)[1..] == rest;
  }

  /** No child to step to: the walk is stuck. */
  lemma WalkNoChild<E>(shape: set<seq<string>>, entries: map<seq<string>, E>, at: seq<string>,
                       s: string, rest: seq<string>, values: seq<string>, seen: Option<E>)
    requires at + [s] !in shape && at + [Wildcard] !in shape
    ensures Walk(shape, entries, at, [s] + rest, values, seen) == Stuck(values)
  {
  }

  /** What lookup returns for a walk: nil unless it reached the end having seen an entry. */
  function Found<E>(w: Walked<E>): Option<E>
  {
    if w.Reached? then w.entry else None
  }

  /** The whole lookup of a request path from the root, with nothing captured yet. */
  function Lookup<E>(shape: set<seq<string>>, entries: map<seq<string>, E>, path: string): Walked<E>
  {
    Walk(shape, entries, [], Segments(CleanPath(path)), [], None)
  }

  /**
   * ks is the key path the walk takes for segs from at: at each step the
   * segment itself if that child exists, otherwise the wildcard, and the
   * node reached exists.
   */
  ghost predicate IsRoute(shape: set<seq<string>>, at: seq<string>, segs: seq<string>, ks: seq<string>)
  {
    |ks| == |segs| && forall i :: 0 <= i < |ks| ==> RouteStep(shape, at, segs, ks, i)
  }

  /** Step i of a route: the key chosen for segs[i] and the node it leads to. */
  ghost predicate RouteStep(shape: set<seq<string>>, at: seq<string>, segs: seq<string>, ks: seq<string>, i: nat)
    requires i < |ks| == |segs|
  {
    at + ks[..i + 1] in shape &&
    ks[i] == (if at + ks[..i] + [segs[i]] in shape then segs[i] else Wildcard)
  }

  /** The segments the walk captured along the key path ks: those the key differs from. */
  function Captures(segs: seq<string>, ks: seq<string>): seq<string>
    requires |segs| == |ks|
  {
    if segs == [] then []
    else (if ks[0] != segs[0] then [segs[0]] else []) + Captures(segs[1..], ks[1..])
  }

  /** Taking the first step off a route leaves a route from the child. */
  lemma RouteTail(shape: set<seq<string>>, at: seq<string>, segs: seq<string>, ks: seq<string>)
    requires IsRoute(shape, at, segs, ks) && segs != []
    ensures at + [ks[0]] in shape
    ensures ks[0] == (if at + [segs[0]] in shape then segs[0] else Wildcard)
    ensures IsRoute(shape, at + [ks[0]], segs[1..], ks[1..])
  {
    assert RouteStep(shape, at, segs, ks, 0);
    assert at + ks[..1] == at + [ks[0]];
    assert at + ks[..0] == at;
    forall i | 0 <= i < |ks| - 1
      ensures RouteStep(shape, at + [ks[0]], segs[1..], ks[1..], i)
    {
      assert RouteStep(shape, at, segs, ks, i + 1);
      assert at + [ks[0]] + ks[1..][..i + 1] == at + ks[..i + 2];
      assert at + [ks[0]] + ks[1..][..i] == at + ks[..i + 1];
    }
  }

  /** Two routes for the same segments are the same: the walk is deterministic. */
  lemma {:induction false} RouteUnique(shape: set<seq<string>>, at: seq<string>, segs: seq<string>, ks1: seq<string>, ks2: seq<string>)
    requires IsRoute(shape, at, segs, ks1) && IsRoute(shape, at, segs, ks2)
    decreases |segs|
    ensures ks1 == ks2
  {
    if segs != [] {
      RouteTail(shape, at, segs, ks1);
      RouteTail(shape, at, segs, ks2);
      RouteUnique(shape, at + [ks1[0]], segs[1..], ks1[1..], ks2[1..]);
      assert ks1 == [ks1[0]] + ks1[1..];
      assert ks2 == [ks2[0]] + ks2[1..];
    }
  }

  /** The walk's first step along a route: follow ks[0], capturing the segment if it differs. */
  lemma WalkStep<E>(shape: set<seq<string>>, entries: map<seq<string>, E>, at: seq<string>,
                    segs: seq<string>, ks: seq<string>, values: seq<string>, seen: Option<E>)
    requires IsRoute(shape, at, segs, ks) && segs != []
    ensures Walk(shape, entries, at, segs, values, seen) ==
            Walk(shape, entries, at + [ks[0]], segs[1..],
                 values + (if ks[0] != segs[0] then [segs[0]] else []), EntryAt(entries, at + [ks[0]], seen))
  {
    RouteTail(shape, at, segs, ks);
    if at + [segs[0]] in shape {
      assert values + [] == values;
    } else {
      assert segs[0] != Wildcard;
    }
  }

  /** No entry on the path below at along ks means none below its first step either. */
  lemma NoEntryBelow<E>(entries: map<seq<string>, E>, at: seq<string>, ks: seq<string>)
    requires ks != [] && forall j :: 1 <= j <= |ks| ==> at + ks[..j] !in entries
    ensures forall j :: 1 <= j <= |ks[1..]| ==> (at + [ks[0]]) + ks[1..][..j] !in entries
  {
    forall j | 1 <= j <= |ks[1..]|
      ensures (at + [ks[0]]) + ks[1..][..j] !in entries
    {
      assert (at + [ks[0]]) + ks[1..][..j] == at + ks[..j + 1];
    }
  }

  /** Along a route with no entry, the walk ends where it started as to the entry seen. */
  lemma {:induction false} WalkNoEntry<E>(shape: set<seq<string>>, entries: map<seq<string>, E>, at: seq<string>,
                                          segs: seq<string>, ks: seq<string>, values: seq<string>, seen: Option<E>)
    requires IsRoute(shape, at, segs, ks)
    requires forall j :: 1 <= j <= |ks| ==> at + ks[..j] !in entries
    decreases |segs|
    ensures Walk(shape, entries, at, segs, values, seen) == Reached(values + Captures(segs, ks), seen)
  {
    if segs != [] {
      RouteTail(shape, at, segs, ks);
      var next := at + [ks[0]];
      assert at + ks[..1] == next;
      var values' := values + (if ks[0] != segs[0] then [segs[0]] else []);
      NoEntryBelow(entries, at, ks);
      assert next !in entries;
      WalkStep(shape, entries, at, segs, ks, values, seen);
      WalkNoEntry(shape, entries, next, segs[1..], ks[1..], values', seen);
      ConcatAssoc(values, if ks[0] != segs[0] then [segs[0]] else [], Captures(segs[1..], ks[1..]));
    }
  }

  /**
   * Along a route, the walk returns the entry of the deepest node carrying
   * one, with every fallback segment captured.
   */
  lemma {:induction false} WalkDeepest<E>(shape: set<seq<string>>, entries: map<seq<string>, E>, at: seq<string>,
                                          segs: seq<string>, ks: seq<string>, values: seq<string>, seen: Option<E>, i: nat)
    requires IsRoute(shape, at, segs, ks)
    requires 1 <= i <= |ks| && at + ks[..i] in entries
    requires forall j :: i < j <= |ks| ==> at + ks[..j] !in entries
    decreases |segs|
    ensures Walk(shape, entries, at, segs, values, seen) ==
            Reached(values + Captures(segs, ks), Some(entries[at + ks[..i]]))
  {
    RouteTail(shape, at, segs, ks);
    var next := at + [ks[0]];
    assert at + ks[..1] == next;
    var values' := values + (if ks[0] != segs[0] then [segs[0]] else []);
    assert values' + Captures(segs[1..], ks[1..]) == values + Captures(segs, ks);
    forall j | 1 <= j <= |ks[1..]|
      ensures next + ks[1..][..j] == at + ks[..j + 1]
    {
    }
    WalkStep(shape, entries, at, segs, ks, values, seen);
    if i == 1 {
      WalkNoEntry(shape, entries, next, segs[1..], ks[1..], values', EntryAt(entries, next, seen));
    } else {
      WalkDeepest(shape, entries, next, segs[1..], ks[1..], values', EntryAt(entries, next, seen), i - 1);
    }
  }

  /** The keys the walk takes from at until it reaches the end of segs or gets stuck. */
  function Trail(shape: set<seq<string>>, at: seq<string>, segs: seq<string>): (ks: seq<string>)
    decreases |segs|
    ensures |ks| <= |segs|
  {
    if segs == [] then []
    else
      match StepAt(shape, at, segs[0])
      case NoChild => []
      case Exact => [segs[0]] + Trail(shape, at + [segs[0]], segs[1..])
      case Fallback => [Wildcard] + Trail(shape, at + [Wildcard], segs[1..])
  }

  /** A first step followed by a route from the child is a route. */
  lemma RouteCons(shape: set<seq<string>>, at: seq<string>, s: string, k: string, segs: seq<string>, ks: seq<string>)
    requires at + [k] in shape
    requires k == (if at + [s] in shape then s else Wildcard)
    requires IsRoute(shape, at + [k], segs, ks)
    ensures IsRoute(shape, at, [s] + segs, [k] + ks)
  {
    var segs', ks' := [s] + segs, [k] + ks;
    forall i | 0 <= i < |ks'|
      ensures RouteStep(shape, at, segs', ks', i)
    {
      if i == 0 {
        assert at + ks'[..1] == at + [k];
        assert at + ks'[..0] == at;
      } else {
        assert RouteStep(shape, at + [k], segs, ks, i - 1);
        assert at + ks'[..i + 1] == at + [k] + ks[..i];
        assert at + ks'[..i] == at + [k] + ks[..i - 1];
      }
    }
  }

  /**
   * The trail is a route for the segments it covers, and when it stops short
   * the next segment has neither an exact nor a wildcard child.
   */
  lemma {:induction false} TrailIsRoute(shape: set<seq<string>>, at: seq<string>, segs: seq<string>)
    decreases |segs|
    ensures IsRoute(shape, at, segs[..|Trail(shape, at, segs)|], Trail(shape, at, segs))
    ensures |Trail(shape, at, segs)| < |segs| ==>
              StepAt(shape, at + Trail(shape, at, segs), segs[|Trail(shape, at, segs)|]) == NoChild
  {
    var t := Trail(shape, at, segs);
    if segs != [] && StepAt(shape, at, segs[0]) != NoChild {
      var k := if StepAt(shape, at, segs[0]) == Exact then segs[0] else Wildcard;
      TrailIsRoute(shape, at + [k], segs[1..]);
      var rest := Trail(shape, at + [k], segs[1..]);
      assert t == [k] + rest;
      assert segs[..|t|] == [segs[0]] + segs[1..][..|rest|];
      RouteCons(shape, at, segs[0], k, segs[1..][..|rest|], rest);
      if |t| < |segs| {
        assert segs[|t|] == segs[1..][|rest|];
        assert at + t == at + [k] + rest;
      }
    } else if segs != [] {
      assert at + t == at;
    }
  }

  /**
   * The walk gets stuck exactly when its trail stops short of the path, and
   * then lookup returns nil whatever entries the walk passed on the way.
   */
  lemma {:induction false} WalkStuckIff<E>(shape: set<seq<string>>, entries: map<seq<string>, E>, at: seq<string>,
                                           segs: seq<string>, values: seq<string>, seen: Option<E>)
    decreases |segs|
    ensures Walk(shape, entries, at, segs, values, seen).Stuck? <==> |Trail(shape, at, segs)| < |segs|
    ensures |Trail(shape, at, segs)| < |segs| ==> Found(Walk(shape, entries, at, segs, values, seen)) == None
  {
    if segs != [] {
      match StepAt(shape, at, segs[0])
      case NoChild =>
      case Exact =>
        var next := at + [segs[0]];
        WalkStuckIff(shape, entries, next, segs[1..], values, EntryAt(entries, next, seen));
      case Fallback =>
        var next := at + [Wildcard];
        WalkStuckIff(shape, entries, next, segs[1..], values + [segs[0]], EntryAt(entries, next, seen));
    }
  }

  /** Along a route, a segment is captured exactly when its key is the wildcard, unless the segment is "*" itself. */
  lemma {:induction false} CapturesCount(shape: set<seq<string>>, at: seq<string>, segs: seq<string>, ks: seq<string>)
    requires IsRoute(shape, at, segs, ks)
    requires forall i :: 0 <= i < |segs| ==> segs[i] != Wildcard
    decreases |segs|
    ensures |Captures(segs, ks)| == CountWild(ks)
  {
    if segs != [] {
      RouteTail(shape, at, segs, ks);
      CapturesCount(shape, at + [ks[0]], segs[1..], ks[1..]);
    }
  }

  /** Along a route that follows only exact children, nothing is captured. */
  lemma {:induction false} CapturesOfSelf(segs: seq<string>)
    ensures Captures(segs, segs) == []
  {
    if segs != [] {
      CapturesOfSelf(segs[1..]);
    }
  }

  /** A path all of whose key prefixes are nodes is its own route: exact children win over the wildcard. */
  lemma {:induction false} ExactRoute(shape: set<seq<string>>, segs: seq<string>)
    requires Prefixes(segs) <= shape
    ensures IsRoute(shape, [], segs, segs)
  {
    forall i | 0 <= i < |segs|
      ensures RouteStep(shape, [], segs, segs, i)
    {
      assert [] + segs[..i] + [segs[i]] == segs[..i + 1];
      assert [] + segs[..i + 1] == segs[..i + 1];
    }
  }

  /**
   * A request path whose segments are a registered key path with an entry
   * finds that entry, with nothing captured, whatever else is registered.
   */
  lemma RegisteredPathFound<E>(shape: set<seq<string>>, entries: map<seq<string>, E>, path: string)
    requires Prefixes(Segments(CleanPath(path))) <= shape
    requires Segments(CleanPath(path)) in entries
    ensures Lookup(shape, entries, path) == Reached([], Some(entries[Segments(CleanPath(path))]))
  {
    var segs := Segments(CleanPath(path));
    ExactRoute(shape, segs);
    assert [] + segs[..|segs|] == segs;
    WalkDeepest(shape, entries, [], segs, segs, [], None, |segs|);
    CapturesOfSelf(segs);
  }

  /**
   * A route along a pattern's own key path, for segments none of which is
   * "*", captures one value per parameter name of the pattern.
   */
  lemma CapturesMatchParams(shape: set<seq<string>>, segs: seq<string>, pattern: string)
    requires IsRoute(shape, [], segs, PatternKeys(pattern)) && Wildcard !in segs
    ensures |Captures(segs, PatternKeys(pattern))| == |PatternParams(pattern)|
  {
    CapturesCount(shape, [], segs, PatternKeys(pattern));
    ParamsCount(Segments(CleanPath(pattern)));
  }

  /**
   * When the walk follows a child for each of a non-empty sequence of
   * segments and ends on a node with an entry, it returns that entry with
   * the captures of its trail.
   */
  lemma {:induction false} TrailFound<E>(shape: set<seq<string>>, entries: map<seq<string>, E>, segs: seq<string>, t: seq<string>)
    requires segs != [] && t == Trail(shape, [], segs) && |t| == |segs| && t in entries
    ensures Walk(shape, entries, [], segs, [], None) == Reached(Captures(segs, t), Some(entries[t]))
  {
    TrailIsRoute(shape, [], segs);
    assert segs[..|t|] == segs;
    TrailEntry(entries, t);
    WalkDeepest(shape, entries, [], segs, t, [], None, |t|);
    assert [] + Captures(segs, t) == Captures(segs, t);
  }

  /** The entry at the end of a non-empty key path t, seen from the root. */
  lemma TrailEntry<E>(entries: map<seq<string>, E>, t: seq<string>)
    requires t in entries
    ensures [] + t[..|t|] in entries && entries[[] + t[..|t|]] == entries[t]
  {
    assert [] + t[..|t|] == t;
  }

  /**
   * A literal pattern registered in the trie is found by the request path
   * equal to it.
   */
  lemma LiteralPatternFound<E>(shape: set<seq<string>>, entries: map<seq<string>, E>, pattern: string)
    requires Literal(Segments(CleanPath(pattern)))
    requires Prefixes(PatternKeys(pattern)) <= shape && PatternKeys(pattern) in entries
    ensures Lookup(shape, entries, pattern) == Reached([], Some(entries[PatternKeys(pattern)]))
  {
    LiteralKeys(Segments(CleanPath(pattern)));
    RegisteredPathFound(shape, entries, pattern);
  }
}
