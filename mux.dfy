/**
 * The request multiplexer of mux.go: a tree of nodes keyed by path
 * segment, entries that bind HTTP methods to handlers, registration,
 * lookup, the match accessors and the handler choice of ServeHTTPErr.
 */
module Mux {
  import opened Wrappers
  import opened Paths
  import opened MethodSets
  import opened Routes

  /** A handler by identity; Nil is Go's nil Handler. */
  datatype Handler = Nil | Fn(id: nat)

  /** The configuration errors registration panics with. */
  datatype Panic =
    | EmptyMethodSet
    | InvalidPattern
    | NilHandler
    | MultipleRegistrations(httpMethod: string, pattern: string)

  /** What ServeHTTPErr does with a request. */
  datatype Outcome =
    | ErrMuxNotFound            // returned to the error handler
    | NoContent(allow: string)  // 204 with this Allow header
    | Serve(handler: Handler)   // the handler is invoked and its error returned unchanged

  /** The methods cache after binding m: m itself, and HEAD along with GET. */
  function CacheAdd(ms: MethodSet, m: string): (c: MethodSet)
    ensures forall x :: x in c <==> x in ms || x == m || (m == GET && x == HEAD)
    ensures |ms| <= |c| && c[..|ms|] == ms
    ensures NoDup(ms) ==> NoDup(c)
    ensures Has(ms, m) && (m != GET || Has(ms, HEAD)) ==> c == ms
    ensures !Has(ms, m) && (m != GET || Has(ms, HEAD)) ==> c == ms + [m]
    ensures m == GET && !Has(ms, GET) && !Has(ms, HEAD) ==> c == ms + [GET, HEAD]
    ensures m == GET && Has(ms, GET) && !Has(ms, HEAD) ==> c == ms + [HEAD]
  {
    var ms' := Add(ms, m);
    if m == GET && !Has(ms', HEAD) then Add(ms', HEAD) else ms'
  }

  /** The methods cache after binding each of ms in turn. */
  function CacheAddAll(cache: MethodSet, ms: seq<string>): MethodSet
  {
    if ms == [] then cache else CacheAdd(CacheAddAll(cache, ms[..|ms| - 1]), ms[|ms| - 1])
  }

  /** The handler table after binding each of ms in turn to h. */
  function BindAll(handlers: map<string, Handler>, ms: seq<string>, h: Handler): (r: map<string, Handler>)
    ensures forall m :: m in r <==> m in handlers || m in ms
    ensures forall m :: m in r ==> r[m] == if m in ms then h else handlers[m]
  {
    if ms == [] then handlers else BindAll(handlers, ms[..|ms| - 1], h)[ms[|ms| - 1] := h]
  }

  /**
   * The index of the first method of ms that is bound already or repeats an
   * earlier one, where setHandler panics; |ms| if there is none.
   */
  function FirstConflict(bound: set<string>, ms: seq<string>): (c: nat)
    decreases |ms|
    ensures c <= |ms|
    ensures forall i :: 0 <= i < c ==> ms[i] !in bound && ms[i] !in ms[..i]
    ensures c < |ms| ==> ms[c] in bound || ms[c] in ms[..c]
  {
    if ms == [] then 0
    else if ms[0] in bound then 0
    else
      var c := 1 + FirstConflict(bound + {ms[0]}, ms[1..]);
      assert forall i :: 1 <= i <= |ms| ==> ms[..i] == [ms[0]] + ms[1..][..i - 1];
      c
  }

  /** Below the first conflict, the method at i is the conflict exactly when it is bound or repeats. */
  lemma FirstConflictStep(bound: set<string>, ms: seq<string>, i: nat)
    requires i <= FirstConflict(bound, ms) && i < |ms|
    ensures FirstConflict(bound, ms) == i <==> ms[i] in bound || ms[i] in ms[..i]
  {
  }

  /** Binding the method at i, below the first conflict: it conflicts exactly there, else both tables grow by it. */
  lemma BindStep(h0: map<string, Handler>, m0: MethodSet, ms: seq<string>, i: nat, h: Handler)
    requires i < |ms| && i <= FirstConflict(h0.Keys, ms)
    ensures ms[i] in BindAll(h0, ms[..i], h) <==> i == FirstConflict(h0.Keys, ms)
    ensures BindAll(h0, ms[..i + 1], h) == BindAll(h0, ms[..i], h)[ms[i] := h]
    ensures CacheAddAll(m0, ms[..i + 1]) == CacheAdd(CacheAddAll(m0, ms[..i]), ms[i])
  {
    FirstConflictStep(h0.Keys, ms, i);
    BindAllIn(h0, ms[..i], h, ms[i]);
    BindAllSnoc(h0, ms, i, h);
    CacheAddAllSnoc(m0, ms, i);
  }

  /** Binding the prefix of length i + 1 is binding the prefix of length i, then the method at i. */
  lemma BindAllSnoc(h0: map<string, Handler>, ms: seq<string>, i: nat, h: Handler)
    requires i < |ms|
    ensures BindAll(h0, ms[..i + 1], h) == BindAll(h0, ms[..i], h)[ms[i] := h]
  {
    PrefixSnoc(ms, i);
  }

  /** Caching the prefix of length i + 1 is caching the prefix of length i, then the method at i. */
  lemma CacheAddAllSnoc(m0: MethodSet, ms: seq<string>, i: nat)
    requires i < |ms|
    ensures CacheAddAll(m0, ms[..i + 1]) == CacheAdd(CacheAddAll(m0, ms[..i]), ms[i])
  {
    PrefixSnoc(ms, i);
  }

  /** A method is bound after binding ms exactly when it was bound before or is one of ms. */
  lemma BindAllIn(h0: map<string, Handler>, ms: seq<string>, h: Handler, m: string)
    ensures m in BindAll(h0, ms, h) <==> m in h0 || m in ms
  {
  }

  /** The prefix of length i + 1 is the prefix of length i and the element at i. */
  lemma PrefixSnoc(ms: seq<string>, i: nat)
    requires i < |ms|
    ensures ms[..i + 1] != [] && ms[..i + 1][..i] == ms[..i] && ms[..i + 1][i] == ms[i]
  {
  }

  /** The handler bound to m, or nil. */
  function HandlerIn(handlers: map<string, Handler>, m: string): (h: Handler)
    ensures h != Nil ==> m in handlers && handlers[m] == h
    ensures m !in handlers ==> h == Nil
    ensures m in handlers ==> h == handlers[m]
  {
    if m in handlers then handlers[m] else Nil
  }

  /**
   * The choice ServeHTTPErr makes once a route matched: the handler for the
   * request method; for HEAD without one, the GET handler; for OPTIONS
   * without one, 204 with the allowed methods; otherwise not found.
   */
  function SelectHandler(reqMethod: string, handlers: map<string, Handler>, allowed: MethodSet): (d: Outcome)
    ensures d.Serve? <==> HandlerIn(handlers, reqMethod) != Nil ||
                          (reqMethod == HEAD && HandlerIn(handlers, GET) != Nil)
    ensures d.Serve? ==> d.handler != Nil &&
                         d.handler == (if HandlerIn(handlers, reqMethod) != Nil then HandlerIn(handlers, reqMethod)
                                       else HandlerIn(handlers, GET))
    ensures d.NoContent? <==> reqMethod == OPTIONS && HandlerIn(handlers, OPTIONS) == Nil
    ensures d.NoContent? ==> d.allow == String(allowed)
  {
    var h := HandlerIn(handlers, reqMethod);
    var h := if h == Nil && reqMethod == HEAD then HandlerIn(handlers, GET) else h;
    if h == Nil && reqMethod == OPTIONS then NoContent(String(allowed))
    else if h == Nil then ErrMuxNotFound
    else Serve(h)
  }

  /**
   * The state of an entry of pattern holding handlers h0 and cache m0 after
   * setHandler of handler for each of ms in turn, stopping at the first
   * method bound already: the methods before it are bound and cached, and
   * err is that method's panic, or none when there is no such method.
   */
  ghost predicate BoundFrom(handlers: map<string, Handler>, cache: MethodSet, err: Option<Panic>,
                            h0: map<string, Handler>, m0: MethodSet, ms: seq<string>, handler: Handler, pattern: string)
  {
    var c := FirstConflict(h0.Keys, ms);
    && (err.Some? <==> c < |ms|)
    && (err.Some? ==> err.value == MultipleRegistrations(ms[c], pattern))
    && handlers == BindAll(h0, ms[..c], handler)
    && cache == CacheAddAll(m0, ms[..c])
  }

  /** muxEntry: a pattern's handlers by method and the cache of allowed methods. */
  class MuxEntry {
    const pattern: string
    const params: seq<string>
    var handlers: map<string, Handler>
    var methods: MethodSet

    /** The cache lists each method once, always OPTIONS, every bound method, and HEAD once GET is bound. */
    ghost predicate Valid()
      reads this
    {
      NoDup(methods) && Has(methods, OPTIONS) &&
      (forall m :: m in handlers ==> Has(methods, m)) &&
      (GET in handlers ==> Has(methods, HEAD))
    }

    /** A new entry answers OPTIONS only. */
    constructor (pattern: string, params: seq<string>)
      ensures this.pattern == pattern && this.params == params
      ensures handlers == map[] && methods == [OPTIONS]
      ensures Valid()
    {
      var ms := MethodSets.Methods([OPTIONS]);
      assert [OPTIONS][..0] == [];
      this.pattern := pattern;
      this.params := params;
      handlers := map[];
      methods := ms;
    }

    /**
     * setHandler: bind httpMethod to handler and add it to the cache, adding
     * HEAD to the cache (but not to the handlers) for GET; panic if the
     * method is bound already.
     */
    method SetHandler(httpMethod: string, handler: Handler) returns (err: Option<Panic>)
      requires Valid()
      modifies this
      ensures Valid()
      ensures err.Some? <==> httpMethod in old(handlers)
      ensures err.Some? ==> err.value == MultipleRegistrations(httpMethod, pattern) &&
                            handlers == old(handlers) && methods == old(methods)
      ensures err.None? ==> handlers == old(handlers)[httpMethod := handler] &&
                            methods == CacheAdd(old(methods), httpMethod)
    {
      if httpMethod in handlers {
        return Some(MultipleRegistrations(httpMethod, pattern));
      }
      handlers := handlers[httpMethod := handler];
      methods := Add(methods, httpMethod);
      if httpMethod == GET && !Has(methods, HEAD) {
        methods := Add(methods, HEAD);
      }
      err := None;
    }
  }

  /** node: one node of the routing tree. */
  class Node {
    var children: map<string, Node>
    var entry: MuxEntry?
    /** The keys from the root to this node. */
    ghost const path: seq<string>

    constructor (ghost path: seq<string>)
      ensures children == map[] && entry == null && this.path == path
    {
      children := map[];
      entry := null;
      this.path := path;
    }

    /** addChild: set the child under key. */
    method AddChild(key: string, child: Node)
      modifies this
      ensures children == old(children)[key := child] && entry == old(entry)
    {
      children := children[key := child];
    }
  }

  function AsOption(e: MuxEntry?): Option<MuxEntry>
  {
    if e == null then None else Some(e)
  }

  /** MuxMatch: the entry a lookup found and the segments it captured. */
  class MuxMatch {
    var entry: MuxEntry?
    var values: seq<string>

    constructor ()
      ensures entry == null && values == []
    {
      entry := null;
      values := [];
    }

    /** Reset: clear the match for reuse. */
    method Reset()
      modifies this
      ensures entry == null && values == []
    {
      entry := null;
      values := [];
    }

    /** Pattern: the matched pattern's raw text, or "". */
    function Pattern(): (p: string)
      reads this
      ensures entry == null ==> p == ""
      ensures entry != null ==> p == entry.pattern
    {
      if entry == null then "" else entry.pattern
    }

    /** Params: the matched pattern's parameter names, or none. */
    function Params(): (ps: seq<string>)
      reads this
      ensures entry == null ==> ps == []
      ensures entry != null ==> ps == entry.params
    {
      if entry == null then [] else entry.params
    }

    /** Methods: the methods the matched entry answers, or the empty set. */
    function Methods(): (ms: MethodSet)
      reads this, entry
      ensures entry == null ==> ms == []
      ensures entry != null ==> ms == entry.methods
    {
      if entry == null then [] else entry.methods
    }

    /** Handler: the handler bound to httpMethod, or nil. */
    function Handler(httpMethod: string): (h: Handler)
      reads this, entry
      ensures entry == null ==> h == Nil
      ensures entry != null ==> h == HandlerIn(entry.handlers, httpMethod)
    {
      if entry == null then Nil else HandlerIn(entry.handlers, httpMethod)
    }

    /**
     * Param: the value captured for the first parameter called name, or ""
     * when there is no entry or no such parameter. The caller must make sure
     * the value exists: the lookup does not capture a segment that is
     * literally "*", and then there are fewer values than names.
     */
    method Param(name: string) returns (v: string)
      requires entry != null && name in entry.params ==> IndexOf(entry.params, name) < |values|
      ensures entry == null ==> v == ""
      ensures entry != null && name in entry.params ==> v == values[IndexOf(entry.params, name)]
      ensures entry != null && name !in entry.params ==> v == ""
    {
      if entry == null {
        return "";
      }
      var params := entry.params;
      for i := 0 to |params|
        invariant name !in params[..i]
      {
        if params[i] == name {
          return values[i];
        }
      }
      assert params[..|params|] == params;
      return "";
    }
  }

  /** The child of the node at p under k, if any, is the node at p + [k]. */
  ghost predicate ChildAt(T: map<seq<string>, Node>, K: map<seq<string>, map<string, Node>>, p: seq<string>, k: string)
  {
    p in K && k in K[p] ==> p + [k] in T && T[p + [k]] == K[p][k]
  }

  /** The node at p + [k], if any, hangs under k below the node at p. */
  ghost predicate ParentAt(T: map<seq<string>, Node>, K: map<seq<string>, map<string, Node>>, p: seq<string>, k: string)
  {
    p + [k] in T ==> p in K && k in K[p]
  }

  /**
   * The nodes T by key path and their children maps K agree: the child of
   * the node at p under k is the node at p + [k], and every node but the
   * root hangs under the node one key shorter. The two quantifiers fire
   * only where a proof names ChildAt or ParentAt.
   */
  ghost predicate Linked(T: map<seq<string>, Node>, K: map<seq<string>, map<string, Node>>)
  {
    && T.Keys == K.Keys
    && (forall p, k {:trigger ChildAt(T, K, p, k)} :: ChildAt(T, K, p, k))
    && (forall p, k {:trigger ParentAt(T, K, p, k)} :: ParentAt(T, K, p, k))
  }

  /** A lone root is a linked tree. */
  lemma LinkedRoot(r: Node)
    ensures Linked(map[[] := r], map[[] := map[]])
  {
    forall p: seq<string>, k: string
      ensures ParentAt(map[[] := r], map[[] := map[]], p, k)
    {
      assert |p + [k]| == |p| + 1;
    }
  }

  /** Hanging a new node under key below the node at at keeps the tree linked. */
  lemma LinkedGrow(T: map<seq<string>, Node>, K: map<seq<string>, map<string, Node>>, at: seq<string>, key: string, n: Node)
    requires Linked(T, K) && at in T && at + [key] !in T
    ensures Linked(T[at + [key] := n], K[at := K[at][key := n]][at + [key] := map[]])
  {
    var q := at + [key];
    var T', K' := T[q := n], K[at := K[at][key := n]][q := map[]];
    forall p, k
      ensures ChildAt(T', K', p, k)
    {
      if p in K' && k in K'[p] && !(p == at && k == key) {
        assert p != q && ChildAt(T, K, p, k);
      }
    }
    forall p, k
      ensures ParentAt(T', K', p, k)
    {
      if p + [k] == q {
        assert (p + [k])[..|p|] == p && q[..|at|] == at;
      } else if p + [k] in T' {
        assert ParentAt(T, K, p, k) && q !in K;
      }
    }
  }

  /** The node at p in T, if any, knows its key path and carries the children K and entry E recorded for p. */
  ghost predicate NodeAt(T: map<seq<string>, Node>, K: map<seq<string>, map<string, Node>>,
                         E: map<seq<string>, MuxEntry?>, p: seq<string>)
    reads T.Values
  {
    p in T ==>
      && T[p].path == p && p in K && p in E
      && T[p].children == K[p] && T[p].entry == E[p]
  }

  /** Every node of T agrees with K and E; the quantifier fires only where a proof names NodeAt. */
  ghost predicate Mirrored(T: map<seq<string>, Node>, K: map<seq<string>, map<string, Node>>, E: map<seq<string>, MuxEntry?>)
    reads T.Values
  {
    forall p {:trigger NodeAt(T, K, E, p)} :: NodeAt(T, K, E, p)
  }

  /** T keeps every node of t0 at its key path. */
  ghost predicate Kept(T: map<seq<string>, Node>, t0: map<seq<string>, Node>)
  {
    forall p | p in t0 :: p in T && T[p] == t0[p]
  }

  /** Every node of born was allocated since the previous state. */
  twostate predicate AllFresh(new born: set<Node>)
  {
    forall n | n in born :: fresh(n)
  }

  /** Adding a node allocated since the previous state keeps AllFresh. */
  twostate lemma FreshGrow(new born: set<Node>, new n: Node)
    requires AllFresh(born) && fresh(n)
    ensures AllFresh(born + {n})
  {
  }

  /** Every node T has at a key path not in t0 is among born. */
  ghost predicate BornIn(T: map<seq<string>, Node>, t0: map<seq<string>, Node>, born: set<Node>)
  {
    forall p | p in T && p !in t0 :: T[p] in born
  }

  /** Setting the node at q keeps BornIn when q is in t0 or the node is among born. */
  lemma BornStep(T: map<seq<string>, Node>, t0: map<seq<string>, Node>, born: set<Node>, q: seq<string>, n: Node)
    requires BornIn(T, t0, born) && (q !in t0 ==> n in born)
    ensures BornIn(T[q := n], t0, born)
  {
  }

  /** Setting the node at q keeps t0's nodes when q is new to t0 or gets t0's node. */
  lemma KeptSet(T: map<seq<string>, Node>, t0: map<seq<string>, Node>, q: seq<string>, n: Node)
    requires Kept(T, t0) && (q in t0 ==> n == t0[q])
    ensures Kept(T[q := n], t0)
  {
  }

  /** Setting the node at q adds q to the key paths. */
  lemma StoreKeys(T: map<seq<string>, Node>, q: seq<string>, n: Node)
    ensures T[q := n].Keys == T.Keys + {q}
  {
  }

  /** The non-nil values of m. */
  function Present(m: map<seq<string>, MuxEntry?>): map<seq<string>, MuxEntry>
  {
    map p | p in m && m[p] != null :: m[p]
  }

  /** A new key with a nil value adds no entry. */
  lemma PresentNull(m: map<seq<string>, MuxEntry?>, q: seq<string>)
    requires q !in m
    ensures Present(m[q := null]) == Present(m)
  {
  }

  /** Setting a non-nil value sets it among the entries. */
  lemma PresentSet(m: map<seq<string>, MuxEntry?>, q: seq<string>, e: MuxEntry)
    ensures Present(m[q := e]) == Present(m)[q := e]
  {
  }

  /** The entry at p, if any, sits at the key path of its pattern and carries that pattern's parameter names. */
  ghost predicate FitsAt(E: map<seq<string>, MuxEntry>, p: seq<string>)
  {
    p in E ==> PatternKeys(E[p].pattern) == p && E[p].params == PatternParams(E[p].pattern)
  }

  /** Every entry fits its key path; the quantifier fires only where a proof names FitsAt. */
  ghost predicate Registered(E: map<seq<string>, MuxEntry>)
  {
    forall p {:trigger FitsAt(E, p)} :: FitsAt(E, p)
  }

  /** An entry that fits its key path can be added. */
  lemma RegisteredSet(E: map<seq<string>, MuxEntry>, q: seq<string>, e: MuxEntry)
    requires Registered(E) && PatternKeys(e.pattern) == q && e.params == PatternParams(e.pattern)
    ensures Registered(E[q := e])
  {
    var E' := E[q := e];
    forall p
      ensures FitsAt(E', p)
    {
      assert FitsAt(E, p);
    }
  }

  /** Setting a key adds at most the new value to the values. */
  lemma ValuesSet(m: map<seq<string>, MuxEntry>, q: seq<string>, e: MuxEntry)
    ensures m[q := e].Values <= m.Values + {e}
  {
    forall x | x in m[q := e].Values
      ensures x in m.Values + {e}
    {
      var p :| p in m[q := e] && m[q := e][p] == x;
      if p != q {
        assert m[p] in m.Values;
      }
    }
  }

  /** Setting a key to the value it has changes nothing. */
  lemma PresentSame(m: map<seq<string>, MuxEntry?>, q: seq<string>)
    requires q in m && m[q] != null
    ensures Present(m)[q := m[q]] == Present(m)
  {
  }

  /**
   * ServeMux: the routing tree. Tree names every node by its key path from
   * the root, Kids and Ents hold the children map and the entry of each
   * node by key path, and Entries holds the entries; all four are ghost
   * and describe the pointer structure below root.
   */
  class ServeMux {
    const root: Node
    ghost var Tree: map<seq<string>, Node>
    ghost var Kids: map<seq<string>, map<string, Node>>
    ghost var Ents: map<seq<string>, MuxEntry?>
    ghost var Entries: set<MuxEntry>

    /** The nodes form a tree under root whose children maps agree with the key paths. */
    ghost predicate Shaped()
      reads this, Tree.Values
    {
      && [] in Tree && Tree[[]] == root
      && Ents.Keys == Tree.Keys
      && Linked(Tree, Kids)
      && Mirrored(Tree, Kids, Ents)
    }

    /**
     * The multiplexer's invariant: a well-shaped tree whose entries are
     * among Entries, each valid and sitting at the key path of its pattern.
     */
    ghost predicate Valid()
      reads this, Tree.Values, Entries
    {
      && Shaped()
      && Registered(EntryMap())
      && EntryMap().Values <= Entries
      && (forall e | e in Entries :: e.Valid())
    }

    /** The key paths of the tree's nodes. */
    ghost function Shape(): set<seq<string>>
      reads this
    {
      Tree.Keys
    }

    /** The entries of the tree, by key path. */
    ghost function EntryMap(): map<seq<string>, MuxEntry>
      reads this
    {
      Present(Ents)
    }

    /** NewMux: an empty tree. */
    constructor ()
      ensures Valid()
      ensures Shape() == {[]} && EntryMap() == map[] && Entries == {}
      ensures fresh(Tree.Values)
    {
      var r := new Node([]);
      root := r;
      Tree := map[[] := r];
      Kids := map[[] := map[]];
      Ents := map[[] := null];
      Entries := {};
      new;
      LinkedRoot(r);
      assert EntryMap() == map[];
    }

    /** Record a new node under key below the node at at in Tree, Kids and Ents. */
    ghost method Record(at: seq<string>, key: string, next: Node)
      requires Linked(Tree, Kids) && Ents.Keys == Tree.Keys && at in Tree && at + [key] !in Tree
      modifies this
      ensures Tree == old(Tree)[at + [key] := next] && Kids == old(Kids)[at := old(Kids)[at][key := next]][at + [key] := map[]]
      ensures Ents == old(Ents)[at + [key] := null] && Entries == old(Entries)
      ensures Linked(Tree, Kids) && Ents.Keys == Tree.Keys && EntryMap() == old(EntryMap())
    {
      LinkedGrow(Tree, Kids, at, key, next);
      PresentNull(Ents, at + [key]);
      Tree := Tree[at + [key] := next];
      Kids := Kids[at := Kids[at][key := next]][at + [key] := map[]];
      Ents := Ents[at + [key] := null];
    }

    /** One step of the registration walk: the child of current under key, created when missing. */
    method Descend(current: Node, ghost at: seq<string>, key: string) returns (next: Node)
      requires Shaped() && at in Tree && current == Tree[at]
      modifies this, current
      ensures Shaped()
      ensures Tree == old(Tree)[at + [key] := next] && Entries == old(Entries) && EntryMap() == old(EntryMap())
      ensures at + [key] in old(Tree) ==> next == old(Tree[at + [key]])
      ensures at + [key] !in old(Tree) ==> fresh(next)
    {
      if key in current.children {
        // addChild would set the same child again, which changes nothing
        next := current.children[key];
        assert NodeAt(Tree, Kids, Ents, at) && ChildAt(Tree, Kids, at, key);
        assert Tree == Tree[at + [key] := next];
      } else {
        next := AddNewChild(current, at, key);
      }
    }

    /** The missing child of current under key, created empty and added with addChild. */
    method AddNewChild(current: Node, ghost at: seq<string>, key: string) returns (next: Node)
      requires Shaped() && at in Tree && current == Tree[at] && key !in current.children
      modifies this, current
      ensures Shaped()
      ensures Tree == old(Tree)[at + [key] := next] && Entries == old(Entries) && EntryMap() == old(EntryMap())
      ensures at + [key] !in old(Tree) && fresh(next)
    {
      var q := at + [key];
      assert q !in Tree by {
        assert NodeAt(Tree, Kids, Ents, at) && ParentAt(Tree, Kids, at, key);
      }
      next := new Node(q);
      current.AddChild(key, next);
      Record(at, key, next);
      forall p
        ensures NodeAt(Tree, Kids, Ents, p)
      {
        if p == q {
          assert Tree[q] == next && next.path == q && Kids[q] == map[] && Ents[q] == null;
        } else if p == at {
          assert old(NodeAt(Tree, Kids, Ents, at));
          assert current.children == Kids[at] && current.entry == Ents[at];
        } else if p in Tree {
          assert old(NodeAt(Tree, Kids, Ents, p)) && old(NodeAt(Tree, Kids, Ents, at));
          assert Tree[p] == old(Tree[p]) != current;
        }
      }
    }

    /**
     * The state of the registration walk over the segments segs of a
     * pattern: Progress says how far it got, current is the node at key
     * path at, and the tree is the one it started from (t0, with the
     * entries e0) grown by the prefixes of at, with the same entries.
     */
    ghost predicate Walking(current: Node, path: string, params: seq<string>, at: seq<string>,
                            segs: seq<string>, i: nat, t0: map<seq<string>, Node>, e0: map<seq<string>, MuxEntry>)
      reads this, Tree.Values
    {
      && Shaped()
      && at in Tree && current == Tree[at]
      && Progress(segs, i, path, at, params)
      && Tree.Keys == t0.Keys + Prefixes(at)
      && Kept(Tree, t0)
      && EntryMap() == e0
    }

    /** One step of the registration walk: take the next segment off path and descend by its key. */
    method Advance(current: Node, path: string, params: seq<string>, ghost at: seq<string>,
                   ghost segs: seq<string>, ghost i: nat, ghost t0: map<seq<string>, Node>, ghost e0: map<seq<string>, MuxEntry>)
      returns (next: Node, path': string, params': seq<string>, ghost at': seq<string>)
      requires Walking(current, path, params, at, segs, i, t0, e0) && path != ""
      modifies this, current
      ensures Walking(next, path', params', at', segs, i + 1, t0, e0)
      ensures Tree == old(Tree)[at' := next]
      ensures |path'| < |path| && Entries == old(Entries)
      ensures at' in t0 ==> next == t0[at']
      ensures at' !in t0 ==> fresh(next)
    {
      ProgressStep(segs, i, path, at, params);
      var (head, tail) := ShiftPath(path);
      PrefixesGrow(t0.Keys, at, KeyOf(head));
      var key := head;
      params' := params;
      if head != "" && (head[0] == ':' || head[0] == '*') {
        params' := params + [head[1..]];
        key := Wildcard;
      }
      at' := at + [key];
      next := Descend(current, at, key);
      KeptSet(old(Tree), t0, at', next);
      StoreKeys(old(Tree), at', next);
      path' := tail;
    }

    /**
     * The walk of HandleMethods over pattern's segments: from the root, one
     * child per segment, keyed by the segment or, for a placeholder, by the
     * wildcard with the placeholder's name recorded; missing nodes are created.
     */
    method WalkPattern(pattern: string) returns (current: Node, params: seq<string>, ghost at: seq<string>)
      requires Shaped()
      modifies this, Tree.Values
      ensures Shaped()
      ensures at == PatternKeys(pattern) && params == PatternParams(pattern)
      ensures at in Tree && current == Tree[at]
      ensures Shape() == old(Shape()) + Prefixes(at)
      ensures Kept(Tree, old(Tree)) && (fresh(current) || current in old(Tree.Values))
      ensures forall p | p in Tree && p !in old(Tree) :: fresh(Tree[p])
      ensures EntryMap() == old(EntryMap())
      ensures Entries == old(Entries)
    {
      var path := CleanPath(pattern);
      params := [];
      current := root;
      at := [];
      ghost var segs := Segments(path);
      ghost var i := 0;
      ghost var t0 := Tree;
      ghost var e0 := EntryMap();
      ghost var born: set<Node> := {};
      ProgressStart(path);
      while path != ""
        invariant Walking(current, path, params, at, segs, i, t0, e0)
        invariant at in t0 ==> current == t0[at]
        invariant at !in t0 ==> fresh(current)
        invariant AllFresh(born) && BornIn(Tree, t0, born)
        invariant Entries == old(Entries)
        decreases |path|
      {
        ghost var t := Tree;
        current, path, params, at := Advance(current, path, params, at, segs, i, t0, e0);
        if at !in t0 {
          FreshGrow(born, current);
          born := born + {current};
        }
        BornStep(t, t0, born, at, current);
        i := i + 1;
      }
      ProgressEnd(segs, i, at, params);
      if at in t0 {
        assert t0[at] in t0.Values;
      }
    }

    /** setting the entry field of the node at key path at, recorded in Ents. */
    method SetEntry(current: Node, ghost at: seq<string>, e: MuxEntry)
      requires Shaped() && at in Tree && current == Tree[at]
      modifies this, current
      ensures Shaped() && Tree == old(Tree) && Kids == old(Kids) && Entries == old(Entries)
      ensures Ents == old(Ents)[at := e]
    {
      assert NodeAt(Tree, Kids, Ents, at);
      current.entry := e;
      Ents := Ents[at := e];
      forall p
        ensures NodeAt(Tree, Kids, Ents, p)
      {
        if p in Tree && p != at {
          assert old(NodeAt(Tree, Kids, Ents, p)) && Tree[p].path == p;
        }
      }
    }

    /** Add the valid entry e, the one entry not yet among Entries, to Entries. */
    ghost method AdmitEntry(e: MuxEntry)
      requires Shaped() && Registered(EntryMap()) && EntryMap().Values <= Entries + {e}
      requires (forall x | x in Entries :: x.Valid()) && e.Valid()
      modifies this
      ensures Valid()
      ensures Entries == old(Entries) + {e} && Tree == old(Tree) && Kids == old(Kids) && Ents == old(Ents)
    {
      Entries := Entries + {e};
    }

    /** Set the valid entry e, which fits key path at, on the node at at, which has none. */
    method Install(current: Node, ghost at: seq<string>, e: MuxEntry)
      requires Valid() && at in Tree && current == Tree[at] && current.entry == null
      requires e.Valid() && PatternKeys(e.pattern) == at && e.params == PatternParams(e.pattern)
      modifies this, current
      ensures Valid() && Tree == old(Tree) && Kids == old(Kids)
      ensures EntryMap() == old(EntryMap())[at := e] && at !in old(EntryMap())
      ensures Entries == old(Entries) + {e}
    {
      assert NodeAt(Tree, Kids, Ents, at);
      PresentSet(Ents, at, e);
      RegisteredSet(EntryMap(), at, e);
      ValuesSet(EntryMap(), at, e);
      SetEntry(current, at, e);
      AdmitEntry(e);
    }

    /** A new entry for pattern, set on the node at key path at, which has none. */
    method AttachEntry(current: Node, ghost at: seq<string>, pattern: string, params: seq<string>) returns (e: MuxEntry)
      requires Valid() && at in Tree && current == Tree[at] && current.entry == null
      requires at == PatternKeys(pattern) && params == PatternParams(pattern)
      modifies this, current
      ensures Valid() && Tree == old(Tree) && Kids == old(Kids)
      ensures EntryMap() == old(EntryMap())[at := e] && at !in old(EntryMap())
      ensures fresh(e) && Entries == old(Entries) + {e}
      ensures e.pattern == pattern && e.params == params && e.handlers == map[] && e.methods == [OPTIONS]
    {
      e := new MuxEntry(pattern, params);
      Install(current, at, e);
    }

    /** The entry of the node at key path at, created for pattern when the node has none. */
    method EnsureEntry(current: Node, ghost at: seq<string>, pattern: string, params: seq<string>) returns (e: MuxEntry)
      requires Valid() && at in Tree && current == Tree[at]
      requires at == PatternKeys(pattern) && params == PatternParams(pattern)
      modifies this, current
      ensures Valid() && Tree == old(Tree) && Kids == old(Kids) && e in Entries
      ensures EntryMap() == old(EntryMap())[at := e]
      ensures at in old(EntryMap()) ==> e == old(EntryMap()[at]) && Entries == old(Entries)
      ensures at !in old(EntryMap()) ==>
                && fresh(e) && Entries == old(Entries) + {e}
                && e.pattern == pattern && e.params == params
                && e.handlers == map[] && e.methods == [OPTIONS]
    {
      assert NodeAt(Tree, Kids, Ents, at);
      if current.entry != null {
        e := current.entry;
        PresentSame(Ents, at);
        assert at in EntryMap() && EntryMap()[at] == e;
        assert e in EntryMap().Values;
      } else {
        e := AttachEntry(current, at, pattern, params);
      }
    }

    /**
     * The binding loop of HandleMethods: setHandler for each method in
     * turn, stopping at the first that panics.
     */
    method BindMethods(e: MuxEntry, methods: MethodSet, handler: Handler) returns (err: Option<Panic>)
      requires e.Valid()
      modifies e
      ensures e.Valid()
      ensures BoundFrom(e.handlers, e.methods, err, old(e.handlers), old(e.methods), methods, handler, e.pattern)
    {
      ghost var bound := e.handlers;
      ghost var cache := e.methods;
      ghost var c := FirstConflict(bound.Keys, methods);
      var i := 0;
      assert methods[..0] == [];
      while i < |methods|
        invariant 0 <= i <= c
        invariant e.Valid()
        invariant e.handlers == BindAll(bound, methods[..i], handler)
        invariant e.methods == CacheAddAll(cache, methods[..i])
      {
        BindStep(bound, cache, methods, i, handler);
        err := e.SetHandler(methods[i], handler);
        if err.Some? {
          return;
        }
        i := i + 1;
      }
      assert methods[..i] == methods;
      err := None;
    }

    /**
     * The first part of the registration of HandleMethods: walk pattern's
     * keys creating missing nodes, and create the entry when the node
     * has none; no existing entry changes.
     */
    method Locate(pattern: string) returns (e: MuxEntry, ghost ks: seq<string>)
      requires Valid()
      modifies this, Tree.Values
      ensures Valid() && ks == PatternKeys(pattern) && e in Entries
      ensures Shape() == old(Shape()) + Prefixes(ks)
      ensures EntryMap() == old(EntryMap())[ks := e]
      ensures ks in old(EntryMap()) ==> e == old(EntryMap()[ks]) && Entries == old(Entries)
      ensures ks !in old(EntryMap()) ==>
                && fresh(e) && Entries == old(Entries) + {e}
                && e.pattern == pattern && e.params == PatternParams(pattern)
                && e.handlers == map[] && e.methods == [OPTIONS]
      ensures Kept(Tree, old(Tree)) && forall p | p in Tree && p !in old(Tree) :: fresh(Tree[p])
      ensures forall x | x in old(Entries) :: unchanged(x)
    {
      var current, params, at := WalkPattern(pattern);
      e := EnsureEntry(current, at, pattern, params);
      ks := at;
    }

    /** The binding loop on an entry of the tree, which keeps the tree valid. */
    method Bind(e: MuxEntry, methods: MethodSet, handler: Handler) returns (err: Option<Panic>)
      requires Valid() && e in Entries
      modifies e
      ensures Valid()
      ensures BoundFrom(e.handlers, e.methods, err, old(e.handlers), old(e.methods), methods, handler, e.pattern)
    {
      err := BindMethods(e, methods, handler);
    }

    /**
     * The registration of HandleMethods once its arguments passed the
     * checks: locate or create the entry of pattern, then bind the methods
     * in turn, stopping at the first that is bound already.
     */
    method Register(methods: MethodSet, pattern: string, handler: Handler) returns (err: Option<Panic>, ghost e: MuxEntry)
      requires Valid()
      modifies this, Tree.Values, Entries
      ensures Valid()
      ensures var ks := PatternKeys(pattern);
              && Shape() == old(Shape()) + Prefixes(ks)
              && EntryMap() == old(EntryMap())[ks := e]
              && (ks in old(EntryMap()) ==> e == old(EntryMap()[ks]) && Entries == old(Entries))
              && (ks !in old(EntryMap()) ==>
                    && fresh(e) && Entries == old(Entries) + {e}
                    && e.pattern == pattern && e.params == PatternParams(pattern))
      ensures var existed := PatternKeys(pattern) in old(EntryMap());
              BoundFrom(e.handlers, e.methods, err,
                        if existed then old(e.handlers) else map[],
                        if existed then old(e.methods) else [OPTIONS],
                        methods, handler, e.pattern)
      ensures Kept(Tree, old(Tree)) && forall p | p in Tree && p !in old(Tree) :: fresh(Tree[p])
      ensures forall x | x in old(Entries) && x != e :: unchanged(x)
    {
      var entry, ks := Locate(pattern);
      err := Bind(entry, methods, handler);
      e := entry;
    }

    /**
     * HandleMethods: register handler for methods under pattern. It panics,
     * changing nothing, on an empty method set, an empty pattern or a nil
     * handler, checked in that order.
     */
    method HandleMethods(methods: MethodSet, pattern: string, handler: Handler) returns (err: Option<Panic>)
      requires Valid()
      modifies this, Tree.Values, Entries
      ensures Valid()
      ensures methods == [] ==> err == Some(EmptyMethodSet)
      ensures methods != [] && pattern == "" ==> err == Some(InvalidPattern)
      ensures methods != [] && pattern != "" && handler == Nil ==> err == Some(NilHandler)
      ensures methods == [] || pattern == "" || handler == Nil ==> unchanged(this) && unchanged(Entries)
      ensures methods != [] && pattern != "" && handler != Nil ==>
                var ks := PatternKeys(pattern);
                && Shape() == old(Shape()) + Prefixes(ks)
                && ks in EntryMap() && EntryMap() == old(EntryMap())[ks := EntryMap()[ks]]
                && (ks in old(EntryMap()) ==> EntryMap()[ks] == old(EntryMap()[ks]) && Entries == old(Entries))
                && (ks !in old(EntryMap()) ==>
                      && fresh(EntryMap()[ks]) && Entries == old(Entries) + {EntryMap()[ks]}
                      && EntryMap()[ks].pattern == pattern && EntryMap()[ks].params == PatternParams(pattern))
      ensures methods != [] && pattern != "" && handler != Nil ==>
                var ks := PatternKeys(pattern);
                var existed := ks in old(EntryMap());
                ks in EntryMap() &&
                BoundFrom(EntryMap()[ks].handlers, EntryMap()[ks].methods, err,
                          if existed then old(EntryMap()[ks].handlers) else map[],
                          if existed then old(EntryMap()[ks].methods) else [OPTIONS],
                          methods, handler, EntryMap()[ks].pattern)
      ensures methods != [] && pattern != "" && handler != Nil ==>
                forall x | x in old(Entries) && x != EntryMap()[PatternKeys(pattern)] :: unchanged(x)
      ensures Kept(Tree, old(Tree)) && fresh(Tree.Values - old(Tree.Values))
    {
      if methods == [] {
        return Some(EmptyMethodSet);
      }
      if pattern == "" {
        return Some(InvalidPattern);
      }
      if handler == Nil {
        return Some(NilHandler);
      }
      ghost var e;
      err, e := Register(methods, pattern, handler);
      forall n | n in Tree.Values - old(Tree.Values)
        ensures fresh(n)
      {
        var p :| p in Tree && Tree[p] == n;
      }
    }

    /** No entry sits on the root node: every pattern has at least one key. */
    lemma NoRootEntry()
      requires Valid()
      ensures [] !in EntryMap()
    {
      forall p | p in EntryMap()
        ensures p != []
      {
        assert FitsAt(EntryMap(), p);
        PatternShape(EntryMap()[p].pattern);
      }
    }

    /**
     * A request whose walk follows a child for every segment, none of them
     * "*", and ends on a node with an entry finds that entry with one value
     * per parameter name, so that Param can read the value of every name.
     */
    lemma LookupParams(urlPath: string)
      requires Valid()
      requires Wildcard !in Segments(CleanPath(urlPath))
      requires var segs := Segments(CleanPath(urlPath));
               |Trail(Shape(), [], segs)| == |segs| && Trail(Shape(), [], segs) in EntryMap()
      ensures var w := Routes.Lookup(Shape(), EntryMap(), urlPath);
              var e := EntryMap()[Trail(Shape(), [], Segments(CleanPath(urlPath)))];
              && Found(w) == Some(e)
              && |w.values| == |e.params|
              && forall name | name in e.params :: IndexOf(e.params, name) < |w.values|
    {
      var segs := Segments(CleanPath(urlPath));
      var t := Trail(Shape(), [], segs);
      TrailFound(Shape(), EntryMap(), segs, t);
      assert FitsAt(EntryMap(), t);
      TrailIsRoute(Shape(), [], segs);
      assert segs[..|t|] == segs;
      CapturesMatchParams(Shape(), segs, EntryMap()[t].pattern);
    }

    /** Facts about the child of the node at at under k, read off the pointers. */
    lemma ChildOf(at: seq<string>, k: string)
      requires Shaped() && at in Tree
      ensures k in Tree[at].children <==> at + [k] in Tree
      ensures at + [k] in Tree ==>
                && Tree[at].children[k] == Tree[at + [k]]
                && (Tree[at + [k]].entry != null <==> at + [k] in EntryMap())
                && (at + [k] in EntryMap() ==> Tree[at + [k]].entry == EntryMap()[at + [k]])
    {
      assert NodeAt(Tree, Kids, Ents, at) && ChildAt(Tree, Kids, at, k) && ParentAt(Tree, Kids, at, k);
      assert NodeAt(Tree, Kids, Ents, at + [k]);
    }

    /**
     * lookup: walk the cleaned request path from the root, following the
     * exact child, else the wildcard child with the segment appended to
     * the values of m; give up when neither exists. The entry of the deepest
     * node passed that has one is set on m. Values are appended even
     * when the lookup fails.
     */
    method LookupInto(urlPath: string, m: MuxMatch) returns (found: bool)
      requires Shaped()
      modifies m
      ensures var w := Walk(Shape(), EntryMap(), [], Segments(CleanPath(urlPath)), old(m.values), None);
              && m.values == w.values
              && (found <==> Found(w).Some?)
              && (found ==> m.entry == Found(w).value)
              && (!found ==> m.entry == old(m.entry))
    {
      ghost var w := Walk(Shape(), EntryMap(), [], Segments(CleanPath(urlPath)), m.values, None);
      var path := CleanPath(urlPath);
      var current := root;
      var entry: MuxEntry? := null;
      ghost var at: seq<string> := [];
      while path != ""
        invariant Shaped() && at in Tree && current == Tree[at]
        invariant Walk(Shape(), EntryMap(), at, Segments(path), m.values, AsOption(entry)) == w
        invariant m.entry == old(m.entry)
        decreases |path|
      {
        var (head, tail) := ShiftPath(path);
        SegmentStep(path);
        ChildOf(at, head);
        ChildOf(at, Wildcard);
        var next: Node;
        if head in current.children {
          next := current.children[head];
          at := at + [head];
        } else if Wildcard in current.children {
          next := current.children[Wildcard];
          m.values := m.values + [head];
          at := at + [Wildcard];
        } else {
          return false;
        }
        current := next;
        path := tail;
        if current.entry != null {
          entry := current.entry;
        }
      }
      if entry == null {
        return false;
      }
      m.entry := entry;
      found := true;
    }

    /** Lookup: the match for the request path in a new MuxMatch, or nil. */
    method Lookup(urlPath: string) returns (r: MuxMatch?)
      requires Shaped()
      ensures var w := Routes.Lookup(Shape(), EntryMap(), urlPath);
              && (r == null <==> Found(w).None?)
              && (r != null ==> fresh(r) && r.entry == Found(w).value && r.values == w.values)
    {
      var m := new MuxMatch();
      var found := LookupInto(urlPath, m);
      r := if found then m else null;
    }

    /**
     * ServeHTTPErr, short of the response: reset the pooled match, look the
     * request path up, and choose what to do with the request method as
     * SelectHandler states. The handler served sees the match.
     */
    method ServeHTTPErr(reqMethod: string, urlPath: string, m: MuxMatch) returns (d: Outcome)
      requires Valid()
      modifies m
      ensures var w := Routes.Lookup(Shape(), EntryMap(), urlPath);
              && (Found(w).None? ==> d == ErrMuxNotFound)
              && (Found(w).Some? ==> d == SelectHandler(reqMethod, Found(w).value.handlers, Found(w).value.methods))
              && (d.Serve? ==> m.entry == Found(w).value && m.values == w.values)
    {
      m.Reset();
      var found := LookupInto(urlPath, m);
      if !found {
        return ErrMuxNotFound;
      }
      var h := m.Handler(reqMethod);
      if h == Nil && reqMethod == HEAD {
        h := m.Handler(GET);
      }
      if h == Nil && reqMethod == OPTIONS {
        return NoContent(String(m.Methods()));
      }
      if h == Nil {
        return ErrMuxNotFound;
      }
      d := Serve(h);
    }
  }
}
