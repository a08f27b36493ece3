/**
 * MethodSet of method.go: a duplicate-free list of HTTP method tokens kept
 * in insertion order. It is rendered as the value of an Allow header.
 */
module MethodSets {

  type MethodSet = seq<string>

  const GET := "GET"
  const HEAD := "HEAD"
  const POST := "POST"
  const PUT := "PUT"
  const PATCH := "PATCH"
  const DELETE := "DELETE"
  const CONNECT := "CONNECT"
  const OPTIONS := "OPTIONS"
  const TRACE := "TRACE"

  /** The methods of section 4.3 of RFC 7231 and PATCH of RFC 5789, in the order of the Go declarations at method.go:10-20. */
  const CommonMethods: seq<string> := [GET, HEAD, POST, PUT, PATCH, DELETE, CONNECT, OPTIONS, TRACE]

  /** No token occurs twice. */
  predicate NoDup(s: seq<string>)
  {
    forall i, j :: 0 <= i < j < |s| ==> s[i] != s[j]
  }

  /** The index of the first occurrence of x in s. */
  function IndexOf(s: seq<string>, x: string): (i: nat)
    requires x in s
    ensures i < |s| && s[i] == x
    ensures forall j :: 0 <= j < i ==> s[j] != x
  {
    if s[0] == x then 0 else 1 + IndexOf(s[1..], x)
  }

  /** Has: membership, as slices.Contains decides it. */
  function Has(m: MethodSet, token: string): (r: bool)
    ensures r <==> exists i :: 0 <= i < |m| && m[i] == token
  {
    token in m
  }

  /** Add: the set with method appended if it was absent. */
  function Add(m: MethodSet, token: string): (r: MethodSet)
    ensures Has(r, token)
    ensures forall x :: x in r <==> x in m || x == token
    ensures Has(m, token) ==> r == m
    ensures !Has(m, token) ==> r == m + [token]
    ensures NoDup(m) ==> NoDup(r)
  {
    if !Has(m, token) then m + [token] else m
  }

  /**
   * The distinct elements of xs in order of first occurrence: what Methods
   * builds, stated as repeated Add.
   */
  function Distinct(xs: seq<string>): (r: MethodSet)
    ensures forall x :: x in r <==> x in xs
  {
    if xs == [] then []
    else
      assert xs == xs[..|xs| - 1] + [xs[|xs| - 1]];
      Add(Distinct(xs[..|xs| - 1]), xs[|xs| - 1])
  }

  /** Methods: xs with duplicates left out, first occurrences kept in order. */
  method Methods(xs: seq<string>) returns (s: MethodSet)
    ensures s == Distinct(xs)
    ensures NoDup(s)
    ensures forall x :: x in s <==> x in xs
    ensures forall i, j :: 0 <= i < j < |s| ==> IndexOf(xs, s[i]) < IndexOf(xs, s[j])
  {
    s := [];
    for i := 0 to |xs|
      invariant s == Distinct(xs[..i])
    {
      assert xs[..i + 1][..i] == xs[..i];
      if !Has(s, xs[i]) {
        s := s + [xs[i]];
      }
    }
    assert xs[..|xs|] == xs;
    DistinctNoDup(xs);
    DistinctOrder(xs);
  }

  /** Distinct is duplicate-free. */
  lemma {:induction false} DistinctNoDup(xs: seq<string>)
    ensures NoDup(Distinct(xs))
  {
    if xs != [] {
      DistinctNoDup(xs[..|xs| - 1]);
    }
  }

  /** Distinct keeps the order of first occurrences. */
  lemma {:induction false} DistinctOrder(xs: seq<string>)
    ensures forall i, j :: 0 <= i < j < |Distinct(xs)| ==>
      IndexOf(xs, Distinct(xs)[i]) < IndexOf(xs, Distinct(xs)[j])
  {
    if xs != [] {
      var init, last := xs[..|xs| - 1], xs[|xs| - 1];
      assert xs == init + [last];
      DistinctOrder(init);
      forall y | y in init
        ensures IndexOf(xs, y) == IndexOf(init, y)
      {
        IndexOfPrefix(init, [last], y);
      }
      if last !in init {
        assert IndexOf(xs, last) == |init| by {
          assert xs[|init|] == last;
        }
      }
    }
  }

  /** The first occurrence of y in s + t is its first occurrence in s, when y is in s. */
  lemma {:induction false} IndexOfPrefix(s: seq<string>, t: seq<string>, y: string)
    requires y in s
    ensures IndexOf(s + t, y) == IndexOf(s, y)
  {
    if s[0] != y {
      assert (s + t)[1..] == s[1..] + t;
      IndexOfPrefix(s[1..], t, y);
    }
  }

  /** A duplicate-free list is its own Distinct: Methods leaves a MethodSet as it is. */
  lemma {:induction false} DistinctOfNoDup(xs: seq<string>)
    requires NoDup(xs)
    ensures Distinct(xs) == xs
  {
    if xs != [] {
      var init, last := xs[..|xs| - 1], xs[|xs| - 1];
      NoDupInit(xs);
      DistinctOfNoDup(init);
      assert Distinct(xs) == Add(Distinct(init), last);
      assert Add(init, last) == init + [last] == xs;
    }
  }

  /** Dropping the last token keeps a list duplicate-free, and that token is not among the rest. */
  lemma NoDupInit(xs: seq<string>)
    requires NoDup(xs) && xs != []
    ensures NoDup(xs[..|xs| - 1]) && xs[|xs| - 1] !in xs[..|xs| - 1]
  {
    var init := xs[..|xs| - 1];
    forall i | 0 <= i < |init|
      ensures init[i] == xs[i]
    {
    }
  }

  /** Add is idempotent. */
  lemma AddIdempotent(m: MethodSet, token: string)
    ensures Add(Add(m, token), token) == Add(m, token)
  {
  }

  /** AnyMethod: the nine common methods, duplicate-free. */
  function AnyMethod(): (r: MethodSet)
    ensures |r| == 9 && NoDup(r)
    ensures Has(r, GET) && Has(r, HEAD) && Has(r, OPTIONS)
    ensures forall x :: x in r <==> x in {GET, HEAD, POST, PUT, PATCH, DELETE, CONNECT, OPTIONS, TRACE}
  {
    CommonMethods
  }

  /** strings.Join: the parts in order with sep between neighbours. */
  function Join(parts: seq<string>, sep: string): (s: string)
    ensures parts == [] ==> s == ""
    ensures parts != [] ==> |parts[0]| <= |s| && s[..|parts[0]|] == parts[0]
  {
    if |parts| == 0 then ""
    else if |parts| == 1 then parts[0]
    else parts[0] + sep + Join(parts[1..], sep)
  }

  /** A join ends with its last part. */
  lemma {:induction false} JoinLast(parts: seq<string>, sep: string)
    requires parts != []
    ensures var s := Join(parts, sep); var last := parts[|parts| - 1];
            |last| <= |s| && s[|s| - |last|..] == last
  {
    if |parts| > 1 {
      JoinLast(parts[1..], sep);
    }
  }

  /** String: the tokens joined by ", ", as an Allow header lists them. */
  function String(m: MethodSet): (r: string)
    ensures m == [] ==> r == ""
    ensures |m| == 1 ==> r == m[0]
  {
    Join(m, ", ")
  }

  /** Joining one more part appends the separator and the part. */
  lemma {:induction false} JoinAppend(parts: seq<string>, x: string, sep: string)
    requires parts != []
    ensures Join(parts + [x], sep) == Join(parts, sep) + sep + x
  {
    if |parts| > 1 {
      assert (parts + [x])[1..] == parts[1..] + [x];
      JoinAppend(parts[1..], x, sep);
    }
  }

  /** Adding a new method to a non-empty set appends ", " and the method to its rendering. */
  lemma StringAdd(m: MethodSet, token: string)
    requires m != [] && !Has(m, token)
    ensures String(Add(m, token)) == String(m) + ", " + token
  {
    JoinAppend(m, token, ", ");
  }
}
