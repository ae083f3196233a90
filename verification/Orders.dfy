/**
 Total orders, Python's ordering of strings and lists, and `sorted`.

 `sorted` is modelled by insertion sort. What the rest of the project uses is
 not the algorithm but `SortUnique`: a total order leaves exactly one sorted
 arrangement of a multiset.
 */
module Orders {

  ghost predicate TotalOrder<T(!new)>(leq: (T, T) -> bool) {
    && (forall a, b :: leq(a, b) || leq(b, a))
    && (forall a, b :: leq(a, b) && leq(b, a) ==> a == b)
    && (forall a, b, c :: leq(a, b) && leq(b, c) ==> leq(a, c))
  }

  predicate Sorted<T>(s: seq<T>, leq: (T, T) -> bool) {
    forall i, j :: 0 <= i < j < |s| ==> leq(s[i], s[j])
  }

  predicate Distinct<T(==)>(s: seq<T>) {
    forall i, j :: 0 <= i < j < |s| ==> s[i] != s[j]
  }

  function Elems<T>(s: seq<T>): set<T> {
    set x | x in s
  }

  /** Concatenation is associative; stated apart, because sequence equality is costly in a larger proof. */
  lemma Reassociate<T>(a: seq<T>, b: seq<T>, c: seq<T>)
    ensures a + (b + c) == (a + b) + c
  {
  }

  lemma PrependBoth<T>(x: seq<T>, whole: seq<T>, left: seq<T>, restOfWhole: seq<T>, restOfLeft: seq<T>, tail: seq<T>)
    requires whole == x + restOfWhole && left == x + restOfLeft && restOfWhole == restOfLeft + tail
    ensures whole == left + tail
  {
    Reassociate(x, restOfLeft, tail);
  }

  /** What `f` gives for the first `n` elements, one after the other. */
  function Flat<T, U>(f: T -> seq<U>, s: seq<T>, n: nat): seq<U>
    requires n <= |s|
  {
    if n == 0 then [] else Flat(f, s, n - 1) + f(s[n - 1])
  }

  lemma {:induction false} FlatSame<T, U>(f: T -> seq<U>, g: T -> seq<U>, s: seq<T>, t: seq<T>, n: nat)
    requires n <= |s| && n <= |t| && forall k :: 0 <= k < n ==> f(s[k]) == g(t[k])
    ensures Flat(f, s, n) == Flat(g, t, n)
  {
    if n > 0 {
      FlatSame(f, g, s, t, n - 1);
    }
  }

  lemma {:induction false} FlatElems<T, U>(f: T -> seq<U>, s: seq<T>, n: nat, x: U)
    requires n <= |s|
    ensures x in Flat(f, s, n) <==> exists k :: 0 <= k < n && x in f(s[k])
  {
    if n > 0 {
      FlatElems(f, s, n - 1, x);
    }
  }

  lemma {:induction false} FlatJoin<T, U>(f: T -> seq<U>, a: seq<T>, b: seq<T>, n: nat)
    requires n <= |b|
    ensures Flat(f, a + b, |a| + n) == Flat(f, a, |a|) + Flat(f, b, n)
  {
    if n == 0 {
      FlatSame(f, f, a + b, a, |a|);
    } else {
      FlatJoin(f, a, b, n - 1);
      Reassociate(Flat(f, a, |a|), Flat(f, b, n - 1), f(b[n - 1]));
    }
  }

  function Insert<T>(x: T, s: seq<T>, leq: (T, T) -> bool): (r: seq<T>)
    ensures |r| == |s| + 1
    ensures multiset(r) == multiset{x} + multiset(s)
  {
    if s == [] then [x]
    else if leq(x, s[0]) then [x] + s
    else
      assert s == [s[0]] + s[1..];
      [s[0]] + Insert(x, s[1..], leq)
  }

  /** Python's `sorted`. */
  function Sort<T>(s: seq<T>, leq: (T, T) -> bool): (r: seq<T>)
    ensures |r| == |s|
    ensures multiset(r) == multiset(s)
  {
    if s == [] then []
    else
      assert s == [s[0]] + s[1..];
      Insert(s[0], Sort(s[1..], leq), leq)
  }

  lemma {:induction false} InsertSorted<T(!new)>(x: T, s: seq<T>, leq: (T, T) -> bool)
    requires TotalOrder(leq) && Sorted(s, leq)
    ensures Sorted(Insert(x, s, leq), leq)
  {
    if s != [] && !leq(x, s[0]) {
      InsertSorted(x, s[1..], leq);
      var t := Insert(x, s[1..], leq);
      forall i | 0 <= i < |t|
        ensures leq(s[0], t[i])
      {
        assert t[i] in multiset(t);
        assert t[i] == x || t[i] in s[1..];
      }
    }
  }

  lemma {:induction false} SortSorted<T(!new)>(s: seq<T>, leq: (T, T) -> bool)
    requires TotalOrder(leq)
    ensures Sorted(Sort(s, leq), leq)
  {
    if s != [] {
      SortSorted(s[1..], leq);
      InsertSorted(s[0], Sort(s[1..], leq), leq);
    }
  }

  /** A sorted arrangement of a multiset is unique. */
  lemma LeastFirst<T(!new)>(s: seq<T>, t: seq<T>, leq: (T, T) -> bool)
    requires TotalOrder(leq) && Sorted(s, leq) && Sorted(t, leq)
    requires s != [] && multiset(s) == multiset(t)
    ensures t != [] && s[0] == t[0] && multiset(s[1..]) == multiset(t[1..])
  {
    SameLength(s, t);
    assert s[0] in multiset(t) && t[0] in multiset(s);
    assert leq(s[0], t[0]) && leq(t[0], s[0]);
    assert s == [s[0]] + s[1..] && t == [t[0]] + t[1..];
    assert multiset(s[1..]) == multiset(s) - multiset{s[0]};
    assert multiset(t[1..]) == multiset(t) - multiset{t[0]};
  }

  lemma {:induction false} SortUnique<T(!new)>(s: seq<T>, t: seq<T>, leq: (T, T) -> bool)
    requires TotalOrder(leq)
    requires Sorted(s, leq) && Sorted(t, leq)
    requires multiset(s) == multiset(t)
    ensures s == t
  {
    SameLength(s, t);
    if s != [] {
      LeastFirst(s, t, leq);
      SortUnique(s[1..], t[1..], leq);
      assert s == [s[0]] + s[1..] && t == [t[0]] + t[1..];
    }
  }

  /** Sorting forgets the order in which the elements were gathered. */
  lemma SortPermutation<T(!new)>(s: seq<T>, t: seq<T>, leq: (T, T) -> bool)
    requires TotalOrder(leq)
    requires multiset(s) == multiset(t)
    ensures Sort(s, leq) == Sort(t, leq)
  {
    SortSorted(s, leq);
    SortSorted(t, leq);
    SortUnique(Sort(s, leq), Sort(t, leq), leq);
  }

  lemma SortElems<T>(s: seq<T>, leq: (T, T) -> bool)
    ensures Elems(Sort(s, leq)) == Elems(s)
  {
    var t := Sort(s, leq);
    forall x | x in Elems(s)
      ensures x in Elems(t)
    {
      assert x in multiset(s) && x in multiset(t);
    }
    forall x | x in Elems(t)
      ensures x in Elems(s)
    {
      assert x in multiset(t) && x in multiset(s);
    }
  }

  lemma ElemsEmpty<T>(s: seq<T>)
    ensures Elems(s) == {} <==> s == []
  {
    if s != [] {
      assert s[0] in Elems(s);
    }
  }

  lemma MultisetTail<T>(s: seq<T>)
    requires s != []
    ensures multiset(s) == multiset(Elems(s)) <==> s[0] !in s[1..] && multiset(s[1..]) == multiset(Elems(s[1..]))
  {
    var r := s[1..];
    assert s == [s[0]] + r;
    assert Elems(s) == {s[0]} + Elems(r);
    if s[0] in r {
      assert multiset(s)[s[0]] >= 2;
    } else {
      assert multiset(s) == multiset{s[0]} + multiset(r);
      assert multiset(Elems(s)) == multiset{s[0]} + multiset(Elems(r));
      assert multiset(r) == multiset(s) - multiset{s[0]};
    }
  }

  /** A sequence has no repeats exactly when its multiset has none. */
  lemma {:induction false} DistinctMultiset<T>(s: seq<T>)
    ensures Distinct(s) <==> multiset(s) == multiset(Elems(s))
  {
    if s != [] {
      DistinctMultiset(s[1..]);
      MultisetTail(s);
    }
  }

  lemma SortDistinct<T>(s: seq<T>, leq: (T, T) -> bool)
    requires Distinct(s)
    ensures Distinct(Sort(s, leq))
  {
    DistinctMultiset(s);
    DistinctMultiset(Sort(s, leq));
    SortElems(s, leq);
  }

  lemma {:induction false} DistinctCardinality<T>(s: seq<T>)
    requires Distinct(s)
    ensures |Elems(s)| == |s|
  {
    if s != [] {
      DistinctCardinality(s[1..]);
      assert Elems(s) == {s[0]} + Elems(s[1..]);
    }
  }

  // The sorted elements of a set ------------------------------------------

  ghost function SomeOrder<T(!new)>(s: set<T>): (r: seq<T>)
    ensures Elems(r) == s && Distinct(r)
  {
    if s == {} then []
    else
      var x :| x in s;
      var rest := SomeOrder(s - {x});
      assert Elems([x] + rest) == {x} + Elems(rest);
      [x] + rest
  }

  /** `sorted(s)` of a set of strings. */
  ghost function SortedSet(s: set<string>): (r: seq<string>)
    ensures Elems(r) == s && Distinct(r) && Sorted(r, StringLeq)
  {
    StringOrder();
    SortSorted(SomeOrder(s), StringLeq);
    SortElems(SomeOrder(s), StringLeq);
    SortDistinct(SomeOrder(s), StringLeq);
    Sort(SomeOrder(s), StringLeq)
  }

  lemma SortedSetUnique(r: seq<string>)
    requires Distinct(r) && Sorted(r, StringLeq)
    ensures r == SortedSet(Elems(r))
  {
    var t := SortedSet(Elems(r));
    DistinctMultiset(r);
    DistinctMultiset(t);
    StringOrder();
    SortUnique(r, t, StringLeq);
  }

  lemma SortedSetOf(all: seq<string>)
    requires Distinct(all)
    ensures Sort(all, StringLeq) == SortedSet(Elems(all))
  {
    StringOrder();
    SortSorted(all, StringLeq);
    SortElems(all, StringLeq);
    SortDistinct(all, StringLeq);
    SortedSetUnique(Sort(all, StringLeq));
  }

  lemma DistinctAppend<T>(s: seq<T>, x: T)
    requires Distinct(s) && x !in s
    ensures Distinct(s + [x]) && Elems(s + [x]) == Elems(s) + {x}
  {
  }

  lemma SubsetSize<T>(a: set<T>, b: set<T>)
    requires a <= b
    ensures |a| <= |b|
    ensures a != b ==> |a| < |b|
  {
    assert b == a + (b - a);
  }

  /** The elements of a set, in some order. */
  method ListOf<T(==)>(s: set<T>) returns (all: seq<T>)
    ensures Distinct(all) && Elems(all) == s
  {
    var rest := s;
    all := [];
    while rest != {}
      invariant Distinct(all) && rest <= s && Elems(all) == s - rest
      decreases rest
    {
      var x :| x in rest;
      assert x !in Elems(all);
      DistinctAppend(all, x);
      all := all + [x];
      rest := rest - {x};
    }
  }

  /** Computes `sorted(s)`. */
  method SortStrings(s: set<string>) returns (r: seq<string>)
    ensures r == SortedSet(s)
  {
    var all := ListOf(s);
    SortedSetOf(all);
    r := Sort(all, StringLeq);
  }

  // Sums over a list -----------------------------------------------------

  /** The sum of `f` over the first `n` elements. */
  ghost function TotalTo<A, B>(s: seq<A>, f: A -> multiset<B>, n: nat): multiset<B>
    requires n <= |s|
  {
    if n == 0 then multiset{} else TotalTo(s, f, n - 1) + f(s[n - 1])
  }

  ghost function Total<A, B>(s: seq<A>, f: A -> multiset<B>): multiset<B> {
    TotalTo(s, f, |s|)
  }

  lemma {:induction false} TotalSame<A, B>(s: seq<A>, t: seq<A>, f: A -> multiset<B>, n: nat)
    requires n <= |s| && n <= |t| && forall k :: 0 <= k < n ==> f(s[k]) == f(t[k])
    ensures TotalTo(s, f, n) == TotalTo(t, f, n)
  {
    if n > 0 {
      TotalSame(s, t, f, n - 1);
    }
  }

  lemma SwapLast<T>(x: multiset<T>, a: multiset<T>, b: multiset<T>)
    ensures x + a + b == x + b + a
  {
  }

  lemma SumOfParts<T>(whole: seq<T>, a: seq<T>, b: seq<T>, m: multiset<T>, n: multiset<T>)
    requires whole == a + b && multiset(a) == m && multiset(b) == n
    ensures multiset(whole) == m + n
  {
  }

  /** Taking out one element takes out its share. */
  lemma {:induction false} TotalRemove<A, B>(s: seq<A>, without: seq<A>, f: A -> multiset<B>, k: nat, n: nat)
    requires k < n <= |s| == |without| + 1 && (forall i :: 0 <= i < k ==> s[i] == without[i])
    requires forall i :: k < i < |s| ==> s[i] == without[i - 1]
    ensures TotalTo(s, f, n) == TotalTo(without, f, n - 1) + f(s[k])
  {
    if n == k + 1 {
      TotalSame(s, without, f, k);
    } else {
      TotalRemove(s, without, f, k, n - 1);
      SwapLast(TotalTo(without, f, n - 2), f(s[k]), f(s[n - 1]));
    }
  }

  lemma MultisetRemove<T>(s: seq<T>, k: nat)
    requires k < |s|
    ensures multiset(s[..k] + s[k + 1..]) == multiset(s) - multiset{s[k]}
  {
    assert s == s[..k] + [s[k]] + s[k + 1..];
  }

  /** `t` without an element that `s` has, too. */
  lemma MatchRemove<T>(s: seq<T>, t: seq<T>) returns (k: nat)
    requires s != [] && multiset(s) == multiset(t)
    ensures k < |t| && t[k] == s[0] && multiset(s[..0] + s[1..]) == multiset(t[..k] + t[k + 1..])
  {
    assert s[0] in multiset(t);
    k :| 0 <= k < |t| && t[k] == s[0];
    MultisetRemove(s, 0);
    MultisetRemove(t, k);
  }

  lemma {:induction false} TotalPermute<A, B>(s: seq<A>, t: seq<A>, f: A -> multiset<B>)
    requires multiset(s) == multiset(t)
    ensures Total(s, f) == Total(t, f)
    decreases |s|
  {
    SameLength(s, t);
    if s != [] {
      var k := MatchRemove(s, t);
      var rest, without := s[..0] + s[1..], t[..k] + t[k + 1..];
      TotalPermute(rest, without, f);
      TotalRemove(s, rest, f, 0, |s|);
      TotalRemove(t, without, f, k, |t|);
    }
  }

  /** Reports gathered in two ways: item by item, and as the sum of what whole things contribute. */
  lemma GatherNext<A, B, C>(report: A -> seq<C>, share: B -> multiset<C>, items: seq<A>, more: seq<A>, s: seq<B>,
      k: nat)
    requires k < |s| && multiset(Flat(report, items, |items|)) == TotalTo(s, share, k)
    requires multiset(Flat(report, more, |more|)) == share(s[k])
    ensures multiset(Flat(report, items + more, |items + more|)) == TotalTo(s, share, k + 1)
  {
    FlatJoin(report, items, more, |more|);
    SumOfParts(Flat(report, items + more, |items + more|), Flat(report, items, |items|), Flat(report, more, |more|),
      TotalTo(s, share, k), share(s[k]));
  }

  ghost function SumTo<T>(s: seq<T>, f: T -> nat, n: nat): nat
    requires n <= |s|
  {
    if n == 0 then 0 else SumTo(s, f, n - 1) + f(s[n - 1])
  }

  lemma {:induction false} SumPositive<T>(s: seq<T>, f: T -> nat, n: nat)
    requires n <= |s|
    ensures SumTo(s, f, n) > 0 <==> exists k :: 0 <= k < n && f(s[k]) > 0
  {
    if n > 0 {
      SumPositive(s, f, n - 1);
    }
  }

  lemma {:induction false} SumJoin<T>(a: seq<T>, b: seq<T>, f: T -> nat, n: nat)
    requires n <= |b|
    ensures SumTo(a + b, f, |a| + n) == SumTo(a, f, |a|) + SumTo(b, f, n)
  {
    if n == 0 {
      SumSame(a + b, a, f, |a|);
    } else {
      SumJoin(a, b, f, n - 1);
    }
  }

  lemma {:induction false} SumSame<T>(s: seq<T>, t: seq<T>, f: T -> nat, n: nat)
    requires n <= |s| && n <= |t| && forall k :: 0 <= k < n ==> s[k] == t[k]
    ensures SumTo(s, f, n) == SumTo(t, f, n)
  {
    if n > 0 {
      SumSame(s, t, f, n - 1);
    }
  }

  /** How often something occurs in a total: as often as in the shares together. */
  lemma {:induction false} TotalCounts<A, B>(s: seq<A>, share: A -> multiset<B>, times: A -> nat, n: nat, x: B)
    requires n <= |s| && forall k :: 0 <= k < n ==> share(s[k])[x] == times(s[k])
    ensures TotalTo(s, share, n)[x] == SumTo(s, times, n)
  {
    if n > 0 {
      TotalCounts(s, share, times, n - 1, x);
    }
  }

  function Reversed<T>(s: seq<T>): seq<T> {
    if s == [] then [] else Reversed(s[1..]) + [s[0]]
  }

  lemma {:induction false} ReversedElements<T>(s: seq<T>)
    ensures multiset(Reversed(s)) == multiset(s)
  {
    if s != [] {
      ReversedElements(s[1..]);
      assert s == [s[0]] + s[1..];
    }
  }

  lemma SameLength<T>(s: seq<T>, t: seq<T>)
    requires multiset(s) == multiset(t)
    ensures |s| == |t|
  {
    assert |multiset(s)| == |s| && |multiset(t)| == |t|;
  }

  // Lexicographic order ------------------------------------------------

  predicate Lex<T(==)>(a: seq<T>, b: seq<T>, leq: (T, T) -> bool) {
    if a == [] then true
    else if b == [] then false
    else if a[0] == b[0] then Lex(a[1..], b[1..], leq)
    else leq(a[0], b[0])
  }

  lemma {:induction false} LexTotal<T(!new)>(a: seq<T>, b: seq<T>, leq: (T, T) -> bool)
    requires TotalOrder(leq)
    ensures Lex(a, b, leq) || Lex(b, a, leq)
    ensures Lex(a, b, leq) && Lex(b, a, leq) ==> a == b
  {
    if a != [] && b != [] && a[0] == b[0] {
      LexTotal(a[1..], b[1..], leq);
      assert a == [a[0]] + a[1..] && b == [b[0]] + b[1..];
    }
  }

  lemma {:induction false} LexTransitive<T(!new)>(a: seq<T>, b: seq<T>, c: seq<T>, leq: (T, T) -> bool)
    requires TotalOrder(leq)
    requires Lex(a, b, leq) && Lex(b, c, leq)
    ensures Lex(a, c, leq)
  {
    if a != [] && a[0] == b[0] && b[0] == c[0] {
      LexTransitive(a[1..], b[1..], c[1..], leq);
    }
  }

  /** Python's `<=` on strings: code point by code point. */
  predicate StringLeq(a: string, b: string) {
    Lex(a, b, (x: char, y: char) => x <= y)
  }

  /** Python's `<=` on lists of strings. */
  predicate ListLeq(a: seq<string>, b: seq<string>) {
    Lex(a, b, StringLeq)
  }

  lemma StringOrder()
    ensures TotalOrder(StringLeq)
  {
    var leq := (x: char, y: char) => x <= y;
    forall a: string, b: string
      ensures StringLeq(a, b) || StringLeq(b, a)
      ensures StringLeq(a, b) && StringLeq(b, a) ==> a == b
    {
      LexTotal(a, b, leq);
    }
    forall a: string, b: string, c: string | StringLeq(a, b) && StringLeq(b, c)
      ensures StringLeq(a, c)
    {
      LexTransitive(a, b, c, leq);
    }
  }

  lemma ListOrder()
    ensures TotalOrder(ListLeq)
  {
    StringOrder();
    forall a: seq<string>, b: seq<string>
      ensures ListLeq(a, b) || ListLeq(b, a)
      ensures ListLeq(a, b) && ListLeq(b, a) ==> a == b
    {
      LexTotal(a, b, StringLeq);
    }
    forall a: seq<string>, b: seq<string>, c: seq<string> | ListLeq(a, b) && ListLeq(b, c)
      ensures ListLeq(a, c)
    {
      LexTransitive(a, b, c, StringLeq);
    }
  }
}
