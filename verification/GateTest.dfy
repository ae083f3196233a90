/**
 The memoised test "does this module read the PostgreSQL URL, itself or
 through a helper it imports". Imports may be cyclic; the recursion cuts a
 module already on its chain and caches every answer, also one that was cut.

 What holds of it: it terminates and never answers True wrongly; a first query
 is exact; and every query of every sequence is exact if and only if the
 import graph has no trap (`AlwaysExact` and `TrapMisleads`).
 */
module GateTest {
  import opened Orders
  import opened Graphs
  import ImportCycles

  /** What parsing a test module yields. */
  datatype Source = Unparsable | Parsed(readsUrl: bool, imports: seq<Node>)

  datatype File = File(stamp: int, source: Source)

  type Files = map<Node, File>

  datatype Verdict = Verdict(stamp: int, gated: bool)

  type Cache = map<Node, Verdict>

  datatype Answer = Answer(gated: bool, cache: Cache)

  function Imports(files: Files, n: Node): seq<Node>
    requires n in files
  {
    if files[n].source.Parsed? then files[n].source.imports else []
  }

  predicate Reads(files: Files, n: Node) {
    n in files && files[n].source.Parsed? && files[n].source.readsUrl
  }

  /** A cached answer counts while the file keeps its stamp. */
  predicate Cached(files: Files, cache: Cache, n: Node) {
    n in files && n in cache && cache[n].stamp == files[n].stamp
  }

  /** `_postgres_gated_test`: the answer for `n` below `chain`, and the cache it leaves. */
  function Query(files: Files, cache: Cache, n: Node, chain: seq<Node>): Answer
    decreases files.Keys - Elems(chain), 0, 0
  {
    if n in chain || n !in files then Answer(false, cache)
    else if Cached(files, cache, n) then Answer(cache[n].gated, cache)
    else
      assert n in files.Keys - Elems(chain) && n !in files.Keys - Elems(chain + [n]);
      var a := if Reads(files, n) then Answer(true, cache)
               else QueryAny(files, cache, Imports(files, n), chain + [n]);
      Answer(a.gated, a.cache[n := Verdict(files[n].stamp, a.gated)])
  }

  /** `any(...)` over the imports, in order, stopping at the first True. */
  function QueryAny(files: Files, cache: Cache, imports: seq<Node>, chain: seq<Node>): Answer
    decreases files.Keys - Elems(chain), 1, |imports|
  {
    if imports == [] then Answer(false, cache)
    else
      var a := Query(files, cache, imports[0], chain);
      if a.gated then a else QueryAny(files, a.cache, imports[1..], chain)
  }

  /** The module-level cache and the recursion that updates it. */
  class GateCache {
    var cache: Cache

    constructor ()
      ensures cache == map[]
    {
      cache := map[];
    }

    method Gated(files: Files, relative: Node, chain: seq<Node>) returns (gated: bool)
      modifies this
      ensures Answer(gated, cache) == Query(files, old(cache), relative, chain)
      decreases files.Keys - Elems(chain)
    {
      if relative in chain || relative !in files {
        return false;
      }
      if Cached(files, cache, relative) {
        return cache[relative].gated;
      }
      gated := Reads(files, relative);
      if !gated {
        assert relative in files.Keys - Elems(chain) && relative !in files.Keys - Elems(chain + [relative]);
        var imports := Imports(files, relative);
        var k := 0;
        while k < |imports| && !gated
          invariant 0 <= k <= |imports|
          invariant QueryAny(files, old(cache), imports, chain + [relative]) ==
                    if gated then Answer(true, cache) else QueryAny(files, cache, imports[k..], chain + [relative])
        {
          gated := Gated(files, imports[k], chain + [relative]);
          k := k + 1;
        }
      }
      cache := cache[relative := Verdict(files[relative].stamp, gated)];
    }
  }

  // What the test is about ----------------------------------------------------

  /** The existing modules, each with the existing modules it imports. */
  ghost function Edges(files: Files): (g: Graph)
    ensures g.Keys == files.Keys && Closed(g)
  {
    map n | n in files :: set m | m in Imports(files, n) && m in files
  }

  /** The graph without the modules in `x`. */
  ghost function Without(g: Graph, x: set<Node>): (h: Graph)
    ensures h.Keys == g.Keys - x
  {
    map n | n in g && n !in x :: g[n] - x
  }

  ghost predicate ReachesReader(files: Files, g: Graph, n: Node) {
    exists m {:trigger Reach(g, n, m)} :: Reach(g, n, m) && Reads(files, m)
  }

  /** `n` reads the URL itself or imports, over any number of steps, a module that does. */
  ghost predicate Gated(files: Files, n: Node) {
    ReachesReader(files, Edges(files), n)
  }

  /** The same over paths that avoid the modules in `x`. */
  ghost predicate GatedAvoiding(files: Files, x: set<Node>, n: Node) {
    ReachesReader(files, Without(Edges(files), x), n)
  }

  lemma WithoutNone(files: Files, n: Node)
    ensures GatedAvoiding(files, {}, n) <==> Gated(files, n)
  {
    var g := Edges(files);
    assert forall m :: m in g ==> g[m] - {} == g[m];
    assert Without(g, {}) == g;
  }

  lemma PathWithout(g: Graph, x: set<Node>, p: seq<Node>)
    ensures IsPath(Without(g, x), p) <==> IsPath(g, p) && (forall i :: 0 <= i < |p| ==> p[i] !in x)
  {
  }

  lemma AvoidingIsGated(files: Files, x: set<Node>, n: Node)
    requires GatedAvoiding(files, x, n)
    ensures Gated(files, n) && n in files && n !in x
  {
    var g := Edges(files);
    var m :| Reach(Without(g, x), n, m) && Reads(files, m);
    var p :| IsPath(Without(g, x), p) && p[0] == n && p[|p| - 1] == m;
    PathWithout(g, x, p);
    assert Reach(g, n, m);
  }

  /** A module that reads is gated; so is one importing a gated module. */
  lemma GatedByImport(files: Files, x: set<Node>, n: Node, m: Node)
    requires n in files && n !in x
    requires m in Imports(files, n) && GatedAvoiding(files, x + {n}, m)
    ensures GatedAvoiding(files, x, n)
  {
    var g := Edges(files);
    var y := x + {n};
    var r :| Reach(Without(g, y), m, r) && Reads(files, r);
    var p :| IsPath(Without(g, y), p) && p[0] == m && p[|p| - 1] == r;
    PathWithout(g, y, p);
    var q := [n] + p;
    assert q[1] in g[q[0]];
    assert IsPath(g, q) by {
      forall i, j | 0 <= i && j == i + 1 && j < |q|
        ensures q[j] in g[q[i]]
      {
        if i > 0 {
          assert q[j] == p[j - 1] && q[i] == p[i - 1];
        }
      }
    }
    PathWithout(g, x, q);
    assert q[|q| - 1] == r;
    assert Reach(Without(g, x), n, r);
  }

  lemma GatedByReading(files: Files, x: set<Node>, n: Node)
    requires Reads(files, n) && n !in x
    ensures GatedAvoiding(files, x, n)
  {
    ReachSelf(Without(Edges(files), x), n);
  }

  /** A gated module that does not read imports one gated without passing it again. */
  lemma GatedHow(files: Files, x: set<Node>, n: Node)
    requires GatedAvoiding(files, x, n) && !Reads(files, n)
    ensures n in files && exists m :: m in Imports(files, n) && GatedAvoiding(files, x + {n}, m)
  {
    var g := Edges(files);
    var r :| Reach(Without(g, x), n, r) && Reads(files, r);
    var p :| IsPath(Without(g, x), p) && p[0] == n && p[|p| - 1] == r;
    PathWithout(g, x, p);
    var k := LastOccurrence(p, n);
    assert p[k + 1] in g[p[k]];
    var q := p[k + 1..];
    DropPath(g, p, k + 1);
    PathWithout(g, x + {n}, q);
    assert Reach(Without(g, x + {n}), q[0], r);
    assert q[0] in Imports(files, n) && GatedAvoiding(files, x + {n}, q[0]);
  }

  lemma DropPath(g: Graph, p: seq<Node>, k: nat)
    requires IsPath(g, p) && k < |p|
    ensures IsPath(g, p[k..])
  {
    var q := p[k..];
    forall i, j | 0 <= i && j == i + 1 && j < |q|
      ensures q[j] in g[q[i]]
    {
      assert q[j] == p[k + j] && q[i] == p[k + i];
    }
  }

  lemma {:induction false} LastOccurrence(p: seq<Node>, n: Node) returns (k: nat)
    requires n in p
    ensures k < |p| && p[k] == n && forall i :: k < i < |p| ==> p[i] != n
  {
    if p[|p| - 1] == n {
      k := |p| - 1;
    } else {
      k := LastOccurrence(p[..|p| - 1], n);
    }
  }

  // True is never wrong --------------------------------------------------------

  lemma GatedThrough(files: Files, n: Node, m: Node)
    requires n in files && m in Imports(files, n) && Gated(files, m)
    ensures Gated(files, n)
  {
    var g := Edges(files);
    var r :| Reach(g, m, r) && Reads(files, r);
    ReachInside(g, m, r);
    ReachEdge(g, n, m);
    ReachTrans(g, n, m, r);
  }

  lemma GatedInside(files: Files, n: Node)
    ensures Gated(files, n) ==> n in files
  {
    if Gated(files, n) {
      var r :| Reach(Edges(files), n, r) && Reads(files, r);
      ReachInside(Edges(files), n, r);
    }
  }

  lemma ReaderGated(files: Files, n: Node)
    requires Reads(files, n)
    ensures Gated(files, n)
  {
    ReachSelf(Edges(files), n);
  }

  /** Every True in the cache is justified. */
  ghost predicate Sound(files: Files, cache: Cache) {
    forall c :: Cached(files, cache, c) && cache[c].gated ==> Gated(files, c)
  }

  /** On every import graph: a True means a reading module is reachable, and so do the Trues it caches. */
  lemma {:induction false} QuerySound(files: Files, cache: Cache, n: Node, chain: seq<Node>)
    requires Sound(files, cache)
    ensures Sound(files, Query(files, cache, n, chain).cache)
    ensures Query(files, cache, n, chain).gated ==> Gated(files, n)
    decreases files.Keys - Elems(chain), 0, 0
  {
    if n !in chain && n in files && !Cached(files, cache, n) {
      if Reads(files, n) {
        ReaderGated(files, n);
      } else {
        assert n in files.Keys - Elems(chain) && n !in files.Keys - Elems(chain + [n]);
        QueryAnySound(files, cache, n, Imports(files, n), chain + [n]);
      }
    }
  }

  lemma {:induction false} QueryAnySound(files: Files, cache: Cache, n: Node, imports: seq<Node>, chain: seq<Node>)
    requires Sound(files, cache) && n in files && forall m :: m in imports ==> m in Imports(files, n)
    ensures Sound(files, QueryAny(files, cache, imports, chain).cache)
    ensures QueryAny(files, cache, imports, chain).gated ==> Gated(files, n)
    decreases files.Keys - Elems(chain), 1, |imports|
  {
    if imports != [] {
      QuerySound(files, cache, imports[0], chain);
      var a := Query(files, cache, imports[0], chain);
      if a.gated {
        GatedThrough(files, n, imports[0]);
      } else {
        QueryAnySound(files, a.cache, n, imports[1..], chain);
      }
    }
  }

  // Answers stay ------------------------------------------------------------------

  /** `later` still holds every current answer of `cache`. */
  ghost predicate Kept(files: Files, cache: Cache, later: Cache) {
    forall c :: Cached(files, cache, c) ==> Cached(files, later, c) && later[c].gated == cache[c].gated
  }

  lemma {:induction false} QueryKeeps(files: Files, cache: Cache, n: Node, chain: seq<Node>)
    ensures Kept(files, cache, Query(files, cache, n, chain).cache)
    ensures n in files && n !in chain ==>
              var a := Query(files, cache, n, chain);
              Cached(files, a.cache, n) && a.cache[n].gated == a.gated
    decreases files.Keys - Elems(chain), 0, 0
  {
    if n !in chain && n in files && !Cached(files, cache, n) && !Reads(files, n) {
      assert n in files.Keys - Elems(chain) && n !in files.Keys - Elems(chain + [n]);
      QueryAnyKeeps(files, cache, Imports(files, n), chain + [n]);
    }
  }

  lemma {:induction false} QueryAnyKeeps(files: Files, cache: Cache, imports: seq<Node>, chain: seq<Node>)
    ensures Kept(files, cache, QueryAny(files, cache, imports, chain).cache)
    decreases files.Keys - Elems(chain), 1, |imports|
  {
    if imports != [] {
      QueryKeeps(files, cache, imports[0], chain);
      QueryAnyKeeps(files, Query(files, cache, imports[0], chain).cache, imports[1..], chain);
    }
  }

  // A first query is exact -----------------------------------------------------------

  /** No cached True yet, and what was answered False leads only to such modules or back to the chain. */
  ghost predicate Blocked(files: Files, cache: Cache, chain: seq<Node>) {
    forall c :: Cached(files, cache, c) ==>
      !cache[c].gated && !Reads(files, c) && BlockedImports(files, cache, chain, Imports(files, c))
  }

  ghost predicate BlockedImports(files: Files, cache: Cache, chain: seq<Node>, imports: seq<Node>) {
    forall m :: m in imports && m in files ==> Cached(files, cache, m) || m in chain
  }

  lemma {:induction false} QueryBlocks(files: Files, cache: Cache, n: Node, chain: seq<Node>)
    requires Blocked(files, cache, chain)
    ensures var a := Query(files, cache, n, chain); !a.gated ==> Blocked(files, a.cache, chain)
    decreases files.Keys - Elems(chain), 0, 0
  {
    if n !in chain && n in files && !Cached(files, cache, n) && !Reads(files, n) {
      assert n in files.Keys - Elems(chain) && n !in files.Keys - Elems(chain + [n]);
      QueryAnyBlocks(files, cache, Imports(files, n), chain + [n]);
    }
  }

  lemma {:induction false} QueryAnyBlocks(files: Files, cache: Cache, imports: seq<Node>, chain: seq<Node>)
    requires Blocked(files, cache, chain)
    ensures var a := QueryAny(files, cache, imports, chain);
            !a.gated ==> Blocked(files, a.cache, chain) && BlockedImports(files, a.cache, chain, imports)
    decreases files.Keys - Elems(chain), 1, |imports|
  {
    if imports != [] {
      QueryBlocks(files, cache, imports[0], chain);
      QueryKeeps(files, cache, imports[0], chain);
      var a := Query(files, cache, imports[0], chain);
      if !a.gated {
        QueryAnyBlocks(files, a.cache, imports[1..], chain);
        QueryAnyKeeps(files, a.cache, imports[1..], chain);
      }
    }
  }

  /** With nothing on the chain, a blocked module reaches no reader. */
  lemma BlockedIsUngated(files: Files, cache: Cache, n: Node)
    requires Blocked(files, cache, []) && Cached(files, cache, n)
    ensures !Gated(files, n)
  {
    var g := Edges(files);
    var region := set c | c in files && Cached(files, cache, c);
    forall m | Reach(g, n, m)
      ensures !Reads(files, m)
    {
      ReachStays(g, region, n, m);
    }
  }

  /** From an empty cache one query is exact, on every import graph, cycles included. */
  lemma FirstQueryExact(files: Files, n: Node)
    ensures Query(files, map[], n, []).gated <==> Gated(files, n)
  {
    QuerySound(files, map[], n, []);
    var a := Query(files, map[], n, []);
    if !a.gated && n in files {
      QueryBlocks(files, map[], n, []);
      QueryKeeps(files, map[], n, []);
      BlockedIsUngated(files, a.cache, n);
    }
    GatedInside(files, n);
  }

  // When every query is exact ------------------------------------------------------------

  /** Below `chain`, is a reader reachable from `m` without meeting the chain again? */
  ghost predicate OpenTo(files: Files, chain: seq<Node>, m: Node) {
    GatedAvoiding(files, Elems(chain), m)
  }

  /** `n` is import number `j` of `p`, and no earlier import of `p` is open below `chain`. */
  ghost predicate Turn(files: Files, chain: seq<Node>, p: Node, n: Node, j: nat)
    requires p in files
  {
    && j < |Imports(files, p)| && Imports(files, p)[j] == n
    && forall i {:trigger OpenTo(files, chain, Imports(files, p)[i])} ::
         0 <= i < j ==> !OpenTo(files, chain, Imports(files, p)[i])
  }

  ghost predicate HasTurn(files: Files, chain: seq<Node>, p: Node, n: Node)
    requires p in files
  {
    exists j :: Turn(files, chain, p, n, j)
  }

  /** The recursion, answering exactly so far, comes to ask for `n` below `chain`. */
  ghost predicate Explored(files: Files, chain: seq<Node>, n: Node)
    decreases |chain|
  {
    chain == [] ||
    var p, above := chain[|chain| - 1], chain[..|chain| - 1];
    && Explored(files, above, p)
    && p in files && p !in above && !Reads(files, p)
    && HasTurn(files, chain, p, n)
  }

  /** A gated module that is asked for while every way from it to a reader leads back through the chain. */
  ghost predicate Trap(files: Files, chain: seq<Node>, n: Node) {
    Explored(files, chain, n) && n in files && n !in chain && Gated(files, n) && !OpenTo(files, chain, n)
  }

  ghost predicate NoTrap(files: Files) {
    forall chain, n :: !Trap(files, chain, n)
  }

  /** Every current answer in the cache is right. */
  ghost predicate Exact(files: Files, cache: Cache) {
    forall c :: Cached(files, cache, c) ==> (cache[c].gated <==> Gated(files, c))
  }

  ghost predicate AnyOpen(files: Files, chain: seq<Node>, imports: seq<Node>) {
    exists m :: m in imports && OpenTo(files, chain, m)
  }

  /** What asking one module amounts to: it reads, or one of its imports is open below it. */
  lemma OpenUnfolds(files: Files, chain: seq<Node>, n: Node)
    requires n in files && n !in chain
    ensures OpenTo(files, chain, n) <==> Reads(files, n) || AnyOpen(files, chain + [n], Imports(files, n))
  {
    assert Elems(chain + [n]) == Elems(chain) + {n};
    if Reads(files, n) {
      GatedByReading(files, Elems(chain), n);
    } else if OpenTo(files, chain, n) {
      GatedHow(files, Elems(chain), n);
    } else if AnyOpen(files, chain + [n], Imports(files, n)) {
      var m :| m in Imports(files, n) && OpenTo(files, chain + [n], m);
      GatedByImport(files, Elems(chain), n, m);
    }
  }

  lemma OpenIsOff(files: Files, chain: seq<Node>, n: Node)
    ensures OpenTo(files, chain, n) ==> n in files && n !in chain && Gated(files, n)
  {
    if OpenTo(files, chain, n) {
      AvoidingIsGated(files, Elems(chain), n);
    }
  }

  lemma ExploredNext(files: Files, chain: seq<Node>, n: Node, j: nat)
    requires Explored(files, chain, n) && n in files && n !in chain && !Reads(files, n)
    requires j < |Imports(files, n)| && !AnyOpen(files, chain + [n], Imports(files, n)[..j])
    ensures Explored(files, chain + [n], Imports(files, n)[j])
  {
    var longer, imports := chain + [n], Imports(files, n);
    assert longer[..|longer| - 1] == chain;
    forall i | 0 <= i < j
      ensures !OpenTo(files, longer, imports[i])
    {
      assert imports[i] == imports[..j][i] && imports[i] in imports[..j];
    }
    assert Turn(files, longer, n, imports[j], j);
  }

  /** Without traps, exact answers stay exact: each answer says whether the module is open below the chain. */
  lemma {:induction false} QueryExact(files: Files, cache: Cache, n: Node, chain: seq<Node>)
    requires NoTrap(files) && Exact(files, cache) && Explored(files, chain, n)
    ensures Exact(files, Query(files, cache, n, chain).cache)
    ensures Query(files, cache, n, chain).gated <==> OpenTo(files, chain, n)
    decreases files.Keys - Elems(chain), 0, 0
  {
    OpenIsOff(files, chain, n);
    if n !in chain && n in files {
      NotTrapped(files, chain, n);
      if !Cached(files, cache, n) {
        OpenUnfolds(files, chain, n);
        if !Reads(files, n) {
          assert n in files.Keys - Elems(chain) && n !in files.Keys - Elems(chain + [n]);
          assert Imports(files, n)[0..] == Imports(files, n);
          QueryAnyExact(files, cache, n, 0, chain);
        }
      }
    }
  }

  lemma NotTrapped(files: Files, chain: seq<Node>, n: Node)
    requires NoTrap(files) && Explored(files, chain, n) && n in files && n !in chain
    ensures Gated(files, n) <==> OpenTo(files, chain, n)
  {
    OpenIsOff(files, chain, n);
    assert !Trap(files, chain, n);
  }

  lemma {:induction false} QueryAnyExact(files: Files, cache: Cache, n: Node, j: nat, chain: seq<Node>)
    requires NoTrap(files) && Exact(files, cache) && Explored(files, chain, n)
    requires n in files && n !in chain && !Reads(files, n) && j <= |Imports(files, n)|
    requires !AnyOpen(files, chain + [n], Imports(files, n)[..j])
    ensures var a := QueryAny(files, cache, Imports(files, n)[j..], chain + [n]);
            Exact(files, a.cache) && (a.gated <==> AnyOpen(files, chain + [n], Imports(files, n)))
    decreases files.Keys - Elems(chain + [n]), 1, |Imports(files, n)| - j
  {
    var imports, longer := Imports(files, n), chain + [n];
    if j == |imports| {
      assert imports[..j] == imports;
    } else {
      var m := imports[j];
      ExploredNext(files, chain, n, j);
      QueryExact(files, cache, m, longer);
      var a := Query(files, cache, m, longer);
      assert imports[j..][1..] == imports[j + 1..];
      assert imports[..j + 1] == imports[..j] + [m];
      if !a.gated {
        QueryAnyExact(files, a.cache, n, j + 1, chain);
      } else {
        assert m in imports;
      }
    }
  }

  /** The answers of a sequence of top-level queries, each leaving its cache to the next. */
  ghost function Answers(files: Files, cache: Cache, queries: seq<Node>): seq<bool>
    decreases |queries|
  {
    if queries == [] then []
    else
      var a := Query(files, cache, queries[0], []);
      [a.gated] + Answers(files, a.cache, queries[1..])
  }

  ghost predicate AllRight(files: Files, queries: seq<Node>, answers: seq<bool>) {
    |answers| == |queries| && forall k :: 0 <= k < |queries| ==> (answers[k] <==> Gated(files, queries[k]))
  }

  lemma {:induction false} AnswersExact(files: Files, cache: Cache, queries: seq<Node>)
    requires NoTrap(files) && Exact(files, cache)
    ensures AllRight(files, queries, Answers(files, cache, queries))
    decreases |queries|
  {
    if queries != [] {
      QueryExact(files, cache, queries[0], []);
      WithoutNone(files, queries[0]);
      AnswersExact(files, Query(files, cache, queries[0], []).cache, queries[1..]);
    }
  }

  // A trap misleads ---------------------------------------------------------------------------

  ghost predicate NoTrue(files: Files, cache: Cache) {
    forall c :: Cached(files, cache, c) ==> !cache[c].gated
  }

  /** While no True is cached, a True means: open below the chain. */
  lemma {:induction false} QueryOpens(files: Files, cache: Cache, n: Node, chain: seq<Node>)
    requires NoTrue(files, cache)
    ensures var a := Query(files, cache, n, chain);
            if a.gated then OpenTo(files, chain, n) else NoTrue(files, a.cache)
    decreases files.Keys - Elems(chain), 0, 0
  {
    if n !in chain && n in files && !Cached(files, cache, n) {
      OpenUnfolds(files, chain, n);
      if !Reads(files, n) {
        assert n in files.Keys - Elems(chain) && n !in files.Keys - Elems(chain + [n]);
        QueryAnyOpens(files, cache, Imports(files, n), chain + [n]);
      }
    }
  }

  lemma {:induction false} QueryAnyOpens(files: Files, cache: Cache, imports: seq<Node>, chain: seq<Node>)
    requires NoTrue(files, cache)
    ensures var a := QueryAny(files, cache, imports, chain);
            if a.gated then AnyOpen(files, chain, imports) else NoTrue(files, a.cache)
    decreases files.Keys - Elems(chain), 1, |imports|
  {
    if imports != [] {
      QueryOpens(files, cache, imports[0], chain);
      var a := Query(files, cache, imports[0], chain);
      if !a.gated {
        QueryAnyOpens(files, a.cache, imports[1..], chain);
      } else {
        assert imports[0] in imports;
      }
    }
  }

  /** A current False for a gated module. */
  ghost predicate Wrong(files: Files, cache: Cache, c: Node) {
    Cached(files, cache, c) && !cache[c].gated && Gated(files, c)
  }

  ghost predicate SomeWrong(files: Files, cache: Cache) {
    exists c :: Wrong(files, cache, c)
  }

  lemma WrongStays(files: Files, cache: Cache, later: Cache)
    requires SomeWrong(files, cache) && Kept(files, cache, later)
    ensures SomeWrong(files, later)
  {
    var c :| Wrong(files, cache, c);
    assert Wrong(files, later, c);
  }

  /** Along the way to a trap every module is gated. */
  lemma {:induction false} WayGated(files: Files, chain: seq<Node>, n: Node, i: nat)
    requires Explored(files, chain, n) && Gated(files, n) && i < |chain|
    ensures chain[i] in files && Gated(files, chain[i])
    decreases |chain|
  {
    var p, above := chain[|chain| - 1], chain[..|chain| - 1];
    var j :| Turn(files, chain, p, n, j);
    GatedThrough(files, p, n);
    if i < |above| {
      WayGated(files, above, p, i);
    }
  }

  /** Every prefix of the way is itself explored, and it turns into its next module at the right moment. */
  lemma {:induction false} WayExplored(files: Files, chain: seq<Node>, n: Node, i: nat)
    requires Explored(files, chain, n) && i < |chain|
    ensures chain[i] in files && chain[i] !in chain[..i] && !Reads(files, chain[i])
    ensures HasTurn(files, chain[..i + 1], chain[i], (chain + [n])[i + 1])
    decreases |chain|
  {
    var p, above := chain[|chain| - 1], chain[..|chain| - 1];
    if i < |above| {
      WayExplored(files, above, p, i);
      assert above[..i + 1] == chain[..i + 1] && above[..i] == chain[..i];
      assert (above + [p])[i + 1] == (chain + [n])[i + 1];
    } else {
      assert chain[..i + 1] == chain && (chain + [n])[i + 1] == n;
    }
  }

  /** Module number `i` of a way to a trap: gated, not met before, and followed in its turn by the next. */
  ghost predicate Stage(files: Files, way: seq<Node>, i: nat)
    requires i < |way|
  {
    && way[i] in files && way[i] !in way[..i] && Gated(files, way[i])
    && if i + 1 < |way| then !Reads(files, way[i]) && HasTurn(files, way[..i + 1], way[i], way[i + 1])
       else !OpenTo(files, way[..i], way[i])
  }

  ghost predicate Route(files: Files, way: seq<Node>) {
    way != [] && forall i {:trigger Stage(files, way, i)} :: 0 <= i < |way| ==> Stage(files, way, i)
  }

  lemma TrapRoute(files: Files, chain: seq<Node>, n: Node)
    requires Trap(files, chain, n)
    ensures Route(files, chain + [n])
  {
    var way := chain + [n];
    forall i | 0 <= i < |way|
      ensures Stage(files, way, i)
    {
      if i < |chain| {
        WayExplored(files, chain, n, i);
        WayGated(files, chain, n, i);
        assert way[..i + 1] == chain[..i + 1] && way[..i] == chain[..i];
      } else {
        assert way[..i] == chain;
      }
    }
  }

  lemma EndLeavesWrong(files: Files, cache: Cache, chain: seq<Node>, n: Node)
    requires n in files && n !in chain && Gated(files, n) && !OpenTo(files, chain, n)
    requires NoTrue(files, cache)
    ensures SomeWrong(files, Query(files, cache, n, chain).cache)
  {
    QueryOpens(files, cache, n, chain);
    QueryKeeps(files, cache, n, chain);
    assert Wrong(files, Query(files, cache, n, chain).cache, n);
  }

  /** Asking, below the first `i` modules of the way, for the next one leaves a wrong answer. */
  lemma {:induction false} WayLeavesWrong(files: Files, cache: Cache, way: seq<Node>, i: nat)
    requires Route(files, way) && NoTrue(files, cache) && i < |way|
    ensures SomeWrong(files, Query(files, cache, way[i], way[..i]).cache)
    decreases |way| - i, 1
  {
    assert Stage(files, way, i);
    if i + 1 == |way| {
      EndLeavesWrong(files, cache, way[..i], way[i]);
    } else if Cached(files, cache, way[i]) {
      assert Wrong(files, cache, way[i]);
    } else {
      var j :| Turn(files, way[..i + 1], way[i], way[i + 1], j);
      ImportsLeaveWrong(files, cache, way, i, j, 0);
      assert Imports(files, way[i])[0..] == Imports(files, way[i]);
      assert way[..i + 1] == way[..i] + [way[i]];
      RecordingKeeps(files, cache, way[i], way[..i]);
    }
  }

  /** Recording the answer for `v` itself does not cover up a wrong one left below it. */
  lemma RecordingKeeps(files: Files, cache: Cache, v: Node, above: seq<Node>)
    requires v in files && v !in above && !Reads(files, v) && !Cached(files, cache, v)
    requires SomeWrong(files, QueryAny(files, cache, Imports(files, v), above + [v]).cache)
    ensures SomeWrong(files, Query(files, cache, v, above).cache)
  {
    var a := QueryAny(files, cache, Imports(files, v), above + [v]);
    var c :| Wrong(files, a.cache, c);
    NeverAsked(files, cache, Imports(files, v), above + [v], v);
    assert Wrong(files, a.cache[v := Verdict(files[v].stamp, a.gated)], c);
  }

  /** What is on the chain is not answered below it. */
  lemma {:induction false} NeverAsked(files: Files, cache: Cache, imports: seq<Node>, chain: seq<Node>, v: Node)
    requires v in chain && !Cached(files, cache, v)
    ensures !Cached(files, QueryAny(files, cache, imports, chain).cache, v)
    decreases files.Keys - Elems(chain), 1, |imports|
  {
    if imports != [] {
      NeverAskedOne(files, cache, imports[0], chain, v);
      NeverAsked(files, Query(files, cache, imports[0], chain).cache, imports[1..], chain, v);
    }
  }

  lemma {:induction false} NeverAskedOne(files: Files, cache: Cache, n: Node, chain: seq<Node>, v: Node)
    requires v in chain && !Cached(files, cache, v)
    ensures !Cached(files, Query(files, cache, n, chain).cache, v)
    decreases files.Keys - Elems(chain), 0, 0
  {
    if n !in chain && n in files && !Cached(files, cache, n) && !Reads(files, n) {
      assert n in files.Keys - Elems(chain) && n !in files.Keys - Elems(chain + [n]);
      NeverAsked(files, cache, Imports(files, n), chain + [n], v);
    }
  }

  lemma {:induction false} ImportsLeaveWrong(files: Files, cache: Cache, way: seq<Node>, i: nat, j: nat, k: nat)
    requires Route(files, way) && NoTrue(files, cache) && i + 1 < |way| && way[i] in files
    requires Turn(files, way[..i + 1], way[i], way[i + 1], j) && k <= j
    ensures SomeWrong(files, QueryAny(files, cache, Imports(files, way[i])[k..], way[..i + 1]).cache)
    decreases |way| - i, 0, j - k
  {
    var imports, longer := Imports(files, way[i]), way[..i + 1];
    var a := Query(files, cache, imports[k], longer);
    assert imports[k..][0] == imports[k] && imports[k..][1..] == imports[k + 1..];
    if k < j {
      QueryOpens(files, cache, imports[k], longer);
      ImportsLeaveWrong(files, a.cache, way, i, j, k + 1);
    } else {
      WayLeavesWrong(files, cache, way, i + 1);
      QueryAnyKeeps(files, a.cache, imports[k + 1..], longer);
      if !a.gated {
        WrongStays(files, a.cache, QueryAny(files, a.cache, imports[k + 1..], longer).cache);
      }
    }
  }

  lemma TwoAnswers(files: Files, first: Node, second: Node)
    ensures Answers(files, map[], [first, second]) ==
            var a := Query(files, map[], first, []);
            [a.gated, Query(files, a.cache, second, []).gated]
  {
    var a := Query(files, map[], first, []);
    assert [first, second][1..] == [second];
    assert [second][1..] == [];
    assert Answers(files, a.cache, [second]) == [Query(files, a.cache, second, []).gated];
  }

  lemma FirstLeavesWrong(files: Files, chain: seq<Node>, n: Node) returns (wrong: Node)
    requires Trap(files, chain, n)
    ensures chain != [] && Wrong(files, Query(files, map[], chain[0], []).cache, wrong)
  {
    WithoutNone(files, n);
    assert Elems<Node>([]) == {};
    assert chain != [];
    TrapRoute(files, chain, n);
    WayLeavesWrong(files, map[], chain + [n], 0);
    assert (chain + [n])[0] == chain[0] && (chain + [n])[..0] == [];
    wrong :| Wrong(files, Query(files, map[], chain[0], []).cache, wrong);
  }

  /** If the graph has a trap, two queries from an empty cache suffice for a wrong answer. */
  lemma TrapMisleads(files: Files, chain: seq<Node>, n: Node) returns (first: Node, second: Node)
    requires Trap(files, chain, n)
    ensures !AllRight(files, [first, second], Answers(files, map[], [first, second]))
  {
    second := FirstLeavesWrong(files, chain, n);
    first := chain[0];
    TwoAnswers(files, first, second);
    var answers := Answers(files, map[], [first, second]);
    assert [first, second][1] == second && !answers[1];
  }

  /** Every sequence of queries on unchanged files is answered exactly if and only if there is no trap. */
  lemma AlwaysExact(files: Files)
    ensures NoTrap(files) <==>
            forall queries :: AllRight(files, queries, Answers(files, map[], queries))
  {
    if NoTrap(files) {
      forall queries
        ensures AllRight(files, queries, Answers(files, map[], queries))
      {
        AnswersExact(files, map[], queries);
      }
    } else {
      var chain, n :| Trap(files, chain, n);
      var first, second := TrapMisleads(files, chain, n);
    }
  }

  // Graphs without import cycles ----------------------------------------------------------------

  lemma {:induction false} ChainReaches(files: Files, chain: seq<Node>, n: Node, k: nat)
    requires Explored(files, chain, n) && n in files && k < |chain|
    ensures Reach(Edges(files), chain[k], n)
    decreases |chain|
  {
    var g := Edges(files);
    var p, above := chain[|chain| - 1], chain[..|chain| - 1];
    var j :| Turn(files, chain, p, n, j);
    ReachEdge(g, p, n);
    if k < |above| {
      ChainReaches(files, above, p, k);
      ReachTrans(g, chain[k], p, n);
    }
  }

  lemma AvoidingByPath(files: Files, x: set<Node>, p: seq<Node>)
    requires IsPath(Edges(files), p) && Reads(files, p[|p| - 1]) && forall i :: 0 <= i < |p| ==> p[i] !in x
    ensures GatedAvoiding(files, x, p[0])
  {
    PathWithout(Edges(files), x, p);
    assert Reach(Without(Edges(files), x), p[0], p[|p| - 1]);
  }

  lemma ReachPrefix(g: Graph, p: seq<Node>, i: nat)
    requires IsPath(g, p) && i < |p|
    ensures Reach(g, p[0], p[i])
  {
    var q := p[..i + 1];
    assert IsPath(g, q) && q[0] == p[0] && q[|q| - 1] == p[i];
  }

  /** A gated module with no way past `x` reaches a module of `x`. */
  lemma MeetsSet(files: Files, x: set<Node>, n: Node) returns (m: Node)
    requires Gated(files, n) && !GatedAvoiding(files, x, n)
    ensures m in x && Reach(Edges(files), n, m)
  {
    var g := Edges(files);
    var r :| Reach(g, n, r) && Reads(files, r);
    var p :| IsPath(g, p) && p[0] == n && p[|p| - 1] == r;
    if forall i :: 0 <= i < |p| ==> p[i] !in x {
      AvoidingByPath(files, x, p);
    }
    var i :| 0 <= i < |p| && p[i] in x;
    ReachPrefix(g, p, i);
    m := p[i];
  }

  /** The trapped module and a module of the chain import each other, over some steps. */
  lemma TrapIsCycle(files: Files, chain: seq<Node>, n: Node) returns (x: Node)
    requires Trap(files, chain, n)
    ensures x != n && Mutual(Edges(files), x, n)
  {
    x := MeetsSet(files, Elems(chain), n);
    var k :| 0 <= k < |chain| && chain[k] == x;
    ChainReaches(files, chain, n, k);
  }

  lemma ComponentOf(g: Graph, n: Node) returns (c: set<Node>)
    requires n in g
    ensures IsComponent(g, c) && n in c && forall x :: x in g && Mutual(g, x, n) ==> x in c
  {
    c := set x | x in g && Mutual(g, x, n);
    ReachSelf(g, n);
    assert n in c;
    forall x, y | x in c && y in g
      ensures y in c <==> Mutual(g, x, y)
    {
      if y in c {
        ReachTrans(g, x, n, y);
        ReachTrans(g, y, n, x);
      } else if Mutual(g, x, y) {
        ReachTrans(g, y, x, n);
        ReachTrans(g, n, x, y);
      }
    }
  }

  /** When the cycle detector finds no import cycle among the test modules, every query is exact. */
  lemma AcyclicExact(files: Files, queries: seq<Node>)
    requires ImportCycles.Report(Edges(files), [])
    ensures AllRight(files, queries, Answers(files, map[], queries))
  {
    var g := Edges(files);
    forall chain, n
      ensures !Trap(files, chain, n)
    {
      if Trap(files, chain, n) {
        var x := TrapIsCycle(files, chain, n);
        ReachInside(g, x, n);
        var c := ComponentOf(g, n);
        TwoElements(c, x, n);
        NothingReported(c);
      }
    }
    AnswersExact(files, map[], queries);
  }

  lemma NothingReported(c: set<Node>)
    ensures !ImportCycles.Reports([], c)
  {
  }

  lemma TwoElements<T>(c: set<T>, x: T, y: T)
    requires x in c && y in c && x != y
    ensures |c| > 1
  {
    assert |c| == |c - {x}| + 1;
    assert y in c - {x};
  }

  ghost function Example(): Files {
    map["a" := File(0, Parsed(false, ["b", "c"])),
        "b" := File(0, Parsed(false, ["a"])),
        "c" := File(0, Parsed(true, []))]
  }

  lemma ExampleBelow()
    ensures Query(Example(), map[], "b", ["a"]) == Answer(false, map["b" := Verdict(0, false)])
  {
    assert ["a"][1..] == [] && ["a"] + ["b"] == ["a", "b"];
    assert Query(Example(), map[], "a", ["a", "b"]) == Answer(false, map[]);
    assert QueryAny(Example(), map[], ["a"], ["a", "b"]) == Answer(false, map[]);
  }

  lemma ExampleFirst()
    ensures var a := Query(Example(), map[], "a", []);
            a.gated && "b" in a.cache && a.cache["b"] == Verdict(0, false)
  {
    var before: Cache := map["b" := Verdict(0, false)];
    var after := before["c" := Verdict(0, true)];
    ExampleBelow();
    assert ["b", "c"][1..] == ["c"] && [] + ["a"] == ["a"];
    assert Query(Example(), before, "c", ["a"]) == Answer(true, after);
    assert QueryAny(Example(), before, ["c"], ["a"]) == Answer(true, after);
    assert QueryAny(Example(), map[], ["b", "c"], ["a"]) == Answer(true, after);
  }

  /** A cycle that does mislead: after `a` was asked, `b` is answered False although it leads to the reader `c`. */
  lemma CycleMisleads()
    ensures Gated(Example(), "b") && Answers(Example(), map[], ["a", "b"]) == [true, false]
  {
    ReaderGated(Example(), "c");
    GatedThrough(Example(), "a", "c");
    GatedThrough(Example(), "b", "a");
    ExampleFirst();
    TwoAnswers(Example(), "a", "b");
  }
}
