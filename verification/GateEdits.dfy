/**
 The gate's cache over edits of the file tree. An answer is stamped with its own
 file only, so an edited helper leaves the cached answers of its importers
 standing. What follows says exactly which edits do harm.
 */
module GateEdits {
  import opened Orders
  import opened Graphs
  import opened GateTest

  /** The tree before the first edit, after it, and so on. */
  type Versions = seq<Files>

  /** The stamp of the file is the same in both versions. */
  ghost predicate Standing(versions: Versions, i: nat, j: nat, c: Node)
    requires i < |versions| && j < |versions|
  {
    c in versions[i] && c in versions[j] && versions[i][c].stamp == versions[j][c].stamp
  }

  /** A file that was not edited has not become gated by edits of other files, nor ceased to be. */
  ghost predicate Steady(versions: Versions) {
    forall i, j, c :: 0 <= i < j < |versions| && Standing(versions, i, j, c) ==>
      (Gated(versions[i], c) <==> Gated(versions[j], c))
  }

  // Sessions -----------------------------------------------------------------------------------

  ghost function After(files: Files, cache: Cache, queries: seq<Node>): Cache
    decreases |queries|
  {
    if queries == [] then cache else After(files, Query(files, cache, queries[0], []).cache, queries[1..])
  }

  /** The cache when version `k` comes into force: what the queries on the versions before it left. */
  ghost function CacheAt(versions: Versions, queries: seq<seq<Node>>, k: nat): Cache
    requires k <= |versions| == |queries|
  {
    if k == 0 then map[] else After(versions[k - 1], CacheAt(versions, queries, k - 1), queries[k - 1])
  }

  /** Every query of the session is answered as the files then are. */
  ghost predicate SessionRight(versions: Versions, queries: seq<seq<Node>>)
    requires |queries| == |versions|
  {
    forall k :: 0 <= k < |versions| ==> VersionRight(versions, queries, k)
  }

  ghost predicate VersionRight(versions: Versions, queries: seq<seq<Node>>, k: nat)
    requires k < |versions| == |queries|
  {
    AllRight(versions[k], queries[k], Answers(versions[k], CacheAt(versions, queries, k), queries[k]))
  }

  // Where cached answers come from -----------------------------------------------------------------

  /** Every answer in `later` was in `cache`, or is stamped with its file as it is now. */
  ghost predicate Added(files: Files, cache: Cache, later: Cache) {
    forall c :: c in later ==>
      (c in cache && later[c] == cache[c]) || (c in files && later[c].stamp == files[c].stamp)
  }

  lemma {:induction false} QueryAdds(files: Files, cache: Cache, n: Node, chain: seq<Node>)
    ensures Added(files, cache, Query(files, cache, n, chain).cache)
    decreases files.Keys - Elems(chain), 0, 0
  {
    if n !in chain && n in files && !Cached(files, cache, n) && !Reads(files, n) {
      assert n in files.Keys - Elems(chain) && n !in files.Keys - Elems(chain + [n]);
      QueryAnyAdds(files, cache, Imports(files, n), chain + [n]);
    }
  }

  lemma {:induction false} QueryAnyAdds(files: Files, cache: Cache, imports: seq<Node>, chain: seq<Node>)
    ensures Added(files, cache, QueryAny(files, cache, imports, chain).cache)
    decreases files.Keys - Elems(chain), 1, |imports|
  {
    if imports != [] {
      QueryAdds(files, cache, imports[0], chain);
      QueryAnyAdds(files, Query(files, cache, imports[0], chain).cache, imports[1..], chain);
    }
  }

  lemma {:induction false} AfterAdds(files: Files, cache: Cache, queries: seq<Node>)
    ensures Added(files, cache, After(files, cache, queries))
    decreases |queries|
  {
    if queries != [] {
      QueryAdds(files, cache, queries[0], []);
      AfterAdds(files, Query(files, cache, queries[0], []).cache, queries[1..]);
    }
  }

  lemma {:induction false} AfterExact(files: Files, cache: Cache, queries: seq<Node>)
    requires NoTrap(files) && Exact(files, cache)
    ensures Exact(files, After(files, cache, queries))
    decreases |queries|
  {
    if queries != [] {
      QueryExact(files, cache, queries[0], []);
      AfterExact(files, Query(files, cache, queries[0], []).cache, queries[1..]);
    }
  }

  // Steady versions are answered exactly -----------------------------------------------------------

  /** The answer was right for one of the first `k` versions, and is stamped with the file of that version. */
  ghost predicate Earned(versions: Versions, k: nat, c: Node, v: Verdict)
    requires k <= |versions|
  {
    exists i :: 0 <= i < k && RightIn(versions[i], c, v)
  }

  ghost predicate RightIn(files: Files, c: Node, v: Verdict) {
    c in files && v.stamp == files[c].stamp && (v.gated <==> Gated(files, c))
  }

  ghost predicate AllEarned(versions: Versions, k: nat, cache: Cache)
    requires k <= |versions|
  {
    forall c :: c in cache ==> Earned(versions, k, c, cache[c])
  }

  /** Answers earned on steady versions are right for the next one. */
  lemma EarnedIsExact(versions: Versions, k: nat, cache: Cache)
    requires k < |versions| && Steady(versions) && AllEarned(versions, k, cache)
    ensures Exact(versions[k], cache)
  {
    forall c | Cached(versions[k], cache, c)
      ensures cache[c].gated <==> Gated(versions[k], c)
    {
      assert Earned(versions, k, c, cache[c]);
      var i :| 0 <= i < k && RightIn(versions[i], c, cache[c]);
      assert Standing(versions, i, k, c);
    }
  }

  lemma EarnedNext(versions: Versions, k: nat, cache: Cache, later: Cache)
    requires k < |versions| && AllEarned(versions, k, cache)
    requires Added(versions[k], cache, later) && Exact(versions[k], later)
    ensures AllEarned(versions, k + 1, later)
  {
    forall c | c in later
      ensures Earned(versions, k + 1, c, later[c])
    {
      if c in cache && later[c] == cache[c] {
        assert Earned(versions, k, c, cache[c]);
      } else {
        assert Cached(versions[k], later, c) && RightIn(versions[k], c, later[c]);
      }
    }
  }

  lemma VersionEarns(versions: Versions, k: nat, cache: Cache, queries: seq<Node>)
    requires k < |versions| && Steady(versions) && NoTrap(versions[k]) && AllEarned(versions, k, cache)
    ensures AllEarned(versions, k + 1, After(versions[k], cache, queries))
  {
    EarnedIsExact(versions, k, cache);
    AfterExact(versions[k], cache, queries);
    AfterAdds(versions[k], cache, queries);
    EarnedNext(versions, k, cache, After(versions[k], cache, queries));
  }

  lemma {:induction false} CacheEarned(versions: Versions, queries: seq<seq<Node>>, k: nat)
    requires k <= |versions| == |queries| && Steady(versions)
    requires forall i :: 0 <= i < |versions| ==> NoTrap(versions[i])
    ensures AllEarned(versions, k, CacheAt(versions, queries, k))
  {
    if k > 0 {
      CacheEarned(versions, queries, k - 1);
      VersionEarns(versions, k - 1, CacheAt(versions, queries, k - 1), queries[k - 1]);
    }
  }

  lemma SteadyIsRight(versions: Versions, queries: seq<seq<Node>>)
    requires |queries| == |versions| && Steady(versions)
    requires forall i :: 0 <= i < |versions| ==> NoTrap(versions[i])
    ensures SessionRight(versions, queries)
  {
    forall k | 0 <= k < |versions|
      ensures VersionRight(versions, queries, k)
    {
      CacheEarned(versions, queries, k);
      EarnedIsExact(versions, k, CacheAt(versions, queries, k));
      AnswersExact(versions[k], CacheAt(versions, queries, k), queries[k]);
    }
  }

  // An edit that does harm ----------------------------------------------------------------------------

  /** One question, asked of version `i` and again of version `j`. */
  function AskedTwice(n: nat, i: nat, j: nat, c: Node): seq<seq<Node>> {
    seq(n, k requires 0 <= k < n => if k == i || k == j then [c] else [])
  }

  lemma AskedOnce(files: Files, cache: Cache, c: Node)
    ensures After(files, cache, [c]) == Query(files, cache, c, []).cache
    ensures Answers(files, cache, [c]) == [Query(files, cache, c, []).gated]
  {
    assert [c][1..] == [];
  }

  lemma {:induction false} CacheWhenAskedTwice(versions: Versions, i: nat, j: nat, c: Node, k: nat)
    requires i < j < |versions| && k <= j
    ensures CacheAt(versions, AskedTwice(|versions|, i, j, c), k) ==
      if k <= i then map[] else Query(versions[i], map[], c, []).cache
  {
    if k > 0 {
      CacheWhenAskedTwice(versions, i, j, c, k - 1);
      if k - 1 == i {
        AskedOnce(versions[i], map[], c);
      }
    }
  }

  /** A file whose stamp stands while edits of others have changed its answer is answered wrongly. */
  lemma EditMisleads(versions: Versions, i: nat, j: nat, c: Node)
    requires i < j < |versions| && Standing(versions, i, j, c)
    requires !(Gated(versions[i], c) <==> Gated(versions[j], c))
    ensures !SessionRight(versions, AskedTwice(|versions|, i, j, c))
  {
    var queries := AskedTwice(|versions|, i, j, c);
    var cache := Query(versions[i], map[], c, []).cache;
    CacheWhenAskedTwice(versions, i, j, c, j);
    FirstQueryExact(versions[i], c);
    QueryKeeps(versions[i], map[], c, []);
    AskedOnce(versions[j], cache, c);
    assert Cached(versions[j], cache, c);
    assert queries[j] == [c] && !VersionRight(versions, queries, j);
  }

  /**
   Over any number of edits, where no version has a trap: every session of queries
   is answered exactly if and only if no file whose stamp stands becomes gated, or
   ceases to be, by edits of other files.
   */
  lemma EditsExact(versions: Versions)
    requires forall i :: 0 <= i < |versions| ==> NoTrap(versions[i])
    ensures Steady(versions) <==>
      forall queries: seq<seq<Node>> :: |queries| == |versions| ==> SessionRight(versions, queries)
  {
    if Steady(versions) {
      forall queries: seq<seq<Node>> | |queries| == |versions|
        ensures SessionRight(versions, queries)
      {
        SteadyIsRight(versions, queries);
      }
    } else {
      var i, j, c :| 0 <= i < j < |versions| && Standing(versions, i, j, c) &&
        !(Gated(versions[i], c) <==> Gated(versions[j], c));
      EditMisleads(versions, i, j, c);
    }
  }

  // Harmless edits --------------------------------------------------------------------------------------

  /** The file is as it was, and so is which of its imports exist. */
  ghost predicate Untouched(files: Files, later: Files, n: Node) {
    && n in files && n in later && files[n] == later[n]
    && forall m :: m in Imports(files, n) ==> (m in files <==> m in later)
  }

  /** Everything the file leads to is untouched. */
  ghost predicate OutOfReach(files: Files, later: Files, c: Node) {
    forall n :: Reach(Edges(files), c, n) ==> Untouched(files, later, n)
  }

  lemma SameEdges(files: Files, later: Files, n: Node)
    requires Untouched(files, later, n)
    ensures Edges(files)[n] == Edges(later)[n]
  {
  }

  lemma PathKept(files: Files, later: Files, p: seq<Node>)
    requires IsPath(Edges(files), p) && OutOfReach(files, later, p[0])
    ensures IsPath(Edges(later), p)
  {
    forall i | 0 <= i < |p|
      ensures Untouched(files, later, p[i]) && Edges(files)[p[i]] == Edges(later)[p[i]]
    {
      ReachPrefix(Edges(files), p, i);
      SameEdges(files, later, p[i]);
    }
  }

  lemma ReachKept(files: Files, later: Files, c: Node, n: Node)
    requires c in files && OutOfReach(files, later, c)
    ensures Reach(Edges(files), c, n) <==> Reach(Edges(later), c, n)
  {
    var g, h := Edges(files), Edges(later);
    if Reach(g, c, n) {
      var p :| IsPath(g, p) && p[0] == c && p[|p| - 1] == n;
      PathKept(files, later, p);
    }
    if Reach(h, c, n) {
      var region := set m | m in files && Reach(g, c, m);
      ReachSelf(g, c);
      forall u | u in region && u in h
        ensures h[u] <= region
      {
        RegionCloses(files, later, c, u);
      }
      ReachStays(h, region, c, n);
    }
  }

  lemma RegionCloses(files: Files, later: Files, c: Node, u: Node)
    requires OutOfReach(files, later, c) && Reach(Edges(files), c, u) && u in Edges(later)
    ensures forall v :: v in Edges(later)[u] ==> v in files && Reach(Edges(files), c, v)
  {
    var g := Edges(files);
    SameEdges(files, later, u);
    forall v | v in Edges(later)[u]
      ensures v in files && Reach(g, c, v)
    {
      ReachEdge(g, u, v);
      ReachTrans(g, c, u, v);
    }
  }

  /** Edits out of its reach leave a file gated or not, as it was. */
  lemma HarmlessEdit(files: Files, later: Files, c: Node)
    requires c in files && OutOfReach(files, later, c)
    ensures Gated(files, c) <==> Gated(later, c)
  {
    forall n
      ensures Reach(Edges(files), c, n) && Reads(files, n) <==> Reach(Edges(later), c, n) && Reads(later, n)
    {
      ReachKept(files, later, c, n);
    }
  }

  /** So the cached answers of files that lead to no edit stay right. */
  lemma HarmlessKeepsExact(files: Files, later: Files, cache: Cache)
    requires Exact(files, cache)
    requires forall c :: Cached(later, cache, c) ==> Cached(files, cache, c) && OutOfReach(files, later, c)
    ensures Exact(later, cache)
  {
    forall c | Cached(later, cache, c)
      ensures cache[c].gated <==> Gated(later, c)
    {
      HarmlessEdit(files, later, c);
    }
  }

  // One harmful edit ---------------------------------------------------------------------------------------

  const BEFORE: Files := map["t" := File(0, Parsed(false, ["h"])), "h" := File(0, Parsed(false, []))]

  const EDITED: Files := map["t" := File(0, Parsed(false, ["h"])), "h" := File(1, Parsed(true, []))]

  lemma NobodyReads()
    ensures !Gated(BEFORE, "t")
  {
    forall n
      ensures !Reads(BEFORE, n)
    {
    }
  }

  /** A helper comes to read the URL: its importer, asked before and after, is answered False both times. */
  lemma HelperEditMisleads()
    ensures !Gated(BEFORE, "t") && Gated(EDITED, "t")
    ensures !SessionRight([BEFORE, EDITED], AskedTwice(2, 0, 1, "t"))
  {
    NobodyReads();
    ReaderGated(EDITED, "h");
    GatedThrough(EDITED, "t", "h");
    assert Standing([BEFORE, EDITED], 0, 1, "t");
    EditMisleads([BEFORE, EDITED], 0, 1, "t");
  }
}
