/**
 The pytest command line of a shard: directories where that is cheap, files
 where it is not, and `--ignore` options for the rest. pytest collects every
 test file at or below a path argument and drops the ignored ones; that must
 be exactly the shard's targets.
 */
module ShardArguments {
  import opened Orders
  import opened Paths

  /** `path` lies below the directory `dir`. */
  predicate Under(dir: string, path: string) {
    |dir| < |path| && path[..|dir|] == dir && path[|dir|] == '/'
  }

  /** A path argument collects the file it names, or what lies below the directory it names. */
  predicate Covers(argument: string, file: string) {
    file == argument || Under(argument, file)
  }

  ghost predicate Covered(paths: seq<string>, file: string) {
    exists k :: 0 <= k < |paths| && Covers(paths[k], file)
  }

  /** What pytest runs of `file`. */
  ghost predicate Collected(paths: seq<string>, ignores: seq<string>, file: string) {
    Covered(paths, file) && file !in ignores
  }

  /** No argument lies below another. */
  ghost predicate Loose(paths: seq<string>) {
    forall i, j :: 0 <= i < |paths| && 0 <= j < |paths| ==> !Under(paths[i], paths[j])
  }

  /** No argument repeats another or lies below another. */
  ghost predicate Apart(paths: seq<string>) {
    forall i, j :: 0 <= i < |paths| && 0 <= j < |paths| && i != j ==> !Covers(paths[i], paths[j])
  }

  /** A file tree: no file lies below another. */
  ghost predicate Tree(files: seq<string>) {
    forall f, g :: f in files && g in files ==> !Under(f, g)
  }

  /** The arguments stay within the zones, collect exactly the targets there, and ignore no target and few files. */
  ghost predicate Collects(files: seq<string>, targets: set<string>, zones: set<string>,
                           paths: seq<string>, ignores: seq<string>)
  {
    && (forall k {:trigger InZones(zones, paths[k])} :: 0 <= k < |paths| ==> InZones(zones, paths[k]))
    && (forall x :: x in ignores ==> x in files && InZones(zones, x) && x !in targets)
    && (forall f {:trigger Collected(paths, ignores, f)} ::
          f in files && InZones(zones, f) ==> (Collected(paths, ignores, f) <==> f in targets))
    && Loose(paths) && (Distinct(files) ==> Distinct(paths))
    && SealedFew(files, targets, zones, |ignores|)
  }

  /** Where the list names a target within the zones. */
  ghost function Hits(files: seq<string>, targets: set<string>, zones: set<string>): set<nat> {
    set k: nat | k < |files| && files[k] in targets && InZones(zones, files[k])
  }

  /** Per five targets at most one file is ignored. */
  ghost predicate Few(files: seq<string>, targets: set<string>, zones: set<string>, ignored: nat) {
    5 * ignored <= |Hits(files, targets, zones)|
  }

  /** Holds of every value; mentioning it is what lets the verifier look inside the sealed predicate. */
  ghost predicate Opened(zones: set<string>) {
    true
  }

  /** Equals `Few`. */
  ghost predicate SealedFew(files: seq<string>, targets: set<string>, zones: set<string>, ignored: nat) {
    forall z {:trigger Opened(z)} :: Opened(z) && z == zones ==> Few(files, targets, z, ignored)
  }

  lemma OpenFew(files: seq<string>, targets: set<string>, zones: set<string>, ignored: nat)
    ensures SealedFew(files, targets, zones, ignored) <==> Few(files, targets, zones, ignored)
  {
    assert Opened(zones);
  }

  ghost predicate InZones(zones: set<string>, x: string) {
    exists z :: z in zones && Covers(z, x)
  }

  /** An entry of `dir` itself: one name below it. */
  predicate Entry(dir: string, z: string) {
    Under(dir, z) && '/' !in z[|dir| + 1..]
  }

  // Prefix facts ------------------------------------------------------------

  /** Different entries of a directory share nothing. */
  lemma EntriesApart(dir: string, y: string, z: string, x: string)
    requires Entry(dir, y) && Entry(dir, z) && Covers(y, x) && Covers(z, x)
    ensures y == z
  {
    assert y == x[..|y|] && z == x[..|z|];
  }

  // Putting zones together -----------------------------------------------------

  lemma CoveredJoin(a: seq<string>, b: seq<string>, f: string)
    ensures Covered(a + b, f) <==> Covered(a, f) || Covered(b, f)
  {
    if Covered(a, f) {
      var k :| 0 <= k < |a| && Covers(a[k], f);
      assert (a + b)[k] == a[k];
    }
    if Covered(b, f) {
      var k :| 0 <= k < |b| && Covers(b[k], f);
      assert (a + b)[|a| + k] == b[k];
    }
  }

  /** What is covered from within a zone lies in the zone. */
  lemma CoveredInZone(zones: set<string>, paths: seq<string>, f: string)
    requires forall k :: 0 <= k < |paths| ==> InZones(zones, paths[k])
    requires Covered(paths, f)
    ensures InZones(zones, f)
  {
    var k :| 0 <= k < |paths| && Covers(paths[k], f);
    var z :| z in zones && Covers(z, paths[k]);
  }

  ghost predicate Disjoint(a: set<string>, b: set<string>) {
    forall x :: !(InZones(a, x) && InZones(b, x))
  }

  lemma LooseJoin(za: set<string>, a: seq<string>, zb: set<string>, b: seq<string>)
    requires Loose(a) && Loose(b) && Disjoint(za, zb)
    requires forall k :: 0 <= k < |a| ==> InZones(za, a[k])
    requires forall k :: 0 <= k < |b| ==> InZones(zb, b[k])
    ensures Loose(a + b) && (Distinct(a) && Distinct(b) ==> Distinct(a + b))
  {
    var c := a + b;
    assert forall k :: 0 <= k < |c| ==> if k < |a| then InZones(za, c[k]) else c[k] == b[k - |a|] && InZones(zb, c[k]);
    forall i, j | 0 <= i < |c| && 0 <= j < |c|
      ensures !Under(c[i], c[j])
    {
      if Under(c[i], c[j]) {
        if i < |a| && |a| <= j {
          assert Covered(a, c[j]);
          CoveredInZone(za, a, c[j]);
        } else if j < |a| && |a| <= i {
          assert Covered(b, c[j]);
          CoveredInZone(zb, b, c[j]);
        }
      }
    }
  }

  lemma HitsJoin(files: seq<string>, targets: set<string>, za: set<string>, zb: set<string>)
    requires Disjoint(za, zb)
    ensures |Hits(files, targets, za + zb)| == |Hits(files, targets, za)| + |Hits(files, targets, zb)|
  {
    var a, b := Hits(files, targets, za), Hits(files, targets, zb);
    forall k
      ensures k in Hits(files, targets, za + zb) <==> k in a || k in b
    {
    }
    assert a !! b;
    assert Hits(files, targets, za + zb) == a + b;
  }

  lemma FewJoin(files: seq<string>, targets: set<string>, za: set<string>, a: nat, zb: set<string>, b: nat)
    requires SealedFew(files, targets, za, a) && SealedFew(files, targets, zb, b) && Disjoint(za, zb)
    ensures SealedFew(files, targets, za + zb, a + b)
  {
    OpenFew(files, targets, za, a);
    OpenFew(files, targets, zb, b);
    OpenFew(files, targets, za + zb, a + b);
    HitsJoin(files, targets, za, zb);
  }

  lemma CollectsJoin(files: seq<string>, targets: set<string>, za: set<string>, pa: seq<string>, ia: seq<string>,
                     zb: set<string>, pb: seq<string>, ib: seq<string>)
    requires Collects(files, targets, za, pa, ia) && Collects(files, targets, zb, pb, ib) && Disjoint(za, zb)
    ensures Collects(files, targets, za + zb, pa + pb, ia + ib)
  {
    FewJoin(files, targets, za, |ia|, zb, |ib|);
    LooseJoin(za, pa, zb, pb);
    forall k | 0 <= k < |pa + pb|
      ensures InZones(za + zb, (pa + pb)[k])
    {
    }
    forall x | x in ia + ib
      ensures x in files && InZones(za + zb, x) && x !in targets
    {
    }
    forall f | f in files && InZones(za + zb, f)
      ensures Collected(pa + pb, ia + ib, f) <==> f in targets
    {
      CoveredJoin(pa, pb, f);
      assert InZones(za, f) ==> (Collected(pa, ia, f) <==> f in targets);
      assert InZones(zb, f) ==> (Collected(pb, ib, f) <==> f in targets);
      if Covered(pa, f) {
        CoveredInZone(za, pa, f);
      }
      if Covered(pb, f) {
        CoveredInZone(zb, pb, f);
      }
    }
  }

  /** The entries of a directory that hold all its files stand for the directory. */
  lemma CollectsWiden(files: seq<string>, targets: set<string>, dir: string, zones: set<string>,
                      paths: seq<string>, ignores: seq<string>)
    requires Collects(files, targets, zones, paths, ignores)
    requires forall z :: z in zones ==> Covers(dir, z)
    requires forall f :: f in files && Covers(dir, f) ==> InZones(zones, f)
    ensures Collects(files, targets, {dir}, paths, ignores)
  {
    forall x | InZones(zones, x)
      ensures InZones({dir}, x)
    {
      var z :| z in zones && Covers(z, x);
    }
    SubsetSize(Hits(files, targets, zones), Hits(files, targets, {dir}));
    OpenFew(files, targets, zones, |ignores|);
    OpenFew(files, targets, {dir}, |ignores|);
    forall f | f in files && InZones({dir}, f)
      ensures Collected(paths, ignores, f) <==> f in targets
    {
      assert Covers(dir, f);
    }
  }

  /** A file argument, or none, settles the zone that is a file. */
  lemma CollectsFile(files: seq<string>, targets: set<string>, f: string)
    requires Tree(files) && f in files
    ensures Collects(files, targets, {f}, if f in targets then [f] else [], [])
  {
    var paths := if f in targets then [f] else [];
    forall g | g in files && InZones({f}, g)
      ensures Collected(paths, [], g) <==> g in targets
    {
      assert g == f;
      if f in targets {
        assert Covers(paths[0], g);
      }
    }
    assert f in targets ==> InZones({f}, paths[0]);
  }

  lemma EntriesDisjoint(dir: string, a: set<string>, b: set<string>)
    requires a !! b && forall z :: z in a + b ==> Entry(dir, z)
    ensures Disjoint(a, b)
  {
    forall x
      ensures !(InZones(a, x) && InZones(b, x))
    {
      if InZones(a, x) && InZones(b, x) {
        var y :| y in a && Covers(y, x);
        var z :| z in b && Covers(z, x);
        EntriesApart(dir, y, z, x);
      }
    }
  }

  // What is named ---------------------------------------------------------------------

  /** A directory worth naming: it has targets below it, and per five of them at most one other file. */
  ghost predicate Cheap(files: seq<string>, targets: set<string>, dir: string) {
    var wanted, others := PlacesBelow(files, targets, dir, true), PlacesBelow(files, targets, dir, false);
    |wanted| > 0 && 5 * |others| <= |wanted|
  }

  /** From `top` down, no directory above `p` is worth naming. */
  ghost predicate Uncovered(files: seq<string>, targets: set<string>, top: string, p: string) {
    forall a :: Covers(top, a) && Under(a, p) ==> !Cheap(files, targets, a)
  }

  /** From `top` down, the first directories worth naming are named. */
  ghost predicate NamesDirectory(files: seq<string>, targets: set<string>, top: string, p: string) {
    Covers(top, p) && Cheap(files, targets, p) && Uncovered(files, targets, top, p)
  }

  /** So are the targets in none of them. */
  ghost predicate Names(files: seq<string>, targets: set<string>, top: string, p: string) {
    || NamesDirectory(files, targets, top, p)
    || (Covers(top, p) && p in files && p in targets && Uncovered(files, targets, top, p))
  }

  /** In the directories that are named, the other files are ignored. */
  ghost predicate Drops(files: seq<string>, targets: set<string>, top: string, x: string) {
    x in files && x !in targets && exists a :: NamesDirectory(files, targets, top, a) && Under(a, x)
  }

  ghost predicate NamedIn(files: seq<string>, targets: set<string>, zones: set<string>, p: string) {
    exists z :: z in zones && Names(files, targets, z, p)
  }

  ghost predicate DroppedIn(files: seq<string>, targets: set<string>, zones: set<string>, x: string) {
    exists z :: z in zones && Drops(files, targets, z, x)
  }

  /** The arguments are the ones named from the zones down, and nothing is ignored twice. */
  ghost predicate Exact(files: seq<string>, targets: set<string>, zones: set<string>,
                        paths: seq<string>, ignores: seq<string>)
  {
    && (forall p :: p in paths <==> NamedIn(files, targets, zones, p))
    && (forall x :: x in ignores <==> DroppedIn(files, targets, zones, x))
    && (Distinct(files) ==> Distinct(ignores))
  }

  lemma ExactJoin(files: seq<string>, targets: set<string>, za: set<string>, pa: seq<string>, ia: seq<string>,
                  zb: set<string>, pb: seq<string>, ib: seq<string>)
    requires Exact(files, targets, za, pa, ia) && Exact(files, targets, zb, pb, ib) && Disjoint(za, zb)
    ensures Exact(files, targets, za + zb, pa + pb, ia + ib)
  {
    forall x
      ensures x in ia ==> InZones(za, x)
      ensures x in ib ==> InZones(zb, x)
      ensures DroppedIn(files, targets, za + zb, x) <==>
              DroppedIn(files, targets, za, x) || DroppedIn(files, targets, zb, x)
      ensures NamedIn(files, targets, za + zb, x) <==> NamedIn(files, targets, za, x) || NamedIn(files, targets, zb, x)
    {
      DroppedInside(files, targets, za, x);
      DroppedInside(files, targets, zb, x);
    }
    if Distinct(files) {
      DistinctJoin(ia, ib);
    }
  }

  lemma DroppedInside(files: seq<string>, targets: set<string>, zones: set<string>, x: string)
    ensures DroppedIn(files, targets, zones, x) ==> InZones(zones, x)
  {
    if DroppedIn(files, targets, zones, x) {
      var z :| z in zones && Drops(files, targets, z, x);
      assert Covers(z, x);
    }
  }

  lemma DistinctJoin(a: seq<string>, b: seq<string>)
    requires Distinct(a) && Distinct(b) && forall x :: !(x in a && x in b)
    ensures Distinct(a + b)
  {
    forall i, j | 0 <= i < |a| && 0 <= j < |b|
      ensures a[i] != b[j]
    {
      assert a[i] in a && b[j] in b;
    }
  }

  /** Holds of every value; mentioning it is what lets the verifier look inside the sealed predicate. */
  ghost predicate OpenedPaths(paths: seq<string>) {
    true
  }

  /** The arguments collect exactly the targets in the zones, and are the ones that are named there; sealed. */
  ghost predicate Settled(files: seq<string>, targets: set<string>, zones: set<string>,
                          paths: seq<string>, ignores: seq<string>)
  {
    forall p {:trigger OpenedPaths(p)} :: OpenedPaths(p) && p == paths ==>
      Collects(files, targets, zones, p, ignores) && Exact(files, targets, zones, p, ignores)
  }

  lemma OpenSettled(files: seq<string>, targets: set<string>, zones: set<string>,
                    paths: seq<string>, ignores: seq<string>)
    ensures Settled(files, targets, zones, paths, ignores) <==>
            Collects(files, targets, zones, paths, ignores) && Exact(files, targets, zones, paths, ignores)
  {
    assert OpenedPaths(paths);
  }

  lemma CheapHas(files: seq<string>, targets: set<string>, dir: string) returns (f: string)
    requires Cheap(files, targets, dir)
    ensures f in files && f in targets && Under(dir, f)
  {
    var k :| k in PlacesBelow(files, targets, dir, true);
    f := files[k];
  }

  /** A file has nothing below it; it is named if it is a target. */
  lemma ExactFile(files: seq<string>, targets: set<string>, f: string)
    requires Tree(files) && f in files
    ensures Exact(files, targets, {f}, if f in targets then [f] else [], [])
  {
    forall a | Covers(f, a) && Cheap(files, targets, a)
      ensures false
    {
      var g := CheapHas(files, targets, a);
      assert Under(f, g);
    }
  }

  lemma ExactNothing(files: seq<string>, targets: set<string>, dir: string)
    requires dir !in files && forall f :: f in files && Under(dir, f) ==> f !in targets
    ensures Exact(files, targets, {dir}, [], [])
  {
    forall a | Covers(dir, a) && Cheap(files, targets, a)
      ensures false
    {
      var g := CheapHas(files, targets, a);
    }
  }

  lemma ExactWhole(files: seq<string>, targets: set<string>, dir: string, excluded: seq<string>)
    requires dir !in files && Cheap(files, targets, dir)
    requires excluded == Among(Below(files, dir), targets, false)
    ensures Exact(files, targets, {dir}, [dir], excluded)
  {
    forall p
      ensures Names(files, targets, dir, p) <==> p == dir
    {
    }
    if Distinct(files) {
      BelowDistinct(files, dir);
      AmongDistinct(Below(files, dir), targets, false);
    }
  }

  /** An entry of a directory that covers something below a path in the directory covers the path. */
  lemma EntryCovers(dir: string, z: string, p: string, g: string)
    requires Entry(dir, z) && Under(dir, p) && Covers(z, g) && Covers(p, g)
    ensures Covers(z, p)
  {
    assert z == g[..|z|] && p == g[..|p|];
  }

  /** In a directory not worth naming, what is clear from the directory down is clear from its entry down. */
  lemma UncoveredWiden(files: seq<string>, targets: set<string>, dir: string, z: string, p: string)
    requires Entry(dir, z) && Covers(z, p) && !Cheap(files, targets, dir)
    ensures Uncovered(files, targets, dir, p) <==> Uncovered(files, targets, z, p)
  {
    forall a | Covers(dir, a) && Under(a, p) && a != dir
      ensures Covers(z, a)
    {
      EntryCovers(dir, z, a, p);
    }
  }

  /** The entries of a directory among which all its files are. */
  ghost predicate Divides(files: seq<string>, dir: string, zones: set<string>) {
    && (forall z :: z in zones ==> Entry(dir, z))
    && (forall f :: f in files && Under(dir, f) ==> InZones(zones, f))
  }

  /** What matters below a directory lies in one of its entries. */
  lemma EntryOf(files: seq<string>, targets: set<string>, dir: string, zones: set<string>, p: string)
      returns (z: string)
    requires Divides(files, dir, zones) && Under(dir, p) && (Cheap(files, targets, p) || p in files)
    ensures z in zones && Covers(z, p)
  {
    var g := p;
    if p !in files {
      g := CheapHas(files, targets, p);
    }
    assert InZones(zones, g);
    z :| z in zones && Covers(z, g);
    EntryCovers(dir, z, p, g);
  }

  lemma NamesWiden(files: seq<string>, targets: set<string>, dir: string, zones: set<string>, p: string)
    requires Divides(files, dir, zones) && dir !in files && !Cheap(files, targets, dir)
    ensures NamesDirectory(files, targets, dir, p) <==>
            exists z :: z in zones && NamesDirectory(files, targets, z, p)
    ensures Names(files, targets, dir, p) <==> NamedIn(files, targets, zones, p)
  {
    if Names(files, targets, dir, p) {
      var z := EntryOf(files, targets, dir, zones, p);
      UncoveredWiden(files, targets, dir, z, p);
    }
    forall z | z in zones && Names(files, targets, z, p)
      ensures Covers(dir, p) && Uncovered(files, targets, dir, p)
    {
      UncoveredWiden(files, targets, dir, z, p);
    }
  }

  /** A directory not worth naming is taken apart. */
  lemma ExactWiden(files: seq<string>, targets: set<string>, dir: string, zones: set<string>,
                   paths: seq<string>, ignores: seq<string>)
    requires Divides(files, dir, zones) && dir !in files && !Cheap(files, targets, dir)
    requires Exact(files, targets, zones, paths, ignores)
    ensures Exact(files, targets, {dir}, paths, ignores)
  {
    forall p
      ensures NamesDirectory(files, targets, dir, p) <==>
              exists z :: z in zones && NamesDirectory(files, targets, z, p)
      ensures NamedIn(files, targets, {dir}, p) <==> NamedIn(files, targets, zones, p)
    {
      NamesWiden(files, targets, dir, zones, p);
    }
    forall x
      ensures DroppedIn(files, targets, {dir}, x) <==> DroppedIn(files, targets, zones, x)
    {
      assert DroppedIn(files, targets, {dir}, x) <==> Drops(files, targets, dir, x);
    }
  }

  // The visit -----------------------------------------------------------------------

  function Below(files: seq<string>, dir: string): (r: seq<string>)
    ensures forall f :: f in r <==> f in files && Under(dir, f)
  {
    if files == [] then []
    else
      var init, last := files[..|files| - 1], files[|files| - 1];
      assert files == init + [last];
      Below(init, dir) + if Under(dir, last) then [last] else []
  }

  lemma {:induction false} BelowDistinct(files: seq<string>, dir: string)
    requires Distinct(files)
    ensures Distinct(Below(files, dir))
  {
    if files != [] {
      var init, last := files[..|files| - 1], files[|files| - 1];
      BelowDistinct(init, dir);
      assert last !in init;
    }
  }

  function Among(files: seq<string>, targets: set<string>, wanted: bool): (r: seq<string>)
    ensures forall f :: f in r <==> f in files && (f in targets <==> wanted)
  {
    if files == [] then []
    else
      var init, last := files[..|files| - 1], files[|files| - 1];
      assert files == init + [last];
      Among(init, targets, wanted) + if last in targets <==> wanted then [last] else []
  }

  lemma {:induction false} AmongDistinct(files: seq<string>, targets: set<string>, wanted: bool)
    requires Distinct(files)
    ensures Distinct(Among(files, targets, wanted))
  {
    if files != [] {
      var init, last := files[..|files| - 1], files[|files| - 1];
      AmongDistinct(init, targets, wanted);
      assert last !in init;
    }
  }

  /** Where the list names a target below the directory, or else some other file. */
  ghost function PlacesBelow(files: seq<string>, targets: set<string>, dir: string, wanted: bool): set<nat> {
    set k: nat | k < |files| && Under(dir, files[k]) && (files[k] in targets <==> wanted)
  }

  lemma ListNext(files: seq<string>, targets: set<string>, dir: string, wanted: bool, last: string)
    ensures |Among(Below(files + [last], dir), targets, wanted)| ==
      |Among(Below(files, dir), targets, wanted)| + if Under(dir, last) && (last in targets <==> wanted) then 1 else 0
  {
    var below, whole := Below(files, dir), files + [last];
    assert whole[..|whole| - 1] == files;
    if Under(dir, last) {
      assert (below + [last])[..|below|] == below;
    } else {
      assert below + [] == below;
    }
  }

  lemma PlacesNext(files: seq<string>, targets: set<string>, dir: string, wanted: bool, last: string)
    ensures |PlacesBelow(files + [last], targets, dir, wanted)| ==
      |PlacesBelow(files, targets, dir, wanted)| + if Under(dir, last) && (last in targets <==> wanted) then 1 else 0
  {
    var now, before := PlacesBelow(files + [last], targets, dir, wanted), PlacesBelow(files, targets, dir, wanted);
    assert now == if Under(dir, last) && (last in targets <==> wanted) then before + {|files|} else before;
  }

  /** Holds of every value; mentioning it is what lets the verifier look inside the sealed predicate. */
  ghost predicate OpenedList(files: seq<string>) {
    true
  }

  /** A list of what is below a directory is as long as there are places to find it; sealed. */
  ghost predicate SealedCount(files: seq<string>, targets: set<string>, dir: string, wanted: bool) {
    forall f {:trigger OpenedList(f)} :: OpenedList(f) && f == files ==>
      |Among(Below(f, dir), targets, wanted)| == |PlacesBelow(f, targets, dir, wanted)|
  }

  lemma CountNext(files: seq<string>, targets: set<string>, dir: string, wanted: bool, last: string)
    requires SealedCount(files, targets, dir, wanted)
    ensures SealedCount(files + [last], targets, dir, wanted)
  {
    assert OpenedList(files);
    ListNext(files, targets, dir, wanted, last);
    PlacesNext(files, targets, dir, wanted, last);
  }

  lemma {:induction false} CountHolds(files: seq<string>, targets: set<string>, dir: string, wanted: bool)
    ensures SealedCount(files, targets, dir, wanted)
  {
    if files != [] {
      var n := |files| - 1;
      CountHolds(files[..n], targets, dir, wanted);
      CountNext(files[..n], targets, dir, wanted, files[n]);
      assert files[..n] + [files[n]] == files;
    }
  }

  lemma BelowCount(files: seq<string>, targets: set<string>, dir: string, wanted: bool)
    ensures |Among(Below(files, dir), targets, wanted)| == |PlacesBelow(files, targets, dir, wanted)|
  {
    CountHolds(files, targets, dir, wanted);
    assert OpenedList(files);
  }

  /** The length of the longest file name: deeper directories have no files below them. */
  function Longest(files: seq<string>): (r: nat)
    ensures forall f :: f in files ==> |f| <= r
  {
    if files == [] then 0
    else
      var init, last := files[..|files| - 1], files[|files| - 1];
      assert files == init + [last];
      if |last| > Longest(init) then |last| else Longest(init)
  }

  function Room(files: seq<string>, dir: string): nat {
    if |dir| <= Longest(files) then Longest(files) - |dir| else 0
  }

  class Collector {
    const files: seq<string>
    const targets: set<string>
    var paths: seq<string>
    var ignores: seq<string>

    constructor (files: seq<string>, targets: set<string>)
      ensures this.files == files && this.targets == targets && paths == [] && ignores == []
    {
      this.files, this.targets, paths, ignores := files, targets, [], [];
    }

    /** Appends `more` and `dropped`: together they collect exactly the targets below `dir`. */
    method Visit(dir: string) returns (ghost more: seq<string>, ghost dropped: seq<string>)
      requires Tree(files) && dir !in files
      modifies this
      ensures paths == old(paths) + more && ignores == old(ignores) + dropped
      ensures Settled(files, targets, {dir}, more, dropped)
      decreases Room(files, dir), 2
    {
      more, dropped := [], [];
      var below := Below(files, dir);
      var included := Among(below, targets, true);
      if included == [] {
        assert forall f :: f in files && Under(dir, f) ==> f in below && f !in included;
        NothingBelow(files, targets, dir);
        return;
      }
      var excluded := Among(below, targets, false);
      BelowCount(files, targets, dir, true);
      BelowCount(files, targets, dir, false);
      if 5 * |excluded| <= |included| {
        WholeDirectory(files, targets, dir, below, included, excluded);
        paths := paths + [dir];
        ignores := ignores + excluded;
        more, dropped := [dir], excluded;
        return;
      }
      more, dropped := VisitEntries(dir, below);
    }

    /** The directory is too mixed: its target files are named, its subdirectories visited. */
    method VisitEntries(dir: string, below: seq<string>) returns (ghost more: seq<string>, ghost dropped: seq<string>)
      requires Tree(files) && dir !in files && below == Below(files, dir) && !Cheap(files, targets, dir)
      modifies this
      ensures paths == old(paths) + more && ignores == old(ignores) + dropped
      ensures Settled(files, targets, {dir}, more, dropped)
      decreases Room(files, dir), 1
    {
      var names;
      ghost var named, deeper;
      names, named := ListFiles(dir, below);
      deeper, dropped := VisitSubdirectories(dir, names);
      ChildrenSettle(files, targets, dir, names, named, deeper, dropped);
      more := named + deeper;
      assert [] + dropped == dropped;
    }

    /** Names the target files of the directory itself, and returns the names of its subdirectories. */
    method ListFiles(dir: string, below: seq<string>) returns (names: set<string>, ghost named: seq<string>)
      requires Tree(files) && below == Below(files, dir)
      modifies this`paths
      ensures paths == old(paths) + named
      ensures Settled(files, targets, Direct(dir, below), named, [])
      ensures Subdirectories(files, dir, names)
      ensures AllPlaced(dir, names, below)
    {
      names, named := {}, [];
      NoZones(files, targets);
      assert Direct(dir, below[..0]) == {};
      for k := 0 to |below|
        invariant paths == old(paths) + named
        invariant Settled(files, targets, Direct(dir, below[..k]), named, [])
        invariant Subdirectories(files, dir, names)
        invariant AllPlaced(dir, names, below[..k])
      {
        var f := below[k];
        assert f in below && Under(dir, f);
        var remainder := f[|dir| + 1..];
        var slash := FirstSlash(remainder);
        assert below[..k + 1] == below[..k] + [f];
        EntryBySlash(dir, f);
        if slash < |remainder| {
          SubdirectoryFound(files, dir, names, f);
          DirectSkips(dir, below[..k], f);
          names := names + {remainder[..slash]};
        } else {
          DirectSettles(files, targets, dir, below, k, named);
          if f in targets {
            paths := paths + [f];
          }
          named := named + if f in targets then [f] else [];
        }
      }
      assert below[..|below|] == below;
    }

    method VisitSubdirectories(dir: string, names: set<string>)
        returns (ghost more: seq<string>, ghost dropped: seq<string>)
      requires Tree(files) && Subdirectories(files, dir, names)
      modifies this
      ensures paths == old(paths) + more && ignores == old(ignores) + dropped
      ensures Settled(files, targets, Subs(dir, names), more, dropped)
      decreases Room(files, dir), 0
    {
      var order := SortedNames(names);
      more, dropped := [], [];
      NoZones(files, targets);
      ghost var seen: set<string> := {};
      assert Subs(dir, seen) == {};
      for k := 0 to |order|
        invariant paths == old(paths) + more && ignores == old(ignores) + dropped
        invariant seen == Elems(order[..k]) && Settled(files, targets, Subs(dir, seen), more, dropped)
      {
        var name := order[k];
        assert NameAt(names, order, k);
        SubdirectoryDeeper(files, dir, names, name);
        ghost var m, d := Visit(dir + "/" + name);
        SubsSettle(files, targets, dir, names, seen, name, more, dropped, m, d);
        more, dropped, seen := more + m, dropped + d, seen + {name};
      }
    }
  }

  /** Number `k` of the names is one of them, and new. */
  ghost predicate NameAt(names: set<string>, order: seq<string>, k: nat)
    requires k < |order|
  {
    && order[k] in names && order[k] !in Elems(order[..k]) && Elems(order[..k]) <= names
    && Elems(order[..k + 1]) == Elems(order[..k]) + {order[k]}
  }

  method SortedNames(names: set<string>) returns (order: seq<string>)
    ensures Elems(order[..|order|]) == names
    ensures forall k {:trigger NameAt(names, order, k)} :: 0 <= k < |order| ==> NameAt(names, order, k)
  {
    order := SortStrings(names);
    assert order[..|order|] == order;
    forall k | 0 <= k < |order|
      ensures NameAt(names, order, k)
    {
    }
  }

  function Joined(dir: string, name: string): string {
    dir + "/" + name
  }

  /** The files directly in the directory. */
  ghost function Direct(dir: string, below: seq<string>): set<string> {
    set z | z in below && Entry(dir, z)
  }

  ghost function Subs(dir: string, names: set<string>): set<string> {
    set n | n in names :: Joined(dir, n)
  }

  /** Each name is one name, and a file lies below it. */
  ghost predicate Subdirectories(files: seq<string>, dir: string, names: set<string>) {
    forall n {:trigger IsSubdirectory(files, dir, n)} :: n in names ==> IsSubdirectory(files, dir, n)
  }

  ghost predicate IsSubdirectory(files: seq<string>, dir: string, n: string) {
    '/' !in n && HasFile(files, Joined(dir, n))
  }

  /** Each file below the directory is directly in it or in one of the named subdirectories. */
  ghost predicate AllPlaced(dir: string, names: set<string>, below: seq<string>) {
    forall f {:trigger Placed(dir, names, f)} :: f in below ==> Placed(dir, names, f)
  }

  ghost predicate Placed(dir: string, names: set<string>, f: string) {
    Entry(dir, f) || InZones(Subs(dir, names), f)
  }

  ghost predicate HasFile(files: seq<string>, dir: string) {
    exists f :: f in files && Under(dir, f)
  }

  /** A path below the directory is an entry of it when there is no further slash. */
  lemma EntryBySlash(dir: string, f: string)
    requires Under(dir, f)
    ensures Entry(dir, f) <==> FirstSlash(f[|dir| + 1..]) == |f[|dir| + 1..]|
  {
    var remainder := f[|dir| + 1..];
    if FirstSlash(remainder) < |remainder| {
      assert remainder[FirstSlash(remainder)] in remainder;
    }
  }

  lemma SubdirectoryFound(files: seq<string>, dir: string, names: set<string>, f: string)
    requires f in files && Under(dir, f) && FirstSlash(f[|dir| + 1..]) < |f[|dir| + 1..]|
    requires Subdirectories(files, dir, names)
    ensures var name := f[|dir| + 1..][..FirstSlash(f[|dir| + 1..])];
            && Subdirectories(files, dir, names + {name})
            && Placed(dir, names + {name}, f)
            && forall g :: Placed(dir, names, g) ==> Placed(dir, names + {name}, g)
  {
    var remainder := f[|dir| + 1..];
    var slash := FirstSlash(remainder);
    var name := remainder[..slash];
    var sub := Joined(dir, name);
    assert f == dir + "/" + remainder;
    assert f[..|sub|] == sub && f[|sub|] == remainder[slash];
    assert Under(sub, f);
    assert sub in Subs(dir, names + {name});
    assert IsSubdirectory(files, dir, name);
    forall n | n in names
      ensures IsSubdirectory(files, dir, n)
    {
    }
    forall g | Placed(dir, names, g) && !Entry(dir, g)
      ensures InZones(Subs(dir, names + {name}), g)
    {
      var z :| z in Subs(dir, names) && Covers(z, g);
      assert z in Subs(dir, names + {name});
    }
  }

  lemma DirectSkips(dir: string, done: seq<string>, f: string)
    requires !Entry(dir, f)
    ensures Direct(dir, done + [f]) == Direct(dir, done)
  {
  }

  lemma DirectAdds(files: seq<string>, targets: set<string>, dir: string, done: seq<string>, f: string,
      paths: seq<string>)
    requires Tree(files) && f in files && f !in done && Entry(dir, f)
    requires Collects(files, targets, Direct(dir, done), paths, [])
    ensures Collects(files, targets, Direct(dir, done + [f]), paths + (if f in targets then [f] else []), [])
  {
    assert Direct(dir, done + [f]) == Direct(dir, done) + {f};
    CollectsFile(files, targets, f);
    EntriesDisjoint(dir, Direct(dir, done), {f});
    var none: seq<string> := [];
    CollectsJoin(files, targets, Direct(dir, done), paths, none, {f}, if f in targets then [f] else [], none);
    assert none + none == none;
  }

  /** A file the list repeats is named again; that changes nothing about what is collected. */
  lemma DirectRepeats(files: seq<string>, targets: set<string>, dir: string, below: seq<string>, k: nat,
      paths: seq<string>)
    requires Tree(files) && below == Below(files, dir) && k < |below|
    requires Entry(dir, below[k]) && below[k] in below[..k]
    requires Collects(files, targets, Direct(dir, below[..k]), paths, [])
    ensures var f := below[k];
      Collects(files, targets, Direct(dir, below[..k] + [f]), paths + (if f in targets then [f] else []), [])
  {
    var f, zones := below[k], Direct(dir, below[..k]);
    assert f in below && Direct(dir, below[..k] + [f]) == zones && !Distinct(below);
    if Distinct(files) {
      BelowDistinct(files, dir);
    }
    if f in targets {
      assert f in zones && InZones(zones, f) && Collected(paths, [], f);
      NamedEntry(dir, zones, paths, f);
      RepeatCollects(files, targets, zones, paths, f);
    } else {
      assert paths + [] == paths;
    }
  }

  /** What covers an entry of the directory from within its entries is the entry itself. */
  lemma NamedEntry(dir: string, zones: set<string>, paths: seq<string>, f: string)
    requires Entry(dir, f) && Covered(paths, f) && forall z :: z in zones ==> Entry(dir, z)
    requires forall k :: 0 <= k < |paths| ==> InZones(zones, paths[k])
    ensures f in paths
  {
    var k :| 0 <= k < |paths| && Covers(paths[k], f);
    var z :| z in zones && Covers(z, paths[k]);
    EntriesApart(dir, z, f, f);
  }

  lemma RepeatCollects(files: seq<string>, targets: set<string>, zones: set<string>, paths: seq<string>, f: string)
    requires Collects(files, targets, zones, paths, []) && f in paths && !Distinct(files)
    ensures Collects(files, targets, zones, paths + [f], [])
  {
    var more := paths + [f];
    var j :| 0 <= j < |paths| && paths[j] == f;
    forall i | 0 <= i < |more|
      ensures InZones(zones, more[i])
    {
      assert InZones(zones, paths[if i < |paths| then i else j]);
    }
    forall g
      ensures Covered(more, g) <==> Covered(paths, g)
    {
      CoveredJoin(paths, [f], g);
      assert Covered([f], g) ==> Covers(paths[j], g);
    }
    assert forall g :: Collected(more, [], g) <==> Collected(paths, [], g);
    assert forall i :: 0 <= i < |more| ==> more[i] == paths[if i < |paths| then i else j];
  }

  lemma PlainNames(files: seq<string>, dir: string, names: set<string>)
    requires Subdirectories(files, dir, names)
    ensures forall n :: n in names ==> '/' !in n
  {
    forall n | n in names
      ensures '/' !in n
    {
      assert IsSubdirectory(files, dir, n);
    }
  }

  lemma SubdirectoryDeeper(files: seq<string>, dir: string, names: set<string>, name: string)
    requires Tree(files) && Subdirectories(files, dir, names) && name in names
    ensures Joined(dir, name) !in files && Room(files, Joined(dir, name)) < Room(files, dir)
  {
    assert IsSubdirectory(files, dir, name);
    var f :| f in files && Under(Joined(dir, name), f);
  }

  lemma SubsAdd(dir: string, names: set<string>, name: string)
    requires name !in names && '/' !in name && forall n :: n in names ==> '/' !in n
    ensures Subs(dir, names + {name}) == Subs(dir, names) + {Joined(dir, name)}
    ensures Disjoint(Subs(dir, names), {Joined(dir, name)})
  {
    forall n | n in names
      ensures Entry(dir, Joined(dir, n)) && Joined(dir, n) != Joined(dir, name)
    {
      assert Joined(dir, n)[|dir| + 1..] == n && Joined(dir, name)[|dir| + 1..] == name;
    }
    EntriesDisjoint(dir, Subs(dir, names), {Joined(dir, name)});
  }

  lemma SubsCollect(files: seq<string>, targets: set<string>, dir: string, names: set<string>, done: set<string>,
                    name: string, paths: seq<string>, ignores: seq<string>, more: seq<string>, dropped: seq<string>)
    requires Subdirectories(files, dir, names) && done <= names && name in names && name !in done
    requires Collects(files, targets, Subs(dir, done), paths, ignores)
    requires Collects(files, targets, {Joined(dir, name)}, more, dropped)
    ensures Collects(files, targets, Subs(dir, done + {name}), paths + more, ignores + dropped)
  {
    PlainNames(files, dir, names);
    SubsAdd(dir, done, name);
    CollectsJoin(files, targets, Subs(dir, done), paths, ignores, {Joined(dir, name)}, more, dropped);
  }

  lemma NoZones(files: seq<string>, targets: set<string>)
    ensures Settled(files, targets, {}, [], [])
  {
    OpenFew(files, targets, {}, 0);
    OpenSettled(files, targets, {}, [], []);
  }

  lemma SubsSettle(files: seq<string>, targets: set<string>, dir: string, names: set<string>, done: set<string>,
                   name: string, paths: seq<string>, ignores: seq<string>, more: seq<string>, dropped: seq<string>)
    requires Subdirectories(files, dir, names) && done <= names && name in names && name !in done
    requires Settled(files, targets, Subs(dir, done), paths, ignores)
    requires Settled(files, targets, {Joined(dir, name)}, more, dropped)
    ensures Settled(files, targets, Subs(dir, done + {name}), paths + more, ignores + dropped)
  {
    OpenSettled(files, targets, Subs(dir, done), paths, ignores);
    OpenSettled(files, targets, {Joined(dir, name)}, more, dropped);
    SubsCollect(files, targets, dir, names, done, name, paths, ignores, more, dropped);
    SubsExact(files, targets, dir, names, done, name, paths, ignores, more, dropped);
    OpenSettled(files, targets, Subs(dir, done + {name}), paths + more, ignores + dropped);
  }

  lemma SubsExact(files: seq<string>, targets: set<string>, dir: string, names: set<string>, done: set<string>,
                  name: string, paths: seq<string>, ignores: seq<string>, more: seq<string>, dropped: seq<string>)
    requires Subdirectories(files, dir, names) && done <= names && name in names && name !in done
    requires Exact(files, targets, Subs(dir, done), paths, ignores)
    requires Exact(files, targets, {Joined(dir, name)}, more, dropped)
    ensures Exact(files, targets, Subs(dir, done + {name}), paths + more, ignores + dropped)
  {
    PlainNames(files, dir, names);
    SubsAdd(dir, done, name);
    ExactJoin(files, targets, Subs(dir, done), paths, ignores, {Joined(dir, name)}, more, dropped);
  }

  /** A direct file of the directory, be it new or repeated. */
  lemma DirectExact(files: seq<string>, targets: set<string>, dir: string, done: seq<string>, f: string,
      paths: seq<string>)
    requires Tree(files) && f in files && Entry(dir, f)
    requires Exact(files, targets, Direct(dir, done), paths, [])
    ensures Exact(files, targets, Direct(dir, done + [f]), paths + (if f in targets then [f] else []), [])
  {
    var zones, now := Direct(dir, done), Direct(dir, done + [f]);
    assert now == zones + {f};
    ExactFile(files, targets, f);
    forall x
      ensures NamedIn(files, targets, now, x) <==> NamedIn(files, targets, zones, x) || NamedIn(files, targets, {f}, x)
      ensures DroppedIn(files, targets, now, x) <==>
              DroppedIn(files, targets, zones, x) || DroppedIn(files, targets, {f}, x)
    {
    }
  }

  lemma DirectSettles(files: seq<string>, targets: set<string>, dir: string, below: seq<string>, k: nat,
      paths: seq<string>)
    requires Tree(files) && below == Below(files, dir) && k < |below| && Entry(dir, below[k])
    requires Settled(files, targets, Direct(dir, below[..k]), paths, [])
    ensures var f := below[k];
      Settled(files, targets, Direct(dir, below[..k] + [f]), paths + (if f in targets then [f] else []), [])
  {
    var f := below[k];
    assert f in below;
    OpenSettled(files, targets, Direct(dir, below[..k]), paths, []);
    DirectExact(files, targets, dir, below[..k], f, paths);
    if f in below[..k] {
      DirectRepeats(files, targets, dir, below, k, paths);
    } else {
      DirectAdds(files, targets, dir, below[..k], f, paths);
    }
    OpenSettled(files, targets, Direct(dir, below[..k] + [f]), paths + (if f in targets then [f] else []), []);
  }

  /** The direct files and the subdirectories of a directory are its parts. */
  lemma ChildrenDivide(files: seq<string>, dir: string, names: set<string>)
    requires Tree(files) && Subdirectories(files, dir, names) && AllPlaced(dir, names, Below(files, dir))
    ensures var direct, subs := Direct(dir, Below(files, dir)), Subs(dir, names);
      Divides(files, dir, direct + subs) && Disjoint(direct, subs)
  {
    var direct, subs := Direct(dir, Below(files, dir)), Subs(dir, names);
    forall n | n in names
      ensures Entry(dir, Joined(dir, n)) && Joined(dir, n) !in files
    {
      assert IsSubdirectory(files, dir, n);
      SubdirectoryDeeper(files, dir, names, n);
    }
    EntriesDisjoint(dir, direct, subs);
    forall f | f in files && Under(dir, f)
      ensures InZones(direct + subs, f)
    {
      assert f in Below(files, dir) && Placed(dir, names, f);
      if Entry(dir, f) {
        assert f in direct;
      }
    }
  }

  lemma ChildrenExact(files: seq<string>, targets: set<string>, dir: string, names: set<string>,
                      named: seq<string>, deeper: seq<string>, dropped: seq<string>)
    requires Tree(files) && dir !in files && Subdirectories(files, dir, names) && !Cheap(files, targets, dir)
    requires Exact(files, targets, Direct(dir, Below(files, dir)), named, [])
    requires Exact(files, targets, Subs(dir, names), deeper, dropped)
    requires AllPlaced(dir, names, Below(files, dir))
    ensures Exact(files, targets, {dir}, named + deeper, [] + dropped)
  {
    var direct, subs := Direct(dir, Below(files, dir)), Subs(dir, names);
    ChildrenDivide(files, dir, names);
    ExactJoin(files, targets, direct, named, [], subs, deeper, dropped);
    ExactWiden(files, targets, dir, direct + subs, named + deeper, [] + dropped);
  }

  lemma ChildrenSettle(files: seq<string>, targets: set<string>, dir: string, names: set<string>,
                       named: seq<string>, deeper: seq<string>, dropped: seq<string>)
    requires Tree(files) && dir !in files && Subdirectories(files, dir, names) && !Cheap(files, targets, dir)
    requires Settled(files, targets, Direct(dir, Below(files, dir)), named, [])
    requires Settled(files, targets, Subs(dir, names), deeper, dropped)
    requires AllPlaced(dir, names, Below(files, dir))
    ensures Settled(files, targets, {dir}, named + deeper, [] + dropped)
  {
    OpenSettled(files, targets, Direct(dir, Below(files, dir)), named, []);
    OpenSettled(files, targets, Subs(dir, names), deeper, dropped);
    ChildrenCollect(files, targets, dir, names, named, deeper, dropped);
    ChildrenExact(files, targets, dir, names, named, deeper, dropped);
    OpenSettled(files, targets, {dir}, named + deeper, [] + dropped);
  }

  lemma ChildrenCollect(files: seq<string>, targets: set<string>, dir: string, names: set<string>,
                        named: seq<string>, deeper: seq<string>, dropped: seq<string>)
    requires Tree(files) && dir !in files && Subdirectories(files, dir, names)
    requires Collects(files, targets, Direct(dir, Below(files, dir)), named, [])
    requires Collects(files, targets, Subs(dir, names), deeper, dropped)
    requires AllPlaced(dir, names, Below(files, dir))
    ensures Collects(files, targets, {dir}, named + deeper, [] + dropped)
  {
    var direct, subs := Direct(dir, Below(files, dir)), Subs(dir, names);
    ChildrenDivide(files, dir, names);
    CollectsJoin(files, targets, direct, named, [], subs, deeper, dropped);
    CollectsWiden(files, targets, dir, direct + subs, named + deeper, [] + dropped);
  }

  lemma NothingBelow(files: seq<string>, targets: set<string>, dir: string)
    requires dir !in files && forall f :: f in files && Under(dir, f) ==> f !in targets
    ensures Settled(files, targets, {dir}, [], [])
  {
    OpenFew(files, targets, {dir}, 0);
    ExactNothing(files, targets, dir);
    OpenSettled(files, targets, {dir}, [], []);
  }

  lemma WholeDirectory(files: seq<string>, targets: set<string>, dir: string, below: seq<string>,
      included: seq<string>, excluded: seq<string>)
    requires below == Below(files, dir)
    requires included == Among(below, targets, true) && excluded == Among(below, targets, false)
    requires dir !in files && included != [] && 5 * |excluded| <= |included|
    ensures Settled(files, targets, {dir}, [dir], excluded)
  {
    OpenSettled(files, targets, {dir}, [dir], excluded);
    WholeCollects(files, targets, dir, below, included, excluded);
    BelowCount(files, targets, dir, true);
    BelowCount(files, targets, dir, false);
    ExactWhole(files, targets, dir, excluded);
  }

  lemma WholeCollects(files: seq<string>, targets: set<string>, dir: string, below: seq<string>,
      included: seq<string>, excluded: seq<string>)
    requires below == Below(files, dir)
    requires included == Among(below, targets, true) && excluded == Among(below, targets, false)
    requires dir !in files && 5 * |excluded| <= |included|
    ensures Collects(files, targets, {dir}, [dir], excluded)
  {
    BelowCount(files, targets, dir, true);
    SubsetSize(PlacesBelow(files, targets, dir, true), Hits(files, targets, {dir}));
    OpenFew(files, targets, {dir}, |excluded|);
    forall f | f in files && InZones({dir}, f)
      ensures Collected([dir], excluded, f) <==> f in targets
    {
      assert Covers([dir][0], f);
      assert f in below;
    }
    forall x | x in excluded
      ensures InZones({dir}, x)
    {
      assert Covers(dir, x);
    }
    assert InZones({dir}, [dir][0]);
  }

  // The arguments ---------------------------------------------------------------------

  lemma CollectedSorted(paths: seq<string>, ignores: seq<string>, f: string)
    ensures Collected(Sort(paths, StringLeq), Sort(ignores, StringLeq), f) <==> Collected(paths, ignores, f)
  {
    var p := Sort(paths, StringLeq);
    SortElems(paths, StringLeq);
    SortElems(ignores, StringLeq);
    assert f in ignores <==> f in Elems(ignores);
    assert f in Sort(ignores, StringLeq) <==> f in Elems(Sort(ignores, StringLeq));
    if Covered(paths, f) {
      var k :| 0 <= k < |paths| && Covers(paths[k], f);
      assert paths[k] in Elems(p);
      var j :| 0 <= j < |p| && p[j] == paths[k];
    }
    if Covered(p, f) {
      var j :| 0 <= j < |p| && Covers(p[j], f);
      assert p[j] in Elems(paths);
      var k :| 0 <= k < |paths| && paths[k] == p[j];
    }
  }

  lemma ExactSorted(files: seq<string>, targets: set<string>, dir: string, paths: seq<string>, ignores: seq<string>)
    requires Exact(files, targets, {dir}, paths, ignores)
    ensures forall p :: p in Sort(paths, StringLeq) <==> Names(files, targets, dir, p)
    ensures forall x :: x in Sort(ignores, StringLeq) <==> Drops(files, targets, dir, x)
  {
    SortElems(paths, StringLeq);
    SortElems(ignores, StringLeq);
    forall p
      ensures p in Sort(paths, StringLeq) <==> Names(files, targets, dir, p)
      ensures p in Sort(ignores, StringLeq) <==> Drops(files, targets, dir, p)
    {
      assert p in Elems(Sort(paths, StringLeq)) <==> p in Elems(paths);
      assert p in Elems(Sort(ignores, StringLeq)) <==> p in Elems(ignores);
      assert NamedIn(files, targets, {dir}, p) <==> Names(files, targets, dir, p);
      assert DroppedIn(files, targets, {dir}, p) <==> Drops(files, targets, dir, p);
    }
  }

  lemma LooseSorted(paths: seq<string>)
    requires Loose(paths)
    ensures Loose(Sort(paths, StringLeq))
  {
    var p := Sort(paths, StringLeq);
    SortElems(paths, StringLeq);
    forall i, j | 0 <= i < |p| && 0 <= j < |p|
      ensures !Under(p[i], p[j])
    {
      assert p[i] in Elems(paths) && p[j] in Elems(paths);
    }
  }

  lemma ApartSorted(paths: seq<string>)
    requires Loose(paths) && Distinct(paths)
    ensures Apart(Sort(paths, StringLeq))
  {
    LooseSorted(paths);
    SortDistinct(paths, StringLeq);
    LooseDistinct(Sort(paths, StringLeq));
  }

  lemma LooseDistinct(p: seq<string>)
    requires Loose(p) && Distinct(p)
    ensures Apart(p)
  {
    forall i, j | 0 <= i < |p| && 0 <= j < |p| && i != j
      ensures !Covers(p[i], p[j])
    {
      assert p[i] != p[j];
    }
  }

  /**
   The command line of a shard: pytest collects with it exactly the targets. The
   list of files may repeat some; where it does not, neither do the paths.
   */
  method Arguments(files: seq<string>, targets: set<string>) returns (paths: seq<string>, ignores: seq<string>)
    requires Tree(files)
    requires forall f :: f in files ==> Under("tests", f)
    ensures forall f :: f in files ==> (Collected(paths, ignores, f) <==> f in targets)
    ensures forall p :: p in paths <==> Names(files, targets, "tests", p)
    ensures forall x :: x in ignores <==> Drops(files, targets, "tests", x)
    ensures Loose(paths) && (Distinct(files) ==> Apart(paths) && Distinct(ignores))
    ensures forall x :: x in ignores ==> x in files && x !in targets
    ensures 5 * |ignores| <= |set k: nat | k < |files| && files[k] in targets|
    ensures Sorted(paths, StringLeq) && Sorted(ignores, StringLeq)
  {
    assert !Under("tests", "tests");
    var c := new Collector(files, targets);
    ghost var more, dropped := c.Visit("tests");
    assert c.paths == more && c.ignores == dropped;
    OpenSettled(files, targets, {"tests"}, more, dropped);
    forall f | f in files
      ensures Collected(Sort(more, StringLeq), Sort(dropped, StringLeq), f) <==> f in targets
    {
      assert Covers("tests", f) && InZones({"tests"}, f);
      CollectedSorted(more, dropped, f);
    }
    LooseSorted(more);
    if Distinct(files) {
      ApartSorted(more);
      SortDistinct(dropped, StringLeq);
    }
    ExactSorted(files, targets, "tests", more, dropped);
    StringOrder();
    SortSorted(more, StringLeq);
    SortSorted(dropped, StringLeq);
    SortElems(dropped, StringLeq);
    OpenFew(files, targets, {"tests"}, |dropped|);
    ghost var listed := set k: nat | k < |files| && files[k] in targets;
    SubsetSize(Hits(files, targets, {"tests"}), listed);
    paths, ignores := Sort(c.paths, StringLeq), Sort(c.ignores, StringLeq);
    forall x | x in ignores
      ensures x in files && x !in targets
    {
      assert x in Elems(ignores) && x in Elems(dropped);
    }
  }
}
