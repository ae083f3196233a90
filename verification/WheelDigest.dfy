/**
 The content digest of a component wheel, computed twice: over the selected
 source files, and over the tree they were staged into. The two agree exactly
 when every selected file is carried over under its own key and no two share
 one.

 SHA-256 is an arbitrary function with 32-byte results: where two digests of
 different streams agree, that is a collision, and the statements below name the
 two streams. Bytes are chars.
 */
module WheelDigest {
  import opened Orders
  import opened Paths

  /** A path below `src`, as its segments. */
  type Path = seq<string>

  type Bytes = string

  const SOURCE := "gpu_fault"
  const RELEASE := "gpu_fault_release"
  const DATA := "data"
  const NUL: char := '\0'

  ghost predicate Sha(sha: Bytes -> Bytes) {
    forall a :: |sha(a)| == 32
  }

  // Paths and keys ---------------------------------------------------------------

  /** A segment as a file system allows it. */
  predicate Segment(s: string) {
    s != "" && '/' !in s && NUL !in s
  }

  predicate Segments(p: Path) {
    forall k :: 0 <= k < |p| ==> Segment(p[k])
  }

  /** A file inside one of the local packages. */
  predicate Local(p: Path) {
    |p| >= 2 && Segments(p) && (p[0] == SOURCE || p[0] == RELEASE)
  }

  /** The segments with `/` between them. */
  function Joined(segments: Path): string
    requires segments != []
  {
    if |segments| == 1 then segments[0] else segments[0] + "/" + Joined(segments[1..])
  }

  /** `source_relative`: without the leading `gpu_fault`, in full for the other package. */
  function Key(p: Path): string
    requires Local(p)
  {
    if p[0] == SOURCE then Joined(p[1..]) else Joined(p)
  }

  lemma {:induction false} JoinedInjective(p: Path, q: Path)
    requires p != [] && q != [] && Segments(p) && Segments(q)
    requires Joined(p) == Joined(q)
    ensures p == q
  {
    var a, b := Joined(p), Joined(q);
    SlashAt(p);
    SlashAt(q);
    assert |p[0]| == |q[0]|;
    assert p[0] == a[..|p[0]|] && q[0] == b[..|q[0]|];
    if |p| > 1 {
      assert Joined(p[1..]) == a[|p[0]| + 1..] && Joined(q[1..]) == b[|q[0]| + 1..];
      JoinedInjective(p[1..], q[1..]);
    }
    assert p == [p[0]] + p[1..] && q == [q[0]] + q[1..];
  }

  /** A joined path starts with its first segment, and goes on with a slash or ends there. */
  lemma SlashAt(p: Path)
    requires p != [] && Segments(p)
    ensures var j := Joined(p);
      && |p[0]| <= |j| && j[..|p[0]|] == p[0]
      && (|j| > |p[0]| <==> |p| > 1)
      && (|p| > 1 ==> j[|p[0]|] == '/')
      && (forall i :: 0 <= i < |p[0]| ==> j[i] != '/')
  {
    assert Segment(p[0]);
    var j := Joined(p);
    forall i | 0 <= i < |p[0]|
      ensures j[i] != '/'
    {
      assert j[i] == p[0][i];
    }
  }

  /** Two files share a key only when one mirrors the release package inside `gpu_fault`. */
  lemma KeysClash(p: Path, q: Path)
    requires Local(p) && Local(q)
    ensures Key(p) == Key(q) <==>
      p == q || (q[0] == RELEASE && p == [SOURCE] + q) || (p[0] == RELEASE && q == [SOURCE] + p)
  {
    if Key(p) == Key(q) {
      JoinedInjective(if p[0] == SOURCE then p[1..] else p, if q[0] == SOURCE then q[1..] else q);
      assert p == [p[0]] + p[1..] && q == [q[0]] + q[1..];
    }
  }

  lemma {:induction false} JoinedNulFree(p: Path)
    requires p != [] && Segments(p)
    ensures NUL !in Joined(p)
  {
    assert Segment(p[0]);
    if |p| > 1 {
      JoinedNulFree(p[1..]);
    }
  }

  lemma KeyNulFree(p: Path)
    requires Local(p)
    ensures NUL !in Key(p)
  {
    JoinedNulFree(if p[0] == SOURCE then p[1..] else p);
  }

  /** What the walk over a tree staged at `root` picks up. */
  predicate Walked(root: Path, p: Path) {
    && p != [] && "__pycache__" !in root && "__pycache__" !in p
    && Suffix(p[|p| - 1]) in {".py", ".yaml", ".yml", ".json"}
  }

  // Staging -------------------------------------------------------------------------

  /** What a component ships: its module files, and a list of data files below `gpu_fault/data`. */
  datatype Selection = Selection(modules: set<Path>, listed: seq<Path>) {
    ghost function Data(): set<Path> {
      Elems(listed)
    }

    ghost function All(): set<Path> {
      modules + Data()
    }

    ghost predicate Valid(files: map<Path, Bytes>) {
      && All() <= files.Keys
      && (forall p :: p in All() ==> Local(p))
      && (forall k :: 0 <= k < |listed| ==> |listed[k]| >= 3 && listed[k][0] == SOURCE && listed[k][1] == DATA)
    }
  }

  /** Data files are staged by name only. */
  function Target(p: Path): Path
    requires p != []
  {
    [SOURCE, DATA, p[|p| - 1]]
  }

  /** The staged tree: every module in its place, then the data files one after the other, later ones on top. */
  ghost function Tree(files: map<Path, Bytes>, modules: set<Path>, listed: seq<Path>): map<Path, Bytes>
    requires modules + Elems(listed) <= files.Keys && forall k :: 0 <= k < |listed| ==> listed[k] != []
  {
    if listed == [] then map p | p in modules :: files[p]
    else
      var n := |listed| - 1;
      assert listed[n] in Elems(listed) && Elems(listed[..n]) <= Elems(listed);
      Tree(files, modules, listed[..n])[Target(listed[n]) := files[listed[n]]]
  }

  /** What may lie at `p` after staging: the module, or a data file of that name. */
  ghost predicate StagedFrom(files: map<Path, Bytes>, sel: Selection, p: Path, content: Bytes) {
    || (p in sel.modules && p in files && content == files[p])
    || exists d :: d in sel.Data() && d in files && d != [] && Target(d) == p && content == files[d]
  }

  ghost predicate Staged(files: map<Path, Bytes>, sel: Selection, staged: map<Path, Bytes>) {
    && (forall p :: p in sel.modules ==> p in staged)
    && (forall d :: d in sel.Data() && d != [] ==> Target(d) in staged)
    && (forall p :: p in staged ==> StagedFrom(files, sel, p, staged[p]))
  }

  lemma DataListed(sel: Selection, files: map<Path, Bytes>, d: Path)
    requires sel.Valid(files) && d in sel.Data()
    ensures |d| >= 3 && d[0] == SOURCE && d[1] == DATA
  {
    var k :| 0 <= k < |sel.listed| && sel.listed[k] == d;
  }

  /** The tree holds every selected file, and nothing that was not selected. */
  lemma {:induction false} TreeStaged(files: map<Path, Bytes>, modules: set<Path>, listed: seq<Path>)
    requires modules + Elems(listed) <= files.Keys && forall k :: 0 <= k < |listed| ==> listed[k] != []
    ensures Staged(files, Selection(modules, listed), Tree(files, modules, listed))
  {
    if listed != [] {
      var n := |listed| - 1;
      assert listed[n] in Elems(listed) && Elems(listed) == Elems(listed[..n]) + {listed[n]};
      TreeStaged(files, modules, listed[..n]);
      var before, after := Selection(modules, listed[..n]), Selection(modules, listed);
      StagedOver(files, before, Tree(files, modules, listed[..n]), after, listed[n]);
    }
  }

  lemma StagedOver(files: map<Path, Bytes>, sel: Selection, staged: map<Path, Bytes>, more: Selection, d: Path)
    requires Staged(files, sel, staged) && d in files && d != []
    requires more.modules == sel.modules && more.Data() == sel.Data() + {d}
    ensures Staged(files, more, staged[Target(d) := files[d]])
  {
    var next := staged[Target(d) := files[d]];
    forall p | p in next
      ensures StagedFrom(files, more, p, next[p])
    {
      if p != Target(d) {
        assert StagedFrom(files, sel, p, staged[p]);
      }
    }
  }

  method CopyModuleFiles(files: map<Path, Bytes>, modules: set<Path>) returns (staged: map<Path, Bytes>)
    requires modules <= files.Keys
    ensures staged == map p | p in modules :: files[p]
  {
    staged := map[];
    var rest := modules;
    while rest != {}
      invariant rest <= modules && staged == map p | p in modules - rest :: files[p]
      decreases rest
    {
      var p :| p in rest;
      staged := staged[p := files[p]];
      rest := rest - {p};
    }
  }

  /** `_copy_modules`: the staged tree, a later data file replacing whatever lies at its place. */
  method CopyModules(files: map<Path, Bytes>, sel: Selection) returns (staged: map<Path, Bytes>)
    requires sel.Valid(files)
    ensures sel.modules + Elems(sel.listed) <= files.Keys && staged == Tree(files, sel.modules, sel.listed)
    ensures Staged(files, sel, staged)
  {
    staged := CopyModuleFiles(files, sel.modules);
    for k := 0 to |sel.listed|
      invariant Elems(sel.listed[..k]) <= sel.Data() && staged == Tree(files, sel.modules, sel.listed[..k])
    {
      var d := sel.listed[k];
      assert d in sel.Data();
      assert sel.listed[..k + 1][..k] == sel.listed[..k] && sel.listed[..k + 1][k] == d;
      staged := staged[Target(d) := files[d]];
    }
    assert sel.listed[..|sel.listed|] == sel.listed;
    TreeStaged(files, sel.modules, sel.listed);
  }

  // The hashed stream -----------------------------------------------------------------

  datatype Row = Row(key: string, digest: Bytes)

  function Framed(r: Row): Bytes {
    r.key + [NUL] + r.digest + "\n"
  }

  function Stream(rows: seq<Row>): Bytes {
    if rows == [] then "" else Framed(rows[0]) + Stream(rows[1..])
  }

  lemma {:induction false} StreamAppend(rows: seq<Row>, r: Row)
    ensures Stream(rows + [r]) == Stream(rows) + Framed(r)
  {
    if rows == [] {
      assert [r][1..] == [] && [] + [r] == [r];
    } else {
      StreamAppend(rows[1..], r);
      assert (rows + [r])[1..] == rows[1..] + [r];
    }
  }

  predicate Frameable(r: Row) {
    NUL !in r.key && |r.digest| == 32
  }

  lemma FrameInjective(r: Row, x: Bytes, s: Row, y: Bytes)
    requires Frameable(r) && Frameable(s) && Framed(r) + x == Framed(s) + y
    ensures r == s && x == y
  {
    var a, b := Framed(r) + x, Framed(s) + y;
    var m, n := |r.key|, |s.key|;
    assert a[m] == NUL && b[n] == NUL;
    assert forall i :: 0 <= i < m ==> a[i] == r.key[i];
    assert forall i :: 0 <= i < n ==> b[i] == s.key[i];
    assert m == n;
    assert r.key == a[..m] && s.key == b[..n];
    assert r.digest == a[m + 1..m + 33] && s.digest == b[n + 1..n + 33];
    assert x == a[m + 34..] && y == b[n + 34..];
  }

  lemma {:induction false} StreamInjective(a: seq<Row>, b: seq<Row>)
    requires forall k :: 0 <= k < |a| ==> Frameable(a[k])
    requires forall k :: 0 <= k < |b| ==> Frameable(b[k])
    requires Stream(a) == Stream(b)
    ensures a == b
  {
    if a != [] && b != [] {
      FrameInjective(a[0], Stream(a[1..]), b[0], Stream(b[1..]));
      StreamInjective(a[1..], b[1..]);
      assert a == [a[0]] + a[1..] && b == [b[0]] + b[1..];
    }
  }

  // The two digests ----------------------------------------------------------------------

  /** The selected files, modules and data listed together, sorted by key in any way `sorted` may choose. */
  ghost predicate KeyOrder(sel: Selection, order: seq<Path>) {
    && multiset(order) == multiset(sel.modules) + multiset(sel.listed)
    && (forall k :: 0 <= k < |order| ==> Local(order[k]))
    && (forall i, j :: 0 <= i < j < |order| ==> StringLeq(Key(order[i]), Key(order[j])))
  }

  ghost predicate SourceRows(sha: Bytes -> Bytes, files: map<Path, Bytes>, order: seq<Path>, rows: seq<Row>) {
    && |rows| == |order|
    && forall k :: 0 <= k < |order| ==>
         Local(order[k]) && order[k] in files && rows[k] == Row(Key(order[k]), sha(files[order[k]]))
  }

  ghost function SourceRowsOf(sha: Bytes -> Bytes, files: map<Path, Bytes>, order: seq<Path>): (rows: seq<Row>)
    requires forall k :: 0 <= k < |order| ==> Local(order[k]) && order[k] in files
    ensures SourceRows(sha, files, order, rows)
  {
    seq(|order|, k requires 0 <= k < |order| => Row(Key(order[k]), sha(files[order[k]])))
  }

  method HashRows(sha: Bytes -> Bytes, rows: seq<Row>) returns (digest: Bytes)
    ensures digest == sha(Stream(rows))
  {
    var stream := "";
    for k := 0 to |rows|
      invariant stream == Stream(rows[..k])
    {
      StreamAppend(rows[..k], rows[k]);
      assert rows[..k] + [rows[k]] == rows[..k + 1];
      stream := stream + Framed(rows[k]);
    }
    assert rows[..|rows|] == rows;
    digest := sha(stream);
  }

  /** `component_source_digest` over an ordered selection; the records are gathered before they are hashed. */
  method SourceDigest(sha: Bytes -> Bytes, files: map<Path, Bytes>, order: seq<Path>) returns (digest: Bytes)
    requires forall k :: 0 <= k < |order| ==> Local(order[k]) && order[k] in files
    ensures digest == sha(Stream(SourceRowsOf(sha, files, order)))
  {
    var records := [];
    for k := 0 to |order|
      invariant |records| == k
      invariant forall i :: 0 <= i < k ==> records[i] == Row(Key(order[i]), sha(files[order[i]]))
    {
      records := records + [Row(Key(order[k]), sha(files[order[k]]))];
    }
    assert records == SourceRowsOf(sha, files, order);
    digest := HashRows(sha, records);
  }

  /** The walked files by key; where two share a key, the one in the later package. */
  ghost predicate Entries(root: Path, staged: map<Path, Bytes>, entries: map<string, Bytes>) {
    Covers(root, staged.Keys, entries) && Stems(root, staged, staged.Keys, entries)
  }

  ghost predicate Covers(root: Path, done: set<Path>, entries: map<string, Bytes>) {
    forall p :: p in done && Local(p) && Walked(root, p) ==> Key(p) in entries
  }

  ghost predicate Stems(root: Path, staged: map<Path, Bytes>, done: set<Path>, entries: map<string, Bytes>) {
    forall k :: k in entries ==> EntryOf(root, staged, done, k, entries[k])
  }

  ghost predicate EntryOf(root: Path, staged: map<Path, Bytes>, done: set<Path>, key: string, content: Bytes) {
    exists p :: p in done && p in staged && Found(root, p, key) && Wins(root, done, p, key) && content == staged[p]
  }

  /** The file is walked under this key. */
  ghost predicate Found(root: Path, p: Path, key: string) {
    Local(p) && Walked(root, p) && Key(p) == key
  }

  /** No file of a later package is walked under the key. */
  ghost predicate Wins(root: Path, done: set<Path>, p: Path, key: string) {
    InRelease(p) || forall q :: q in done && Found(root, q, key) ==> !InRelease(q)
  }

  /** The file is in the later package. */
  predicate InRelease(p: Path) {
    p != [] && p[0] == RELEASE
  }

  /** Which file that is, is settled: there is one digest of a staged tree. */
  lemma EntriesUnique(root: Path, staged: map<Path, Bytes>, a: map<string, Bytes>, b: map<string, Bytes>)
    requires Entries(root, staged, a) && Entries(root, staged, b)
    ensures a == b
  {
    forall k | k in a && k in b
      ensures a[k] == b[k]
    {
      assert EntryOf(root, staged, staged.Keys, k, a[k]) && EntryOf(root, staged, staged.Keys, k, b[k]);
      var p :| p in staged && Found(root, p, k) && Wins(root, staged.Keys, p, k) && a[k] == staged[p];
      var q :| q in staged && Found(root, q, k) && Wins(root, staged.Keys, q, k) && b[k] == staged[q];
      KeysClash(p, q);
    }
    forall k
      ensures k in a <==> k in b
    {
      assert k in a ==> EntryOf(root, staged, staged.Keys, k, a[k]);
      assert k in b ==> EntryOf(root, staged, staged.Keys, k, b[k]);
    }
  }

  /** The prefix of the package a file is found in, and its path in there. */
  function StagedKey(p: Path): string
    requires Local(p)
  {
    (if p[0] == SOURCE then "" else p[0] + "/") + Joined(p[1..])
  }

  lemma StagedKeyIsKey(p: Path)
    requires Local(p)
    ensures StagedKey(p) == Key(p)
  {
    assert "" + Joined(p[1..]) == Joined(p[1..]);
  }

  lemma WalkStep(root: Path, staged: map<Path, Bytes>, done: set<Path>, entries: map<string, Bytes>, p: Path)
    requires Covers(root, done, entries) && Stems(root, staged, done, entries)
    requires p in staged && Local(p) && Walked(root, p)
    requires InRelease(p) || forall q :: q in done ==> !InRelease(q)
    ensures Covers(root, done + {p}, entries[StagedKey(p) := staged[p]])
    ensures Stems(root, staged, done + {p}, entries[StagedKey(p) := staged[p]])
  {
    StagedKeyIsKey(p);
    var next := entries[StagedKey(p) := staged[p]];
    forall k | k in next
      ensures EntryOf(root, staged, done + {p}, k, next[k])
    {
      if k == Key(p) {
        assert Found(root, p, k) && Wins(root, done + {p}, p, k);
      } else {
        StemKept(root, staged, done, p, k, entries[k]);
      }
    }
  }

  lemma StemKept(root: Path, staged: map<Path, Bytes>, done: set<Path>, p: Path, key: string, content: Bytes)
    requires EntryOf(root, staged, done, key, content) && !Found(root, p, key)
    ensures EntryOf(root, staged, done + {p}, key, content)
  {
    var q :| q in done && q in staged && Found(root, q, key) && Wins(root, done, q, key) && content == staged[q];
    assert Wins(root, done + {p}, q, key);
  }

  lemma WalkPast(root: Path, staged: map<Path, Bytes>, done: set<Path>, entries: map<string, Bytes>, p: Path)
    requires Covers(root, done, entries) && Stems(root, staged, done, entries) && !Walked(root, p)
    ensures Covers(root, done + {p}, entries) && Stems(root, staged, done + {p}, entries)
  {
    forall k | k in entries
      ensures EntryOf(root, staged, done + {p}, k, entries[k])
    {
      StemKept(root, staged, done, p, k, entries[k]);
    }
  }

  /** The walk over one package of the staged tree, after those of `done`. */
  method WalkPackage(root: Path, staged: map<Path, Bytes>, files: set<Path>, before: map<string, Bytes>,
      ghost done: set<Path>)
      returns (entries: map<string, Bytes>)
    requires files <= staged.Keys && forall p :: p in files ==> Local(p)
    requires (forall p :: p in files ==> InRelease(p)) || forall p :: p in files + done ==> !InRelease(p)
    requires Covers(root, done, before) && Stems(root, staged, done, before)
    ensures Covers(root, done + files, entries) && Stems(root, staged, done + files, entries)
  {
    entries := before;
    var rest := files;
    while rest != {}
      invariant rest <= files
      invariant Covers(root, done + (files - rest), entries) && Stems(root, staged, done + (files - rest), entries)
      decreases rest
    {
      var p :| p in rest;
      ghost var seen := done + (files - rest);
      rest := rest - {p};
      assert done + (files - rest) == seen + {p};
      if Walked(root, p) {
        WalkStep(root, staged, seen, entries, p);
        entries := entries[StagedKey(p) := staged[p]];
      } else {
        WalkPast(root, staged, seen, entries, p);
      }
    }
    assert done + (files - rest) == done + files;
  }

  /** The walk of `package_digest` over a tree staged at `root`: `gpu_fault`, then the other package. */
  method PackageEntries(root: Path, staged: map<Path, Bytes>) returns (entries: map<string, Bytes>)
    requires forall p :: p in staged ==> Local(p)
    ensures Entries(root, staged, entries)
  {
    var first := set p | p in staged && !InRelease(p);
    var second := set p | p in staged && InRelease(p);
    assert {} + first == first && first + second == staged.Keys;
    entries := WalkPackage(root, staged, first, map[], {});
    entries := WalkPackage(root, staged, second, entries, first);
  }

  ghost predicate EntryRows(sha: Bytes -> Bytes, entries: map<string, Bytes>, rows: seq<Row>) {
    && |rows| == |SortedSet(entries.Keys)|
    && forall k :: 0 <= k < |rows| ==>
         && rows[k].key == SortedSet(entries.Keys)[k] && rows[k].key in entries
         && rows[k].digest == sha(entries[rows[k].key])
  }

  ghost function EntryRowsOf(sha: Bytes -> Bytes, entries: map<string, Bytes>): (rows: seq<Row>)
    ensures EntryRows(sha, entries, rows)
  {
    var keys := SortedSet(entries.Keys);
    seq(|keys|, k requires 0 <= k < |keys| =>
      assert keys[k] in Elems(keys);
      Row(keys[k], sha(entries[keys[k]])))
  }

  method EntriesDigest(sha: Bytes -> Bytes, entries: map<string, Bytes>) returns (digest: Bytes)
    ensures digest == sha(Stream(EntryRowsOf(sha, entries)))
  {
    var keys := SortStrings(entries.Keys);
    var records := [];
    for k := 0 to |keys|
      invariant |records| == k
      invariant forall i :: 0 <= i < k ==> keys[i] in entries && records[i] == Row(keys[i], sha(entries[keys[i]]))
    {
      assert keys[k] in Elems(keys);
      records := records + [Row(keys[k], sha(entries[keys[k]]))];
    }
    RowsUnique(sha, entries, records, EntryRowsOf(sha, entries));
    digest := HashRows(sha, records);
  }

  lemma RowsUnique(sha: Bytes -> Bytes, entries: map<string, Bytes>, a: seq<Row>, b: seq<Row>)
    requires EntryRows(sha, entries, a) && EntryRows(sha, entries, b)
    ensures a == b
  {
  }

  /** What is hashed of the tree staged at `root`: one record per key, in order. */
  ghost predicate StreamOf(sha: Bytes -> Bytes, root: Path, staged: map<Path, Bytes>, stream: Bytes) {
    exists entries :: Entries(root, staged, entries) && stream == Stream(EntryRowsOf(sha, entries))
  }

  /** `package_digest` of a tree staged at `root`; there is only one such stream. */
  method PackageDigest(sha: Bytes -> Bytes, root: Path, staged: map<Path, Bytes>)
      returns (digest: Bytes, ghost stream: Bytes)
    requires forall p :: p in staged ==> Local(p)
    ensures digest == sha(stream) && StreamOf(sha, root, staged, stream)
    ensures forall other :: StreamOf(sha, root, staged, other) ==> other == stream && digest == sha(other)
  {
    var entries := PackageEntries(root, staged);
    digest := EntriesDigest(sha, entries);
    stream := Stream(EntryRowsOf(sha, entries));
    forall other | StreamOf(sha, root, staged, other)
      ensures other == stream
    {
      var found :| Entries(root, staged, found) && other == Stream(EntryRowsOf(sha, found));
      EntriesUnique(root, staged, entries, found);
    }
  }

  // When the two agree ---------------------------------------------------------------------

  /** Every file is walked, data lies flat, no file is listed twice, and no two share a key. */
  ghost predicate Faithful(root: Path, sel: Selection) {
    && (forall p :: p in sel.All() ==> Local(p) && Walked(root, p))
    && (forall d :: d in sel.Data() ==> d != [] && Target(d) == d)
    && sel.modules !! sel.Data() && Distinct(sel.listed)
    && (forall p, q :: p in sel.All() && q in sel.All() && Key(p) == Key(q) ==> p == q)
  }

  /** Python, YAML and JSON files outside caches. */
  predicate Shipped(p: Path)
    requires p != []
  {
    var ending := Suffix(p[|p| - 1]);
    && (forall k :: 0 <= k < |p| ==> p[k] != "__pycache__")
    && (ending == ".py" || ending == ".yaml" || ending == ".yml" || ending == ".json")
  }

  ghost predicate AllShipped(root: Path, files: set<Path>) {
    && (forall p :: p in files ==> Local(p) && Shipped(p))
    && (files != {} ==> forall k :: 0 <= k < |root| ==> root[k] != "__pycache__")
  }

  /** Data files directly in the data directory. */
  ghost predicate AllFlat(files: set<Path>) {
    forall d :: d in files ==> |d| == 3 && d[0] == "gpu_fault" && d[1] == "data"
  }

  /** No file of the release package has a mirror inside `gpu_fault`. */
  ghost predicate NoMirror(files: set<Path>) {
    forall q :: q in files && q != [] && q[0] == "gpu_fault_release" ==> ["gpu_fault"] + q !in files
  }

  /**
   A selection is faithful if and only if it has only such files, its data lies
   directly in the data directory, no file is selected twice, and no file is
   mirrored.
   */
  lemma FaithfulIs(root: Path, sel: Selection)
    ensures Faithful(root, sel) <==>
      && AllShipped(root, sel.All()) && AllFlat(sel.Data()) && NoMirror(sel.All())
      && sel.modules !! sel.Data() && Distinct(sel.listed)
  {
    WalkedIs(root, sel.All());
    FlatIs(sel.Data());
    if forall p :: p in sel.All() ==> Local(p) {
      MirrorIs(sel.All());
    }
  }

  lemma WalkedIs(root: Path, files: set<Path>)
    ensures (forall p :: p in files ==> Local(p) && Walked(root, p)) <==> AllShipped(root, files)
  {
    forall p | Local(p)
      ensures Walked(root, p) <==> (forall k :: 0 <= k < |root| ==> root[k] != "__pycache__") && Shipped(p)
    {
    }
  }

  lemma FlatIs(files: set<Path>)
    ensures (forall d :: d in files ==> d != [] && Target(d) == d) <==> AllFlat(files)
  {
    forall d: Path | d != []
      ensures Target(d) == d <==> |d| == 3 && d[0] == "gpu_fault" && d[1] == "data"
    {
    }
  }

  lemma MirrorIs(files: set<Path>)
    requires forall p :: p in files ==> Local(p)
    ensures (forall p, q :: p in files && q in files && Key(p) == Key(q) ==> p == q) <==> NoMirror(files)
  {
    forall p, q | p in files && q in files
      ensures Key(p) == Key(q) <==>
        p == q || (q[0] == RELEASE && p == [SOURCE] + q) || (p[0] == RELEASE && q == [SOURCE] + p)
    {
      KeysClash(p, q);
    }
    forall q | q in files && q[0] == RELEASE && [SOURCE] + q in files
      ensures Key([SOURCE] + q) == Key(q) && [SOURCE] + q != q
    {
      assert |[SOURCE] + q| == |q| + 1;
    }
  }

  lemma OrderElems(sel: Selection, order: seq<Path>)
    requires multiset(order) == multiset(sel.modules) + multiset(sel.listed)
    ensures Elems(order) == sel.All()
  {
    forall p
      ensures p in order <==> p in sel.All()
    {
      assert p in order <==> p in multiset(order);
      assert p in sel.listed <==> p in multiset(sel.listed);
    }
  }

  /** In a selection without overlap, every file is listed once. */
  lemma OrderDistinct(sel: Selection, order: seq<Path>)
    requires multiset(order) == multiset(sel.modules) + multiset(sel.listed)
    ensures Distinct(order) <==> sel.modules !! sel.Data() && Distinct(sel.listed)
  {
    OrderElems(sel, order);
    DistinctMultiset(order);
    DistinctMultiset(sel.listed);
    OverlapCounts(sel.modules, sel.listed);
  }

  lemma OverlapCounts(modules: set<Path>, listed: seq<Path>)
    ensures multiset(modules) + multiset(listed) == multiset(modules + Elems(listed)) <==>
      modules !! Elems(listed) && multiset(listed) == multiset(Elems(listed))
  {
    var all := multiset(modules + Elems(listed));
    forall p
      ensures p in Elems(listed) <==> multiset(listed)[p] > 0
    {
      assert p in listed <==> p in multiset(listed);
    }
    if multiset(modules) + multiset(listed) == all {
      forall p
        ensures !(p in modules && p in Elems(listed)) && multiset(listed)[p] == multiset(Elems(listed))[p]
      {
        assert (multiset(modules) + multiset(listed))[p] == all[p];
      }
    }
  }

  /** `entries` holds exactly the files of `all`, each under its key. */
  ghost predicate Indexed(files: map<Path, Bytes>, all: set<Path>, entries: map<string, Bytes>) {
    && (forall p :: p in all ==> p in files && Local(p) && Key(p) in entries && entries[Key(p)] == files[p])
    && (forall k :: k in entries ==> HasKey(all, k))
  }

  ghost predicate HasKey(all: set<Path>, key: string) {
    exists p :: p in all && Local(p) && Key(p) == key
  }

  lemma EntriesIndexed(root: Path, files: map<Path, Bytes>, sel: Selection, staged: map<Path, Bytes>,
      entries: map<string, Bytes>)
    requires sel.Valid(files) && Faithful(root, sel) && Staged(files, sel, staged) && Entries(root, staged, entries)
    ensures Indexed(files, sel.All(), entries)
  {
    forall p | p in sel.All()
      ensures Key(p) in entries && entries[Key(p)] == files[p]
    {
      assert EntryOf(root, staged, staged.Keys, Key(p), entries[Key(p)]);
    }
    forall k | k in entries
      ensures HasKey(sel.All(), k)
    {
      assert EntryOf(root, staged, staged.Keys, k, entries[k]);
    }
  }

  ghost function KeysOf(order: seq<Path>): (keys: seq<string>)
    requires forall k :: 0 <= k < |order| ==> Local(order[k])
    ensures |keys| == |order| && forall k :: 0 <= k < |order| ==> keys[k] == Key(order[k])
  {
    seq(|order|, k requires 0 <= k < |order| => Key(order[k]))
  }

  lemma KeysOfElems(files: map<Path, Bytes>, order: seq<Path>, entries: map<string, Bytes>)
    requires forall k :: 0 <= k < |order| ==> Local(order[k])
    requires Indexed(files, Elems(order), entries)
    ensures Elems(KeysOf(order)) == entries.Keys
  {
    var keys := KeysOf(order);
    forall i | 0 <= i < |keys|
      ensures keys[i] in entries
    {
      assert order[i] in Elems(order);
    }
    forall k | k in entries
      ensures k in Elems(keys)
    {
      assert HasKey(Elems(order), k);
      var p :| p in Elems(order) && Local(p) && Key(p) == k;
      var i :| 0 <= i < |order| && order[i] == p;
      assert keys[i] in Elems(keys);
    }
  }

  /** The source records are the records of the entries, in the order of their keys. */
  lemma RowsAgree(sha: Bytes -> Bytes, files: map<Path, Bytes>, order: seq<Path>, source: seq<Row>,
      entries: map<string, Bytes>, built: seq<Row>)
    requires SourceRows(sha, files, order, source) && EntryRows(sha, entries, built)
    requires Indexed(files, Elems(order), entries)
    requires Distinct(KeysOf(order)) && Sorted(KeysOf(order), StringLeq)
    ensures source == built
  {
    KeysOfElems(files, order, entries);
    SortedSetUnique(KeysOf(order));
    forall i | 0 <= i < |order|
      ensures source[i] == built[i]
    {
      assert order[i] in Elems(order);
    }
  }

  lemma KeysDistinct(root: Path, sel: Selection, order: seq<Path>)
    requires Faithful(root, sel) && KeyOrder(sel, order)
    ensures Distinct(KeysOf(order))
  {
    OrderElems(sel, order);
    OrderDistinct(sel, order);
    forall i, j | 0 <= i < j < |order|
      ensures Key(order[i]) != Key(order[j])
    {
      assert order[i] in Elems(order) && order[j] in Elems(order);
    }
  }

  /** Both digests hash `source` and `built`: every faithful selection gives them the same records. */
  lemma AgreeWhenFaithful(
      sha: Bytes -> Bytes, root: Path, files: map<Path, Bytes>, sel: Selection, order: seq<Path>, source: seq<Row>,
      staged: map<Path, Bytes>, entries: map<string, Bytes>, built: seq<Row>)
    requires sel.Valid(files) && Faithful(root, sel)
    requires KeyOrder(sel, order) && SourceRows(sha, files, order, source)
    requires Staged(files, sel, staged) && Entries(root, staged, entries) && EntryRows(sha, entries, built)
    ensures source == built
  {
    EntriesIndexed(root, files, sel, staged, entries);
    OrderElems(sel, order);
    KeysDistinct(root, sel, order);
    RowsAgree(sha, files, order, source, entries, built);
  }

  // Conversely ---------------------------------------------------------------------------

  lemma KeysDiffer(sha: Bytes -> Bytes, files: map<Path, Bytes>, order: seq<Path>, source: seq<Row>,
      entries: map<string, Bytes>)
    requires SourceRows(sha, files, order, source) && EntryRows(sha, entries, source)
    ensures forall i, j :: 0 <= i < j < |order| ==> Key(order[i]) != Key(order[j])
  {
    forall i, j | 0 <= i < j < |order|
      ensures Key(order[i]) != Key(order[j])
    {
      assert source[i].key != source[j].key;
    }
  }

  lemma KeyFound(sha: Bytes -> Bytes, files: map<Path, Bytes>, order: seq<Path>, source: seq<Row>,
      entries: map<string, Bytes>, p: Path)
    requires SourceRows(sha, files, order, source) && EntryRows(sha, entries, source) && p in Elems(order)
    ensures Local(p) && Key(p) in entries
  {
    var i :| 0 <= i < |order| && order[i] == p;
    assert source[i].key == Key(p);
  }

  /** Equal records: the keys of the selection are distinct and all found among the entries. */
  lemma KeysFound(sha: Bytes -> Bytes, files: map<Path, Bytes>, sel: Selection, order: seq<Path>, source: seq<Row>,
      entries: map<string, Bytes>)
    requires KeyOrder(sel, order) && SourceRows(sha, files, order, source) && EntryRows(sha, entries, source)
    ensures sel.modules !! sel.Data() && Distinct(sel.listed)
    ensures forall p :: p in sel.All() ==> Local(p) && Key(p) in entries
    ensures forall p, q :: p in sel.All() && q in sel.All() && Key(p) == Key(q) ==> p == q
  {
    OrderElems(sel, order);
    KeysDiffer(sha, files, order, source, entries);
    OrderDistinct(sel, order);
    forall p | p in sel.All()
      ensures Local(p) && Key(p) in entries
    {
      KeyFound(sha, files, order, source, entries, p);
    }
    forall p, q | p in sel.All() && q in sel.All() && Key(p) == Key(q)
      ensures p == q
    {
      assert p in Elems(order) && q in Elems(order);
      var i :| 0 <= i < |order| && order[i] == p;
      var j :| 0 <= j < |order| && order[j] == q;
      assert !(i < j) && !(j < i);
    }
  }

  /** A data file found under its own key lies flat: staging has dropped every deeper path. */
  lemma DataFlat(root: Path, files: map<Path, Bytes>, sel: Selection, staged: map<Path, Bytes>, entries: map<string,
      Bytes>, d: Path)
    requires sel.Valid(files) && Staged(files, sel, staged) && Entries(root, staged, entries)
    requires sel.modules !! sel.Data() && d in sel.Data() && Key(d) in entries
    requires forall p :: p in sel.modules && Key(p) == Key(d) ==> p == d
    ensures Target(d) == d
  {
    assert EntryOf(root, staged, staged.Keys, Key(d), entries[Key(d)]);
    var q :| q in staged && Local(q) && Walked(root, q) && Key(q) == Key(d) && entries[Key(d)] == staged[q];
    assert StagedFrom(files, sel, q, staged[q]);
    assert q !in sel.modules;
    DataListed(sel, files, d);
    KeysClash(q, d);
    assert q == d;
  }

  /** If the two streams hash the same records, the selection was faithful. */
  lemma FaithfulWhenAgree(
      sha: Bytes -> Bytes, root: Path, files: map<Path, Bytes>, sel: Selection, order: seq<Path>, source: seq<Row>,
      staged: map<Path, Bytes>, entries: map<string, Bytes>, built: seq<Row>)
    requires sel.Valid(files)
    requires KeyOrder(sel, order) && SourceRows(sha, files, order, source)
    requires Staged(files, sel, staged) && Entries(root, staged, entries) && EntryRows(sha, entries, built)
    requires source == built
    ensures Faithful(root, sel)
  {
    KeysFound(sha, files, sel, order, source, entries);
    forall d | d in sel.Data()
      ensures Target(d) == d
    {
      DataFlat(root, files, sel, staged, entries, d);
    }
    forall p | p in sel.All()
      ensures Walked(root, p)
    {
      assert EntryOf(root, staged, staged.Keys, Key(p), entries[Key(p)]);
      var q :| q in staged && Local(q) && Walked(root, q) && Key(q) == Key(p) && entries[Key(p)] == staged[q];
      assert StagedFrom(files, sel, q, staged[q]);
      assert q in sel.All();
    }
  }

  lemma StagedLocal(files: map<Path, Bytes>, sel: Selection, staged: map<Path, Bytes>)
    requires sel.Valid(files) && Staged(files, sel, staged)
    ensures forall p :: p in staged ==> Local(p)
  {
    assert Segment(SOURCE) && Segment(DATA);
    forall p | p in staged
      ensures Local(p)
    {
      assert StagedFrom(files, sel, p, staged[p]);
      if p !in sel.modules {
        var d :| d in sel.Data() && d in files && d != [] && Target(d) == p && staged[p] == files[d];
        assert Local(d) && Segment(d[|d| - 1]);
      }
    }
  }

  lemma SourceFrameable(sha: Bytes -> Bytes, files: map<Path, Bytes>, order: seq<Path>, rows: seq<Row>)
    requires Sha(sha) && SourceRows(sha, files, order, rows)
    ensures forall k :: 0 <= k < |rows| ==> Frameable(rows[k])
  {
    forall k | 0 <= k < |rows|
      ensures Frameable(rows[k])
    {
      KeyNulFree(order[k]);
    }
  }

  lemma EntriesFrameable(sha: Bytes -> Bytes, root: Path, staged: map<Path, Bytes>, entries: map<string, Bytes>,
      rows: seq<Row>)
    requires Sha(sha) && Entries(root, staged, entries) && EntryRows(sha, entries, rows)
    ensures forall k :: 0 <= k < |rows| ==> Frameable(rows[k])
  {
    forall k | 0 <= k < |rows|
      ensures Frameable(rows[k])
    {
      var key := rows[k].key;
      assert EntryOf(root, staged, staged.Keys, key, entries[key]);
      var p :| p in staged && Local(p) && Walked(root, p) && Key(p) == key && entries[key] == staged[p];
      KeyNulFree(p);
    }
  }

  /**
   Both digests of one selection: that of the records of the ordered source files,
   and that of the tree they are staged into. They hash the same stream if and only
   if the selection is faithful. So the digests of a faithful selection agree, and
   where those of another one do, two different streams collide.
   */
  method DigestTwice(sha: Bytes -> Bytes, root: Path, files: map<Path, Bytes>, sel: Selection, order: seq<Path>)
      returns (source: Bytes, built: Bytes, ghost selected: Bytes, ghost staged: Bytes)
    requires Sha(sha) && sel.Valid(files) && KeyOrder(sel, order)
    ensures source == sha(selected) && built == sha(staged)
    ensures forall k :: 0 <= k < |order| ==> Local(order[k]) && order[k] in files
    ensures selected == Stream(SourceRowsOf(sha, files, order))
    ensures sel.modules + Elems(sel.listed) <= files.Keys
    ensures StreamOf(sha, root, Tree(files, sel.modules, sel.listed), staged)
    ensures selected == staged <==> Faithful(root, sel)
    ensures Faithful(root, sel) ==> source == built
    ensures source == built && !Faithful(root, sel) ==> selected != staged && sha(selected) == sha(staged)
  {
    var tree := CopyModules(files, sel);
    StagedLocal(files, sel, tree);
    OrderElems(sel, order);
    assert forall k :: 0 <= k < |order| ==> order[k] in Elems(order);
    source := SourceDigest(sha, files, order);
    selected := Stream(SourceRowsOf(sha, files, order));
    built, staged := PackageDigest(sha, root, tree);
    StreamsAgree(sha, root, files, sel, order, tree, staged);
  }

  /** The stream of the selected files is that of their staged tree if and only if the selection is faithful. */
  lemma StreamsAgree(
      sha: Bytes -> Bytes, root: Path, files: map<Path, Bytes>, sel: Selection, order: seq<Path>,
      tree: map<Path, Bytes>, staged: Bytes)
    requires Sha(sha) && sel.Valid(files) && KeyOrder(sel, order) && Staged(files, sel, tree)
    requires forall k :: 0 <= k < |order| ==> order[k] in files
    requires StreamOf(sha, root, tree, staged)
    ensures Stream(SourceRowsOf(sha, files, order)) == staged <==> Faithful(root, sel)
  {
    var entries :| Entries(root, tree, entries) && staged == Stream(EntryRowsOf(sha, entries));
    var sourceRows, builtRows := SourceRowsOf(sha, files, order), EntryRowsOf(sha, entries);
    if Faithful(root, sel) {
      AgreeWhenFaithful(sha, root, files, sel, order, sourceRows, tree, entries, builtRows);
    }
    if Stream(sourceRows) == staged {
      SourceFrameable(sha, files, order, sourceRows);
      EntriesFrameable(sha, root, tree, entries, builtRows);
      StreamInjective(sourceRows, builtRows);
      FaithfulWhenAgree(sha, root, files, sel, order, sourceRows, tree, entries, builtRows);
    }
  }

  /** A module of the release package next to its mirror inside `gpu_fault` is enough to part the streams. */
  lemma MirrorUnfaithful(root: Path, sel: Selection, p: Path)
    requires Local(p) && p[0] == RELEASE && p in sel.modules && [SOURCE] + p in sel.modules
    ensures !Faithful(root, sel)
  {
    var mirror := [SOURCE] + p;
    if Faithful(root, sel) {
      assert mirror in sel.All() && p in sel.All();
      KeysClash(mirror, p);
    }
  }

  const PLAN: Path := [RELEASE, "plan.py"]

  const MIRROR: Path := [SOURCE, RELEASE, "plan.py"]

  const MIRRORED: map<Path, Bytes> := map[PLAN := "a", MIRROR := "b"]

  const BOTH: Selection := Selection({PLAN, MIRROR}, [])

  lemma MirrorValid(files: map<Path, Bytes>, p: Path, mirror: Path, sel: Selection, order: seq<Path>)
    requires Local(p) && Segment(SOURCE) && p[0] == RELEASE && mirror == [SOURCE] + p && files.Keys == {p, mirror}
    requires sel == Selection({p, mirror}, []) && order == [p, mirror]
    ensures sel.Valid(files) && KeyOrder(sel, order)
  {
    assert Local(mirror) && sel.All() == {p, mirror};
    KeysClash(mirror, p);
    StringOrder();
  }

  /**
   One such selection, of two files: the stream of its records is not that of its
   staged tree, so its digests differ, or SHA-256 has a collision.
   */
  method MirrorParts(sha: Bytes -> Bytes, root: Path)
      returns (source: Bytes, built: Bytes, ghost selected: Bytes, ghost staged: Bytes)
    requires Sha(sha)
    ensures BOTH.Valid(MIRRORED) && KeyOrder(BOTH, [PLAN, MIRROR]) && !Faithful(root, BOTH)
    ensures source == sha(selected) && selected == Stream(SourceRowsOf(sha, MIRRORED, [PLAN, MIRROR]))
    ensures built == sha(staged) && StreamOf(sha, root, Tree(MIRRORED, BOTH.modules, BOTH.listed), staged)
    ensures selected != staged
  {
    assert Segment(SOURCE) && Segment(RELEASE) && Segment("plan.py");
    assert [SOURCE] + PLAN == MIRROR;
    MirrorValid(MIRRORED, PLAN, MIRROR, BOTH, [PLAN, MIRROR]);
    MirrorUnfaithful(root, BOTH, PLAN);
    source, built, selected, staged := DigestTwice(sha, root, MIRRORED, BOTH, [PLAN, MIRROR]);
  }
}
