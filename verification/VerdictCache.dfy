/**
 The verdict cache of the public-release scanner: a recorded pass is reused
 when the digest of the scanned content matches.

 SHA-256 is an arbitrary function with NUL-free digests: where the cache misleads,
 two different texts that the runs hashed have one digest. What is scanned and
 whether it is clean are arbitrary functions of the scanner's own source and the
 tree, so the result holds for every scanner. Bytes are chars; paths are taken as
 encoded.
 */
module VerdictCache {
  import opened Orders
  import opened Wrappers

  type Files = map<string, string>

  const NUL: char := '\0'

  ghost predicate NulFree(s: string) {
    NUL !in s
  }

  datatype Machine = Machine(
    /** SHA-256, as hexadecimal text. */
    sha: string -> string,
    /** The files a scanner with this source scans in a tree, with their bytes. */
    select: (string, Files) -> Files,
    /** Whether a scanner with this source finds nothing to report in these files. */
    clean: (string, Files) -> bool)

  ghost predicate Hexadecimal(m: Machine) {
    forall a :: NulFree(m.sha(a))
  }

  /** The scanner's source and the tree it runs on. */
  datatype World = World(source: string, tree: Files)

  /** Neither the scanner's source nor a scanned path holds a NUL. */
  ghost predicate Plain(m: Machine, w: World) {
    NulFree(w.source) && forall p :: p in m.select(w.source, w.tree) ==> NulFree(p)
  }

  // The digest framing ------------------------------------------------------

  datatype Entry = Entry(path: string, digest: string)

  const PATH_MARK: string := [NUL] + "path" + [NUL]
  const CONTENT_MARK: string := [NUL] + "content" + [NUL]

  function Framed(e: Entry): string {
    PATH_MARK + e.path + CONTENT_MARK + e.digest
  }

  /** What is hashed: the scanner's source, then every path and content digest between NUL-framed marks. */
  function Stream(source: string, entries: seq<Entry>): string {
    if entries == [] then source
    else Stream(source, entries[..|entries| - 1]) + Framed(entries[|entries| - 1])
  }

  function Tail(entries: seq<Entry>): string {
    if entries == [] then "" else Framed(entries[0]) + Tail(entries[1..])
  }

  ghost predicate Frames(entries: seq<Entry>) {
    forall k :: 0 <= k < |entries| ==> NulFree(entries[k].path) && NulFree(entries[k].digest)
  }

  lemma {:induction false} StreamIsTail(source: string, entries: seq<Entry>)
    ensures Stream(source, entries) == source + Tail(entries)
  {
    if entries != [] {
      var n := |entries| - 1;
      StreamIsTail(source, entries[..n]);
      TailAppend(entries[..n], entries[n]);
      Reassociate(source, Tail(entries[..n]), Framed(entries[n]));
      assert entries[..n] + [entries[n]] == entries;
    } else {
      assert source + "" == source;
    }
  }

  lemma {:induction false} TailAppend(entries: seq<Entry>, e: Entry)
    ensures Tail(entries + [e]) == Tail(entries) + Framed(e)
  {
    if entries == [] {
      assert [e][1..] == [];
    } else {
      TailAppend(entries[1..], e);
      assert (entries + [e])[1..] == entries[1..] + [e];
    }
  }

  /** Text up to the first NUL is determined. */
  lemma FirstNul(a: string, r: string, b: string, t: string)
    requires NulFree(a) && NulFree(b) && a + r == b + t
    requires r == "" || r[0] == NUL
    requires t == "" || t[0] == NUL
    ensures a == b && r == t
  {
    var whole := a + r;
    assert whole == b + t;
    assert forall i :: 0 <= i < |a| ==> whole[i] == a[i];
    assert forall i :: 0 <= i < |b| ==> whole[i] == b[i];
    assert r != "" ==> whole[|a|] == NUL;
    assert t != "" ==> whole[|b|] == NUL;
    assert a == whole[..|a|] && b == whole[..|b|];
    assert r == whole[|a|..] && t == whole[|b|..];
  }

  lemma CancelLeft(p: string, a: string, b: string)
    requires p + a == p + b
    ensures a == b
  {
    assert a == (p + a)[|p|..] && b == (p + b)[|p|..];
  }

  /** Two texts between two marks, each up to the next NUL, are determined. */
  lemma FramedFirst(mark: string, mid: string, p: string, d: string, s: string, q: string, f: string, t: string)
    requires mid != "" && mid[0] == NUL
    requires NulFree(p) && NulFree(d) && NulFree(q) && NulFree(f)
    requires s == "" || s[0] == NUL
    requires t == "" || t[0] == NUL
    requires mark + (p + (mid + (d + s))) == mark + (q + (mid + (f + t)))
    ensures p == q && d == f && s == t
  {
    CancelLeft(mark, p + (mid + (d + s)), q + (mid + (f + t)));
    FirstNul(p, mid + (d + s), q, mid + (f + t));
    CancelLeft(mid, d + s, f + t);
    FirstNul(d, s, f, t);
  }

  lemma TailCons(entries: seq<Entry>)
    requires entries != []
    ensures Tail(entries) ==
            PATH_MARK + (entries[0].path + (CONTENT_MARK + (entries[0].digest + Tail(entries[1..]))))
  {
    NestRight(PATH_MARK, entries[0].path, CONTENT_MARK, entries[0].digest, Tail(entries[1..]));
  }

  lemma NestRight(a: string, b: string, c: string, d: string, e: string)
    ensures a + b + c + d + e == a + (b + (c + (d + e)))
  {
  }

  lemma TailStarts(entries: seq<Entry>)
    ensures Tail(entries) == "" || Tail(entries)[0] == NUL
    ensures entries != [] ==> Tail(entries) != ""
  {
  }

  lemma {:induction false} TailInjective(a: seq<Entry>, b: seq<Entry>)
    requires Frames(a) && Frames(b) && Tail(a) == Tail(b)
    ensures a == b
  {
    TailStarts(a);
    TailStarts(b);
    if a != [] && b != [] {
      TailCons(a);
      TailCons(b);
      TailStarts(a[1..]);
      TailStarts(b[1..]);
      FramedFirst(PATH_MARK, CONTENT_MARK, a[0].path, a[0].digest, Tail(a[1..]), b[0].path, b[0].digest, Tail(b[1..]));
      TailInjective(a[1..], b[1..]);
      assert a == [a[0]] + a[1..] && b == [b[0]] + b[1..];
    }
  }

  /** The framing is injective: the hashed stream determines the source and every entry. */
  lemma StreamInjective(s: string, a: seq<Entry>, t: string, b: seq<Entry>)
    requires NulFree(s) && NulFree(t) && Frames(a) && Frames(b)
    requires Stream(s, a) == Stream(t, b)
    ensures s == t && a == b
  {
    StreamIsTail(s, a);
    StreamIsTail(t, b);
    TailStarts(a);
    TailStarts(b);
    FirstNul(s, Tail(a), t, Tail(b));
    TailInjective(a, b);
  }

  // The digest of what is scanned ----------------------------------------------

  ghost function Entries(m: Machine, files: Files): (r: seq<Entry>)
    ensures |r| == |SortedSet(files.Keys)|
  {
    var keys := SortedSet(files.Keys);
    seq(|keys|, k requires 0 <= k < |keys| =>
      assert keys[k] in Elems(keys);
      Entry(keys[k], m.sha(files[keys[k]])))
  }

  ghost function Digest(m: Machine, source: string, files: Files): string {
    m.sha(Stream(source, Entries(m, files)))
  }

  ghost function WorldDigest(m: Machine, w: World): string {
    Digest(m, w.source, m.select(w.source, w.tree))
  }

  lemma EntriesFrames(m: Machine, files: Files)
    requires Hexadecimal(m) && forall p :: p in files ==> NulFree(p)
    ensures Frames(Entries(m, files))
  {
    var keys := SortedSet(files.Keys);
    forall k | 0 <= k < |keys|
      ensures NulFree(keys[k])
    {
      assert keys[k] in Elems(keys);
    }
  }

  lemma EntryAt(m: Machine, files: Files, k: nat)
    requires k < |SortedSet(files.Keys)|
    ensures SortedSet(files.Keys)[k] in files
    ensures Entries(m, files)[k] == Entry(SortedSet(files.Keys)[k], m.sha(files[SortedSet(files.Keys)[k]]))
  {
    assert SortedSet(files.Keys)[k] in Elems(SortedSet(files.Keys));
  }

  /** `entries` lists the files in the order of `keys`. */
  ghost predicate Lists(m: Machine, files: Files, keys: seq<string>, entries: seq<Entry>) {
    && Elems(keys) == files.Keys && |entries| == |keys|
    && forall k :: 0 <= k < |keys| ==> keys[k] in files && entries[k] == Entry(keys[k], m.sha(files[keys[k]]))
  }

  lemma EntriesList(m: Machine, files: Files)
    ensures Lists(m, files, SortedSet(files.Keys), Entries(m, files))
  {
    forall k | 0 <= k < |SortedSet(files.Keys)|
      ensures SortedSet(files.Keys)[k] in files
      ensures Entries(m, files)[k] == Entry(SortedSet(files.Keys)[k], m.sha(files[SortedSet(files.Keys)[k]]))
    {
      EntryAt(m, files, k);
    }
  }

  /** Everything that is hashed when a world is scanned: the contents, and the stream of the whole. */
  ghost predicate Hashes(m: Machine, w: World, text: string) {
    var files := m.select(w.source, w.tree);
    text == Stream(w.source, Entries(m, files)) || exists p :: p in files && files[p] == text
  }

  ghost predicate Collision(m: Machine, v: World, w: World, a: string, b: string) {
    Hashes(m, v, a) && Hashes(m, w, b) && a != b && m.sha(a) == m.sha(b)
  }

  /** Two different texts hashed for the two worlds have one digest. */
  ghost predicate Collide(m: Machine, v: World, w: World) {
    exists a, b :: Collision(m, v, w, a, b)
  }

  /** Files listed by the same entries are the same files, up to contents with one digest. */
  lemma ListedEqual(m: Machine, a: Files, ka: seq<string>, b: Files, kb: seq<string>, entries: seq<Entry>)
    requires Lists(m, a, ka, entries) && Lists(m, b, kb, entries)
    ensures a == b || exists p :: p in a && p in b && a[p] != b[p] && m.sha(a[p]) == m.sha(b[p])
  {
    forall k | 0 <= k < |ka|
      ensures ka[k] == kb[k] && m.sha(a[ka[k]]) == m.sha(b[kb[k]])
    {
      assert entries[k].path == ka[k] && entries[k].path == kb[k];
    }
    assert ka == kb;
    forall p | p in a
      ensures p in b && m.sha(a[p]) == m.sha(b[p])
    {
      assert p in Elems(ka);
    }
    assert a.Keys == b.Keys;
  }

  lemma EntriesInjective(m: Machine, a: Files, b: Files)
    requires Entries(m, a) == Entries(m, b)
    ensures a == b || exists p :: p in a && p in b && a[p] != b[p] && m.sha(a[p]) == m.sha(b[p])
  {
    EntriesList(m, a);
    EntriesList(m, b);
    ListedEqual(m, a, SortedSet(a.Keys), b, SortedSet(b.Keys), Entries(m, a));
  }

  /** Equal digests mean the same scanner source over the same paths and bytes, or a collision. */
  lemma DigestInjective(m: Machine, v: World, w: World)
    requires Hexadecimal(m) && Plain(m, v) && Plain(m, w)
    requires WorldDigest(m, v) == WorldDigest(m, w)
    ensures || (v.source == w.source && m.select(v.source, v.tree) == m.select(w.source, w.tree))
            || Collide(m, v, w)
  {
    var a, b := m.select(v.source, v.tree), m.select(w.source, w.tree);
    var s, r := Stream(v.source, Entries(m, a)), Stream(w.source, Entries(m, b));
    if s != r {
      assert Collision(m, v, w, s, r);
    } else {
      EntriesFrames(m, a);
      EntriesFrames(m, b);
      StreamInjective(v.source, Entries(m, a), w.source, Entries(m, b));
      EntriesInjective(m, a, b);
      if a != b {
        var p :| p in a && p in b && a[p] != b[p] && m.sha(a[p]) == m.sha(b[p]);
        assert Collision(m, v, w, a[p], b[p]);
      }
    }
  }

  // The gate ----------------------------------------------------------------------

  ghost predicate Clean(m: Machine, w: World) {
    m.clean(w.source, m.select(w.source, w.tree))
  }

  /** The exit code of a run without a cache. */
  ghost function Uncached(m: Machine, w: World): int {
    if Clean(m, w) then 0 else 1
  }

  /** `digest` belongs to a world of `history` that was found clean. */
  ghost predicate Earned(m: Machine, history: seq<World>, digest: string) {
    exists k :: 0 <= k < |history| && WorldDigest(m, history[k]) == digest && Clean(m, history[k])
  }

  lemma EarnedStays(m: Machine, history: seq<World>, w: World, digest: string)
    requires Earned(m, history, digest)
    ensures Earned(m, history + [w], digest)
  {
    var k :| 0 <= k < |history| && WorldDigest(m, history[k]) == digest && Clean(m, history[k]);
    assert (history + [w])[k] == history[k];
  }

  lemma EarnedNow(m: Machine, history: seq<World>, w: World)
    requires Clean(m, w)
    ensures Earned(m, history + [w], WorldDigest(m, w))
  {
    assert (history + [w])[|history|] == w;
  }

  /** One of the worlds seen collides with this one. */
  ghost predicate CollidesWith(m: Machine, history: seq<World>, w: World) {
    exists k :: 0 <= k < |history| && Collide(m, history[k], w)
  }

  /** A recorded pass vouches for every world with its digest, unless there is a collision. */
  lemma EarnedVouches(m: Machine, history: seq<World>, w: World)
    requires Hexadecimal(m) && Plain(m, w) && forall k :: 0 <= k < |history| ==> Plain(m, history[k])
    requires Earned(m, history, WorldDigest(m, w))
    ensures Clean(m, w) || CollidesWith(m, history, w)
  {
    var k :| 0 <= k < |history| && WorldDigest(m, history[k]) == WorldDigest(m, w) && Clean(m, history[k]);
    DigestInjective(m, history[k], w);
  }

  /** The cache file, and the worlds the gate has seen. */
  class Gate {
    const machine: Machine
    var cache: Option<string>
    ghost var history: seq<World>

    /** A recorded digest is that of a world found clean. */
    ghost predicate Valid()
      reads this
    {
      && Hexadecimal(machine)
      && (forall k :: 0 <= k < |history| ==> Plain(machine, history[k]))
      && (cache.Some? ==> Earned(machine, history, cache.value))
    }

    constructor (m: Machine)
      requires Hexadecimal(m)
      ensures Valid() && machine == m && cache == None && history == []
    {
      machine, cache, history := m, None, [];
    }

    /** The digest of the scanned files, hashed path by path in sorted order. */
    method CombinedDigest(w: World, files: Files) returns (digest: string)
      ensures digest == Digest(machine, w.source, files)
    {
      var keys := SortStrings(files.Keys);
      var stream := w.source;
      ghost var entries := Entries(machine, files);
      for k := 0 to |keys|
        invariant stream == Stream(w.source, entries[..k])
      {
        assert keys[k] in Elems(keys);
        assert entries[..k + 1][..k] == entries[..k];
        stream := stream + (PATH_MARK + keys[k] + CONTENT_MARK + machine.sha(files[keys[k]]));
      }
      assert entries[..|keys|] == entries;
      digest := machine.sha(stream);
    }

    /**
     One run of the gate on a tree, with or without the verdict cache: its exit code
     is that of a run without one unless the recorded digest is that of this tree,
     which is not clean; and then there is a collision.
     */
    method Run(w: World, useCache: bool) returns (code: int)
      requires Valid() && Plain(machine, w)
      modifies this
      ensures Valid() && history == old(history) + [w]
      ensures code != Uncached(machine, w) <==>
        useCache && old(cache) == Some(WorldDigest(machine, w)) && !Clean(machine, w)
      ensures code != Uncached(machine, w) ==> code == 0 && CollidesWith(machine, old(history), w)
      ensures cache == if useCache && code == 0 then Some(WorldDigest(machine, w)) else old(cache)
    {
      var files := machine.select(w.source, w.tree);
      var digest := CombinedDigest(w, files);
      if cache.Some? {
        EarnedStays(machine, history, w, cache.value);
      }
      if useCache && cache == Some(digest) {
        EarnedVouches(machine, history, w);
        history := history + [w];
        return 0;
      }
      code := if machine.clean(w.source, files) then 0 else 1;
      if useCache && code == 0 {
        EarnedNow(machine, history, w);
        cache := Some(digest);
      }
      history := history + [w];
    }

    /**
     A whole session: any trees in any order, each run with or without the cache. An
     exit code differs from that of an uncached run only where two texts hashed in
     the session collide; so none does when none collide.
     */
    method Session(runs: seq<(World, bool)>) returns (codes: seq<int>)
      requires Valid() && forall k :: 0 <= k < |runs| ==> Plain(machine, runs[k].0)
      modifies this
      ensures Valid() && |codes| == |runs| && history == old(history) + Worlds(runs)
      ensures RightOrCollides(machine, old(history), runs, codes)
      ensures CollisionFree(machine, history) ==>
        forall k :: 0 <= k < |runs| ==> codes[k] == Uncached(machine, runs[k].0)
    {
      ghost var before := history;
      codes := [];
      for k := 0 to |runs|
        invariant Valid() && |codes| == k && history == before + Worlds(runs[..k])
        invariant RightOrCollides(machine, before, runs, codes)
      {
        var code := Run(runs[k].0, runs[k].1);
        WorldsNext(runs, k);
        RightNext(machine, before, runs, codes, code);
        codes := codes + [code];
      }
      assert runs[..|runs|] == runs;
      if CollisionFree(machine, history) {
        AllRight(machine, before, runs, codes);
      }
    }
  }

  /** An exit code is that of an uncached run, or the world collides with one seen before. */
  ghost predicate RightOrCollides(m: Machine, before: seq<World>, runs: seq<(World, bool)>, codes: seq<int>) {
    && |codes| <= |runs|
    && forall k :: 0 <= k < |codes| ==>
         codes[k] == Uncached(m, runs[k].0) || CollidesWith(m, before + Worlds(runs[..k]), runs[k].0)
  }

  lemma RightNext(m: Machine, before: seq<World>, runs: seq<(World, bool)>, codes: seq<int>, code: int)
    requires RightOrCollides(m, before, runs, codes) && |codes| < |runs|
    requires var k := |codes|;
      code == Uncached(m, runs[k].0) || CollidesWith(m, before + Worlds(runs[..k]), runs[k].0)
    ensures RightOrCollides(m, before, runs, codes + [code])
  {
  }

  /** No two worlds of the history collide. */
  ghost predicate CollisionFree(m: Machine, history: seq<World>) {
    forall v, w :: v in history && w in history ==> !Collide(m, v, w)
  }

  ghost function Worlds(runs: seq<(World, bool)>): (r: seq<World>)
    ensures |r| == |runs| && forall k :: 0 <= k < |runs| ==> r[k] == runs[k].0
  {
    seq(|runs|, k requires 0 <= k < |runs| => runs[k].0)
  }

  lemma WorldsNext(runs: seq<(World, bool)>, k: nat)
    requires k < |runs|
    ensures Worlds(runs[..k + 1]) == Worlds(runs[..k]) + [runs[k].0]
  {
  }

  lemma AllRight(m: Machine, before: seq<World>, runs: seq<(World, bool)>, codes: seq<int>)
    requires |codes| == |runs| && RightOrCollides(m, before, runs, codes) && CollisionFree(m, before + Worlds(runs))
    ensures forall k :: 0 <= k < |runs| ==> codes[k] == Uncached(m, runs[k].0)
  {
    forall k | 0 <= k < |runs|
      ensures codes[k] == Uncached(m, runs[k].0)
    {
      NoneCollides(m, before, runs, k);
    }
  }

  lemma NoneCollides(m: Machine, before: seq<World>, runs: seq<(World, bool)>, k: nat)
    requires k < |runs| && CollisionFree(m, before + Worlds(runs))
    ensures !CollidesWith(m, before + Worlds(runs[..k]), runs[k].0)
  {
    var whole, part := before + Worlds(runs), before + Worlds(runs[..k]);
    assert whole[|before| + k] == runs[k].0;
    forall j | 0 <= j < |part|
      ensures part[j] in whole
    {
      assert part[j] == whole[j];
    }
  }

  // A collision misleads -----------------------------------------------------------------------

  /** A digest that tells nothing apart, and a scanner that wants no files. */
  function Blind(): Machine {
    Machine(text => "0", (source: string, tree: Files) => tree, (source: string, files: Files) => files == map[])
  }

  const CLEAN := World("", map[])

  const DIRTY := World("", map["a" := "b"])

  lemma BlindFacts()
    ensures Hexadecimal(Blind()) && Plain(Blind(), CLEAN) && Plain(Blind(), DIRTY)
    ensures Clean(Blind(), CLEAN) && !Clean(Blind(), DIRTY)
    ensures WorldDigest(Blind(), CLEAN) == WorldDigest(Blind(), DIRTY)
  {
    assert "a" in DIRTY.tree;
  }

  /** Of two worlds with one digest, a clean one lets the other pass. */
  method Misled(m: Machine, clean: World, dirty: World) returns (first: int, second: int)
    requires Hexadecimal(m) && Plain(m, clean) && Plain(m, dirty)
    requires Clean(m, clean) && !Clean(m, dirty) && WorldDigest(m, clean) == WorldDigest(m, dirty)
    ensures first == Uncached(m, clean) && second != Uncached(m, dirty) && CollidesWith(m, [clean], dirty)
  {
    var gate := new Gate(m);
    first := gate.Run(clean, true);
    second := gate.Run(dirty, true);
    assert [] + [clean] == [clean];
  }

  /** With the blind digest there are such worlds. */
  method CollisionMisleads() returns (first: int, second: int)
    ensures first == Uncached(Blind(), CLEAN) && second != Uncached(Blind(), DIRTY)
    ensures CollidesWith(Blind(), [CLEAN], DIRTY)
  {
    BlindFacts();
    first, second := Misled(Blind(), CLEAN, DIRTY);
  }
}
