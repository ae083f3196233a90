/**
 Documentation contracts name files by glob. A glob is compiled to a regular
 expression and matched in full; the meaning it must have is that of matching
 path segment by path segment.
 */
module Globs {

  import Orders
  import opened Paths

  /** The pieces `_glob_regex` emits, between `^` and `$`, which a full match makes redundant. */
  datatype Piece =
    | Literal(c: char)   // an escaped character
    | NotSlash           // [^/]
    | NotSlashes         // [^/]*
    | Anything           // .*
    | Directories        // (?:.*/)?

  /** The strings one piece matches. */
  predicate Accepts(p: Piece, s: string) {
    match p
    case Literal(c) => s == [c]
    case NotSlash => |s| == 1 && s[0] != '/'
    case NotSlashes => '/' !in s
    case Anything => '\n' !in s
    case Directories => s == "" || ('\n' !in s && s[|s| - 1] == '/')
  }

  /** A full match: the string falls apart into matches of the pieces, in order. */
  ghost predicate FullMatch(pieces: seq<Piece>, s: string)
    decreases |pieces|, 0
  {
    if pieces == [] then s == "" else exists k: nat :: Takes(pieces[0], pieces[1..], s, k)
  }

  /** The piece takes the first `k` characters, and the rest matches what is left. */
  ghost predicate Takes(p: Piece, rest: seq<Piece>, s: string, k: nat)
    decreases |rest|, 1
  {
    k <= |s| && Accepts(p, s[..k]) && FullMatch(rest, s[k..])
  }

  // The compiler ---------------------------------------------------------------

  predicate StartsDouble(pattern: string) {
    |pattern| >= 2 && pattern[0] == '*' && pattern[1] == '*'
  }

  predicate StartsDirectories(pattern: string) {
    StartsDouble(pattern) && |pattern| >= 3 && pattern[2] == '/'
  }

  /** The piece for the start of a pattern. */
  function Next(pattern: string): Piece
    requires pattern != ""
  {
    if StartsDirectories(pattern) then Directories
    else if StartsDouble(pattern) then Anything
    else if pattern[0] == '*' then NotSlashes
    else if pattern[0] == '?' then NotSlash
    else Literal(pattern[0])
  }

  /** How much of the pattern that piece stands for. */
  function Width(pattern: string): (w: nat)
    requires pattern != ""
    ensures 1 <= w <= |pattern|
  {
    if StartsDirectories(pattern) then 3 else if StartsDouble(pattern) then 2 else 1
  }

  function Compile(pattern: string): seq<Piece>
    decreases |pattern|
  {
    if pattern == "" then [] else [Next(pattern)] + Compile(pattern[Width(pattern)..])
  }

  lemma CompileAt(pattern: string, index: nat, pieces: seq<Piece>)
    requires index < |pattern| && pieces + Compile(pattern[index..]) == Compile(pattern)
    ensures var rest := pattern[index..];
            (pieces + [Next(rest)]) + Compile(pattern[index + Width(rest)..]) == Compile(pattern)
  {
    var rest := pattern[index..];
    DropDrop(pattern, index, index + Width(rest));
    Orders.Reassociate(pieces, [Next(rest)], Compile(pattern[index + Width(rest)..]));
  }

  method GlobRegex(pattern: string) returns (pieces: seq<Piece>)
    ensures pieces == Compile(pattern)
  {
    pieces := [];
    var index := 0;
    assert pattern[0..] == pattern;
    while index < |pattern|
      invariant 0 <= index <= |pattern|
      invariant pieces + Compile(pattern[index..]) == Compile(pattern)
    {
      CompileAt(pattern, index, pieces);
      var rest := pattern[index..];
      if StartsDirectories(rest) {
        pieces := pieces + [Directories];
        index := index + 3;
      } else if StartsDouble(rest) {
        pieces := pieces + [Anything];
        index := index + 2;
      } else if pattern[index] == '*' {
        pieces := pieces + [NotSlashes];
        index := index + 1;
      } else if pattern[index] == '?' {
        pieces := pieces + [NotSlash];
        index := index + 1;
      } else {
        pieces := pieces + [Literal(pattern[index])];
        index := index + 1;
      }
    }
  }

  // The reference: matching segment by segment -------------------------------------

  /** `s.split("/")`. */
  function Segments(s: string): (r: seq<string>)
    ensures r != []
    decreases |s|
  {
    var k := FirstSlash(s);
    if k == |s| then [s] else [s[..k]] + Segments(s[k + 1..])
  }

  /** A segment against a segment pattern: `*` is any run of characters, `?` any one. */
  predicate SegmentMatch(pattern: string, s: string)
    decreases |pattern| + |s|
  {
    if pattern == "" then s == ""
    else if pattern[0] == '*' then SegmentMatch(pattern[1..], s) || (s != "" && SegmentMatch(pattern, s[1..]))
    else s != "" && (pattern[0] == '?' || pattern[0] == s[0]) && SegmentMatch(pattern[1..], s[1..])
  }

  /** A path against a pattern, both as segments: `**` is any number of segments, at least one at the end. */
  predicate SegmentsMatch(pattern: seq<string>, path: seq<string>)
    decreases |pattern| + |path|
  {
    if pattern == [] then path == []
    else if pattern == ["**"] then path != []
    else if pattern[0] == "**" then
      SegmentsMatch(pattern[1..], path) || (path != [] && SegmentsMatch(pattern, path[1..]))
    else path != [] && SegmentMatch(pattern[0], path[0]) && SegmentsMatch(pattern[1..], path[1..])
  }

  ghost predicate HasDouble(s: string) {
    exists i, j :: 0 <= i && j == i + 1 && j < |s| && s[i] == '*' && s[j] == '*'
  }

  /** `**` only ever fills a whole segment. */
  ghost predicate WellFormed(pattern: seq<string>) {
    forall k :: 0 <= k < |pattern| ==> pattern[k] == "**" || !HasDouble(pattern[k])
  }

  // Matching a piece list ------------------------------------------------------------

  lemma MatchFirst(p: Piece, rest: seq<Piece>, s: string, k: nat)
    requires k <= |s| && Accepts(p, s[..k]) && FullMatch(rest, s[k..])
    ensures FullMatch([p] + rest, s)
  {
    assert ([p] + rest)[0] == p && ([p] + rest)[1..] == rest;
    assert Takes(p, rest, s, k);
  }

  lemma MatchTake(p: Piece, rest: seq<Piece>, s: string) returns (k: nat)
    requires FullMatch([p] + rest, s)
    ensures k <= |s| && Accepts(p, s[..k]) && FullMatch(rest, s[k..])
  {
    assert ([p] + rest)[0] == p && ([p] + rest)[1..] == rest;
    k :| Takes(p, rest, s, k);
  }

  /** A one-character piece takes exactly the first character. */
  lemma MatchOne(p: Piece, rest: seq<Piece>, s: string)
    requires p.Literal? || p.NotSlash?
    ensures FullMatch([p] + rest, s) <==> s != "" && Accepts(p, s[..1]) && FullMatch(rest, s[1..])
  {
    if FullMatch([p] + rest, s) {
      var k := MatchTake(p, rest, s);
      assert k == 1;
    }
    if s != "" && Accepts(p, s[..1]) && FullMatch(rest, s[1..]) {
      MatchFirst(p, rest, s, 1);
    }
  }

  lemma MatchNone(p: Piece, rest: seq<Piece>, s: string)
    requires Accepts(p, "") && FullMatch(rest, s)
    ensures FullMatch([p] + rest, s)
  {
    assert s[..0] == "" && s[0..] == s;
    MatchFirst(p, rest, s, 0);
  }

  /** A piece that also accepts a longer start matches the longer string. */
  lemma MatchLonger(p: Piece, rest: seq<Piece>, a: string, t: string, k: nat)
    requires k <= |t| && Accepts(p, a + t[..k]) && FullMatch(rest, t[k..])
    ensures FullMatch([p] + rest, a + t)
  {
    assert (a + t)[..|a| + k] == a + t[..k] && (a + t)[|a| + k..] == t[k..];
    MatchFirst(p, rest, a + t, |a| + k);
  }

  lemma StarLonger(rest: seq<Piece>, s: string)
    requires s != "" && s[0] != '/' && FullMatch([NotSlashes] + rest, s[1..])
    ensures FullMatch([NotSlashes] + rest, s)
  {
    var k := MatchTake(NotSlashes, rest, s[1..]);
    MatchLonger(NotSlashes, rest, [s[0]], s[1..], k);
    assert [s[0]] + s[1..] == s;
  }

  lemma StarShorter(rest: seq<Piece>, s: string)
    requires FullMatch([NotSlashes] + rest, s) && !FullMatch(rest, s)
    ensures s != "" && s[0] != '/' && FullMatch([NotSlashes] + rest, s[1..])
  {
    var k := MatchTake(NotSlashes, rest, s);
    assert k > 0 by {
      assert s[0..] == s;
    }
    assert s[0] == s[..k][0];
    assert s[1..][..k - 1] == s[..k][1..] && s[1..][k - 1..] == s[k..];
    MatchFirst(NotSlashes, rest, s[1..], k - 1);
  }

  /** `[^/]*` takes nothing, or one character other than a slash and then more. */
  lemma MatchStar(rest: seq<Piece>, s: string)
    ensures FullMatch([NotSlashes] + rest, s) <==>
            FullMatch(rest, s) || (s != "" && s[0] != '/' && FullMatch([NotSlashes] + rest, s[1..]))
  {
    if FullMatch(rest, s) {
      MatchNone(NotSlashes, rest, s);
    } else if FullMatch([NotSlashes] + rest, s) {
      StarShorter(rest, s);
    } else if s != "" && s[0] != '/' && FullMatch([NotSlashes] + rest, s[1..]) {
      StarLonger(rest, s);
    }
  }

  lemma DropDrop(s: string, i: nat, k: nat)
    requires i <= k <= |s|
    ensures s[i..][k - i..] == s[k..]
  {
  }

  lemma AcceptsLonger(s: string, d: nat, k: nat)
    requires '\n' !in s && d < |s| && s[d] == '/' && k <= |s| - d - 1 && Accepts(Directories, s[d + 1..][..k])
    ensures Accepts(Directories, s[..d + 1 + k])
  {
    assert s[d + 1..][..k] == s[..d + 1 + k][d + 1..];
    assert k > 0 ==> s[d + 1..][..k][k - 1] == s[..d + 1 + k][d + k];
  }

  lemma DirectoriesLonger(rest: seq<Piece>, s: string, d: nat, k: nat)
    requires '\n' !in s && d < |s| && s[d] == '/' && k <= |s| - d - 1
    requires Accepts(Directories, s[d + 1..][..k]) && FullMatch(rest, s[d + 1..][k..])
    ensures FullMatch([Directories] + rest, s)
  {
    AcceptsLonger(s, d, k);
    DropDrop(s, d + 1, d + 1 + k);
    MatchFirst(Directories, rest, s, d + 1 + k);
  }

  lemma DirectoriesShorter(rest: seq<Piece>, s: string, k: nat)
    requires 0 < k <= |s| && Accepts(Directories, s[..k]) && FullMatch(rest, s[k..])
    ensures FirstSlash(s) < |s| && FullMatch([Directories] + rest, s[FirstSlash(s) + 1..])
  {
    var d := FirstSlash(s);
    DirectoriesDrop(s, k);
    DropDrop(s, d + 1, k);
    MatchFirst(Directories, rest, s[d + 1..], k - d - 1);
  }

  // The optional directories take nothing, or one whole directory and then more.
  lemma MatchDirectories(rest: seq<Piece>, s: string)
    requires '\n' !in s
    ensures var d := FirstSlash(s);
            FullMatch([Directories] + rest, s) <==>
            FullMatch(rest, s) || (d < |s| && FullMatch([Directories] + rest, s[d + 1..]))
  {
    var d := FirstSlash(s);
    if FullMatch(rest, s) {
      MatchNone(Directories, rest, s);
    } else if FullMatch([Directories] + rest, s) {
      DirectoriesSplit(rest, s);
    } else if d < |s| && FullMatch([Directories] + rest, s[d + 1..]) {
      DirectoriesJoin(rest, s, d);
    }
  }

  lemma DirectoriesSplit(rest: seq<Piece>, s: string)
    requires FullMatch([Directories] + rest, s) && !FullMatch(rest, s)
    ensures FirstSlash(s) < |s| && FullMatch([Directories] + rest, s[FirstSlash(s) + 1..])
  {
    var k := MatchTake(Directories, rest, s);
    DropDrop(s, 0, 0);
    DirectoriesShorter(rest, s, k);
  }

  lemma DirectoriesJoin(rest: seq<Piece>, s: string, d: nat)
    requires '\n' !in s && d < |s| && s[d] == '/' && FullMatch([Directories] + rest, s[d + 1..])
    ensures FullMatch([Directories] + rest, s)
  {
    var k := MatchTake(Directories, rest, s[d + 1..]);
    DirectoriesLonger(rest, s, d, k);
  }

  lemma DirectoriesDrop(s: string, k: nat)
    requires 0 < k <= |s| && Accepts(Directories, s[..k])
    ensures FirstSlash(s) < k && Accepts(Directories, s[FirstSlash(s) + 1..][..k - FirstSlash(s) - 1])
  {
    var d := FirstSlash(s);
    assert s[..k][k - 1] == '/';
    assert forall i :: 0 <= i < d ==> s[i] == s[..d][i];
    assert s[d + 1..][..k - d - 1] == s[..k][d + 1..];
  }

  // Segments in the middle --------------------------------------------------------------

  lemma HasDoubleTail(pattern: string)
    requires pattern != "" && !HasDouble(pattern)
    ensures !HasDouble(pattern[1..]) && !StartsDouble(pattern)
  {
    var tail := pattern[1..];
    forall i, j | 0 <= i && j == i + 1 && j < |tail|
      ensures !(tail[i] == '*' && tail[j] == '*')
    {
      assert tail[i] == pattern[i + 1] && tail[j] == pattern[j + 1];
    }
  }

  lemma SegmentStart(seg: string, more: string)
    requires seg != "" && '/' !in seg && !HasDouble(seg) && (more == "" || more[0] == '/')
    ensures Next(seg + more) == Next(seg) && Width(seg + more) == Width(seg) == 1
    ensures (seg + more)[1..] == seg[1..] + more
  {
    HasDoubleTail(seg);
    var whole := seg + more;
    assert whole[0] == seg[0];
    assert |seg| > 1 ==> whole[1] == seg[1];
    assert |seg| == 1 && |whole| > 1 ==> whole[1] == more[0];
  }

  /** Followed by a slash or nothing, a plain segment compiles to its own pieces first. */
  lemma {:induction false} CompileSegment(seg: string, more: string)
    requires '/' !in seg && !HasDouble(seg) && (more == "" || more[0] == '/')
    ensures Compile(seg + more) == Compile(seg) + Compile(more)
    decreases |seg|
  {
    if seg == "" {
      assert seg + more == more;
    } else {
      HasDoubleTail(seg);
      SegmentStart(seg, more);
      CompileSegment(seg[1..], more);
      var a, b := Compile(seg[1..]), Compile(more);
      assert [Next(seg)] + (a + b) == ([Next(seg)] + a) + b;
    }
  }

  lemma FirstSlashStep(s: string)
    requires s != "" && s[0] != '/'
    ensures FirstSlash(s) == FirstSlash(s[1..]) + 1
    ensures s[..FirstSlash(s)][1..] == s[1..][..FirstSlash(s[1..])]
    ensures s[FirstSlash(s)..] == s[1..][FirstSlash(s[1..])..]
  {
  }

  lemma NothingBeforeSlash(s: string)
    requires s == "" || s[0] == '/'
    ensures FirstSlash(s) == 0 && s[..FirstSlash(s)] == ""
  {
  }

  /** A plain segment compiles character by character. */
  lemma CompileHead(seg: string, tail: seq<Piece>)
    requires seg != "" && '/' !in seg && !StartsDouble(seg)
    ensures Compile(seg) + tail == [Next(seg)] + (Compile(seg[1..]) + tail)
    ensures seg[0] == '*' ==> Next(seg) == NotSlashes
    ensures seg[0] != '*' ==> Next(seg) == if seg[0] == '?' then NotSlash else Literal(seg[0])
  {
  }

  ghost predicate EndsSegment(tail: seq<Piece>) {
    tail == [] || tail[0] == Literal('/')
  }

  /** A plain segment before a slash or the end matches exactly what stands before the first slash. */
  lemma {:induction false} SegmentThen(seg: string, tail: seq<Piece>, s: string)
    requires '/' !in seg && !HasDouble(seg) && EndsSegment(tail)
    ensures var d := FirstSlash(s);
            FullMatch(Compile(seg) + tail, s) <==> SegmentMatch(seg, s[..d]) && FullMatch(tail, s[d..])
    decreases |seg| + |s|
  {
    var d := FirstSlash(s);
    if seg == "" {
      assert Compile(seg) + tail == tail;
      if SegmentMatch(seg, s[..d]) {
        assert s[d..] == s;
      }
    } else {
      if seg[0] == '*' {
        StarThen(seg, tail, s);
      } else {
        OneThen(seg, tail, s);
      }
    }
  }

  lemma StarUnfolds(seg: string, s: string)
    requires seg != "" && seg[0] == '*'
    ensures SegmentMatch(seg, s) <==> SegmentMatch(seg[1..], s) || (s != "" && SegmentMatch(seg, s[1..]))
  {
  }

  lemma {:induction false} StarThen(seg: string, tail: seq<Piece>, s: string)
    requires '/' !in seg && !HasDouble(seg) && EndsSegment(tail)
    requires seg != "" && seg[0] == '*'
    ensures var d := FirstSlash(s);
            FullMatch(Compile(seg) + tail, s) <==> SegmentMatch(seg, s[..d]) && FullMatch(tail, s[d..])
    decreases |seg| + |s|, 0
  {
    HasDoubleTail(seg);
    var inner := Compile(seg[1..]) + tail;
    CompileHead(seg, tail);
    MatchStar(inner, s);
    SegmentThen(seg[1..], tail, s);
    StarUnfolds(seg, s[..FirstSlash(s)]);
    if s != "" && s[0] != '/' {
      SegmentThen(seg, tail, s[1..]);
      FirstSlashStep(s);
    } else {
      NothingBeforeSlash(s);
    }
  }

  lemma {:induction false} OneThen(seg: string, tail: seq<Piece>, s: string)
    requires '/' !in seg && !HasDouble(seg) && EndsSegment(tail)
    requires seg != "" && seg[0] != '*'
    ensures var d := FirstSlash(s);
            FullMatch(Compile(seg) + tail, s) <==> SegmentMatch(seg, s[..d]) && FullMatch(tail, s[d..])
    decreases |seg| + |s|, 0
  {
    HasDoubleTail(seg);
    var inner, first := Compile(seg[1..]) + tail, Next(seg);
    CompileHead(seg, tail);
    MatchOne(first, inner, s);
    if s != "" && s[0] != '/' {
      SegmentThen(seg[1..], tail, s[1..]);
      FirstSlashStep(s);
      assert s[..1] == [s[0]];
      assert s[..FirstSlash(s)][0] == s[0];
    }
  }

  // Whole patterns ---------------------------------------------------------------------------

  lemma WellFormedTail(first: string, rest: seq<string>)
    requires WellFormed([first] + rest)
    ensures WellFormed(rest)
  {
    forall j | 0 <= j < |rest|
      ensures rest[j] == "**" || !HasDouble(rest[j])
    {
      assert rest[j] == ([first] + rest)[j + 1];
    }
  }

  lemma SegmentsStep(s: string)
    requires FirstSlash(s) < |s|
    ensures Segments(s) == [s[..FirstSlash(s)]] + Segments(s[FirstSlash(s) + 1..])
  {
  }

  lemma SegmentsOfTail(pattern: string)
    requires FirstSlash(pattern) < |pattern| && WellFormed(Segments(pattern))
    ensures WellFormed(Segments(pattern[FirstSlash(pattern) + 1..]))
  {
    var k := FirstSlash(pattern);
    SegmentsStep(pattern);
    WellFormedTail(pattern[..k], Segments(pattern[k + 1..]));
  }

  ghost predicate Agrees(pattern: string, path: string) {
    FullMatch(Compile(pattern), path) <==> SegmentsMatch(Segments(pattern), Segments(path))
  }

  lemma AnythingMatches(path: string)
    requires '\n' !in path
    ensures FullMatch(Compile("**"), path)
  {
    assert "**"[2..] == "";
    assert Compile("**") == [Anything] + [];
    assert path[..|path|] == path && path[|path|..] == "";
    MatchFirst(Anything, [], path, |path|);
  }

  lemma LastSegment(pattern: string, path: string)
    requires '/' !in pattern && !HasDouble(pattern)
    ensures FullMatch(Compile(pattern), path) <==> FirstSlash(path) == |path| && SegmentMatch(pattern, path)
  {
    var d := FirstSlash(path);
    SegmentThen(pattern, [], path);
    assert Compile(pattern) + [] == Compile(pattern);
    if d == |path| {
      assert path[..d] == path;
    }
  }

  lemma AgreesLast(pattern: string, path: string)
    requires FirstSlash(pattern) == |pattern| && WellFormed(Segments(pattern)) && '\n' !in path
    ensures Agrees(pattern, path)
  {
    assert pattern[..|pattern|] == pattern;
    assert Segments(pattern) == [pattern];
    if pattern == "**" {
      AnythingMatches(path);
    } else {
      assert !HasDouble(Segments(pattern)[0]);
      LastSegment(pattern, path);
      PlainMatch(pattern, [], Segments(path));
    }
  }

  lemma PlainMatch(seg: string, pattern: seq<string>, path: seq<string>)
    requires seg != "**"
    ensures SegmentsMatch([seg] + pattern, path) <==>
            path != [] && SegmentMatch(seg, path[0]) && SegmentsMatch(pattern, path[1..])
  {
    assert ([seg] + pattern)[1..] == pattern;
  }

  lemma DoubleMatch(pattern: seq<string>, path: seq<string>)
    requires pattern != []
    ensures SegmentsMatch(["**"] + pattern, path) <==>
            SegmentsMatch(pattern, path) || (path != [] && SegmentsMatch(["**"] + pattern, path[1..]))
  {
    var whole := ["**"] + pattern;
    assert whole[1..] == pattern;
    assert |whole| > 1;
  }

  /** A pattern has at least one segment, so no pattern matches no segments. */
  lemma {:induction false} NoSegments(pattern: seq<string>)
    requires pattern != []
    ensures !SegmentsMatch(pattern, [])
  {
    if |pattern| > 1 {
      NoSegments(pattern[1..]);
    }
  }

  lemma SplitAt(s: string, k: nat)
    requires k < |s|
    ensures s == s[..k] + s[k..] && s[k..][0] == s[k] && s[k..][1..] == s[k + 1..]
  {
  }

  lemma CompileSlash(s: string)
    requires s != "" && s[0] == '/'
    ensures Compile(s) == [Literal('/')] + Compile(s[1..])
  {
  }

  lemma CompilePlain(pattern: string)
    requires FirstSlash(pattern) < |pattern| && !HasDouble(pattern[..FirstSlash(pattern)])
    ensures var k := FirstSlash(pattern);
            Compile(pattern) == Compile(pattern[..k]) + ([Literal('/')] + Compile(pattern[k + 1..]))
  {
    var k := FirstSlash(pattern);
    SplitAt(pattern, k);
    CompileSegment(pattern[..k], pattern[k..]);
    CompileSlash(pattern[k..]);
  }

  lemma {:induction false} AgreesPlain(pattern: string, path: string)
    requires FirstSlash(pattern) < |pattern| && WellFormed(Segments(pattern)) && '\n' !in path
    requires pattern[..FirstSlash(pattern)] != "**"
    ensures Agrees(pattern, path)
    decreases |pattern| + |path|, 0
  {
    var k, d := FirstSlash(pattern), FirstSlash(path);
    var seg, rest := pattern[..k], pattern[k + 1..];
    assert Segments(pattern) == [seg] + Segments(rest);
    assert Segments(pattern)[0] == seg;
    CompilePlain(pattern);
    SegmentThen(seg, [Literal('/')] + Compile(rest), path);
    MatchOne(Literal('/'), Compile(rest), path[d..]);
    PlainMatch(seg, Segments(rest), Segments(path));
    if d < |path| {
      assert path[d..][1..] == path[d + 1..] && path[d..][..1] == "/";
      assert Segments(path)[0] == path[..d] && Segments(path)[1..] == Segments(path[d + 1..]);
      SegmentsOfTail(pattern);
      GlobAgrees(rest, path[d + 1..]);
    } else {
      NoSegments(Segments(rest));
      assert Segments(path)[1..] == [];
    }
  }

  lemma {:induction false} AgreesDouble(pattern: string, path: string)
    requires FirstSlash(pattern) < |pattern| && WellFormed(Segments(pattern)) && '\n' !in path
    requires pattern[..FirstSlash(pattern)] == "**"
    ensures Agrees(pattern, path)
    decreases |pattern| + |path|, 0
  {
    var d, rest := FirstSlash(path), pattern[3..];
    assert pattern[0] == pattern[..2][0] && pattern[1] == pattern[..2][1];
    assert StartsDirectories(pattern);
    assert Segments(pattern) == ["**"] + Segments(rest);
    MatchDirectories(Compile(rest), path);
    DoubleMatch(Segments(rest), Segments(path));
    SegmentsOfTail(pattern);
    GlobAgrees(rest, path);
    if d < |path| {
      assert Segments(path)[1..] == Segments(path[d + 1..]);
      GlobAgrees(pattern, path[d + 1..]);
    } else {
      NoSegments(Segments(pattern));
      assert Segments(path)[1..] == [];
    }
  }

  /** On every path without line breaks the compiled expression means what the segments say. */
  lemma {:induction false} GlobAgrees(pattern: string, path: string)
    requires WellFormed(Segments(pattern)) && '\n' !in path
    ensures Agrees(pattern, path)
    decreases |pattern| + |path|, 1
  {
    var k := FirstSlash(pattern);
    if k == |pattern| {
      AgreesLast(pattern, path);
    } else if pattern[..k] == "**" {
      AgreesDouble(pattern, path);
    } else {
      AgreesPlain(pattern, path);
    }
  }

  /** Before further segments, `**` stands for any number of whole directories, none included. */
  lemma {:induction false} DoubleIsAnyNumber(pattern: seq<string>, path: seq<string>)
    requires pattern != []
    ensures SegmentsMatch(["**"] + pattern, path) <==>
            exists k :: 0 <= k <= |path| && SegmentsMatch(pattern, path[k..])
    decreases |path|
  {
    DoubleMatch(pattern, path);
    assert path[0..] == path;
    if path != [] {
      var tail := path[1..];
      DoubleIsAnyNumber(pattern, tail);
      if k :| 0 <= k <= |tail| && SegmentsMatch(pattern, tail[k..]) {
        assert tail[k..] == path[k + 1..];
      }
      if k :| 0 < k <= |path| && SegmentsMatch(pattern, path[k..]) {
        assert path[k..] == tail[k - 1..];
      }
    }
  }

  lemma InsideCompiles()
    ensures Compile("a**/b") == [Literal('a')] + ([Directories] + ([Literal('b')] + []))
  {
    assert "a**/b"[1..] == "**/b" && "**/b"[3..] == "b" && "b"[1..] == "";
    assert Compile("b") == [Literal('b')] + [];
    assert Compile("**/b") == [Directories] + Compile("b");
  }

  lemma InsideMatches()
    ensures FullMatch(Compile("a**/b"), "ab")
  {
    InsideCompiles();
    var b, path := [Literal('b')] + [], "ab";
    assert path[1..] == "b" && path[1..][..1] == "b" && path[1..][1..] == "" && path[..1] == "a";
    MatchOne(Literal('b'), [], path[1..]);
    MatchNone(Directories, b, path[1..]);
    MatchOne(Literal('a'), [Directories] + b, path);
  }

  lemma InsideDiffers()
    ensures !SegmentsMatch(Segments("a**/b"), Segments("ab"))
  {
    var pattern, path := Segments("a**/b"), Segments("ab");
    assert FirstSlash("ab") == 2 by {
      assert "ab"[1..] == "b" && FirstSlash("b") == 1;
    }
    assert "a**/b"[1..] == "**/b" && "**/b"[1..] == "*/b" && "*/b"[1..] == "/b";
    assert FirstSlash("*/b") == 1 && FirstSlash("**/b") == 2;
    assert pattern == ["a**"] + Segments("b") by {
      assert "a**/b"[..3] == "a**" && "a**/b"[4..] == "b";
    }
    PlainMatch("a**", Segments("b"), path);
    NoSegments(Segments("b"));
    assert path == ["ab"] && path[1..] == [];
  }

  /** Inside a segment `**` is not a segment matcher: this glob lets the slash it names disappear. */
  lemma DoubleInsideSegment()
    ensures !Agrees("a**/b", "ab")
  {
    InsideMatches();
    InsideDiffers();
  }
}
