/**
 The public-release scanner: a file is cut at line breaks, the shards are
 scanned one by one, and the report must be that of one scan of each whole
 file.

 A pattern is an arbitrary line-local matcher: what it finds at a position
 depends on the line around that position only, and a match is nonempty and
 stays on its line. That is the premise the scanner states about its patterns.
 */
module PublicScan {
  import opened Orders
  import opened Wrappers

  /** A match: its length, and the value reported for it (the named group, folded if the check folds). */
  datatype Match = Match(len: nat, value: string)

  type Matcher = (string, nat) -> Option<Match>

  datatype Check = Check(title: string, matchAt: Matcher, allowed: set<string>)

  datatype Hit = Hit(start: nat, value: string)

  datatype Violation = Violation(path: string, line: nat, title: string, value: string)

  // Lines --------------------------------------------------------------------

  /** Where the line around position `i` begins. */
  function LineStart(text: string, i: nat): (r: nat)
    requires i <= |text|
    ensures r <= i
  {
    if i == 0 || text[i - 1] == '\n' then i else LineStart(text, i - 1)
  }

  /** Where the line around position `i` ends, its line break excluded. */
  function LineEnd(text: string, i: nat): (r: nat)
    requires i <= |text|
    ensures i <= r <= |text|
    decreases |text| - i
  {
    if i == |text| || text[i] == '\n' then i else LineEnd(text, i + 1)
  }

  ghost predicate MatchesOnLine(m: Matcher, text: string, i: nat)
    requires i < |text|
  {
    var a, b := LineStart(text, i), LineEnd(text, i);
    && m(text, i) == m(text[a..b], i - a)
    && (m(text, i).Some? ==> 0 < m(text, i).value.len <= b - i)
  }

  ghost predicate LineLocal(m: Matcher) {
    forall text: string, i: nat {:trigger MatchesOnLine(m, text, i)} :: i < |text| ==> MatchesOnLine(m, text, i)
  }

  ghost predicate AllLineLocal(checks: seq<Check>) {
    forall k :: 0 <= k < |checks| ==> LineLocal(checks[k].matchAt)
  }

  /** A position where a text may be cut: the start, or just after a line break. */
  predicate IsCut(text: string, c: nat) {
    c <= |text| && (c == 0 || text[c - 1] == '\n')
  }

  lemma {:induction false} LineStartLeft(text: string, c: nat, i: nat)
    requires i <= c <= |text|
    ensures LineStart(text, i) == LineStart(text[..c], i)
  {
    if i > 0 && text[i - 1] != '\n' {
      LineStartLeft(text, c, i - 1);
    }
  }

  lemma {:induction false} LineEndLeft(text: string, c: nat, i: nat)
    requires IsCut(text, c) && i < c
    ensures LineEnd(text, i) == LineEnd(text[..c], i) < c
    decreases c - i
  {
    if text[i] != '\n' {
      LineEndLeft(text, c, i + 1);
    }
  }

  lemma {:induction false} LineStartRight(text: string, c: nat, i: nat)
    requires IsCut(text, c) && c <= i <= |text|
    ensures LineStart(text, i) == c + LineStart(text[c..], i - c)
  {
    if i > c && text[i - 1] != '\n' {
      LineStartRight(text, c, i - 1);
    }
  }

  lemma {:induction false} LineEndRight(text: string, c: nat, i: nat)
    requires c <= i <= |text|
    ensures LineEnd(text, i) == c + LineEnd(text[c..], i - c)
    decreases |text| - i
  {
    if i < |text| && text[i] != '\n' {
      LineEndRight(text, c, i + 1);
    }
  }

  /** What a line-local matcher sees on one side of a cut does not depend on the other side. */
  lemma MatchLeft(m: Matcher, text: string, c: nat, i: nat)
    requires LineLocal(m) && IsCut(text, c) && i < c
    ensures m(text, i) == m(text[..c], i)
    ensures m(text, i).Some? ==> 0 < m(text, i).value.len && i + m(text, i).value.len < c
  {
    LineStartLeft(text, c, i);
    LineEndLeft(text, c, i);
    var a, b := LineStart(text, i), LineEnd(text, i);
    assert text[..c][a..b] == text[a..b];
    assert MatchesOnLine(m, text, i) && MatchesOnLine(m, text[..c], i);
  }

  lemma LineRight(text: string, c: nat, i: nat)
    requires IsCut(text, c) && c <= i <= |text|
    ensures var a, b := LineStart(text, i), LineEnd(text, i);
      && LineStart(text[c..], i - c) == a - c && LineEnd(text[c..], i - c) == b - c
      && text[c..][a - c..b - c] == text[a..b]
  {
    LineStartRight(text, c, i);
    LineEndRight(text, c, i);
  }

  lemma MatchRight(m: Matcher, text: string, c: nat, i: nat)
    requires LineLocal(m) && IsCut(text, c) && c <= i < |text|
    ensures m(text, i) == m(text[c..], i - c)
  {
    LineRight(text, c, i);
    assert MatchesOnLine(m, text, i) && MatchesOnLine(m, text[c..], i - c);
  }

  // Searching ------------------------------------------------------------------

  /** `finditer`: leftmost matches from `pos` on, none overlapping the one before. */
  function FindAll(m: Matcher, text: string, pos: nat): seq<Hit>
    decreases |text| - pos
  {
    if pos >= |text| then []
    else
      match m(text, pos)
      case None => FindAll(m, text, pos + 1)
      case Some(found) =>
        [Hit(pos, found.value)] + FindAll(m, text, pos + if found.len == 0 then 1 else found.len)
  }

  function Shifted(hits: seq<Hit>, n: nat): seq<Hit> {
    seq(|hits|, k requires 0 <= k < |hits| => Hit(hits[k].start + n, hits[k].value))
  }

  lemma ShiftedCons(h: Hit, hits: seq<Hit>, n: nat)
    ensures Shifted([h] + hits, n) == [Hit(h.start + n, h.value)] + Shifted(hits, n)
  {
  }

  lemma ShiftedStep(h: Hit, part: seq<Hit>, rest: seq<Hit>, whole: seq<Hit>, more: seq<Hit>, n: nat)
    requires part == [h] + rest && whole == [Hit(h.start + n, h.value)] + more && more == Shifted(rest, n)
    ensures whole == Shifted(part, n)
  {
    ShiftedCons(h, rest, n);
  }

  lemma {:induction false} FindAllInside(m: Matcher, text: string, pos: nat)
    ensures forall k :: 0 <= k < |FindAll(m, text, pos)| ==> FindAll(m, text, pos)[k].start < |text|
    decreases |text| - pos
  {
    if pos < |text| {
      match m(text, pos)
      case None => FindAllInside(m, text, pos + 1);
      case Some(found) => FindAllInside(m, text, pos + if found.len == 0 then 1 else found.len);
    }
  }

  /** How far the search moves on at `pos`. */
  function Advance(m: Matcher, text: string, pos: nat): (n: nat)
    ensures n > 0
  {
    var found := m(text, pos);
    if found.None? || found.value.len == 0 then 1 else found.value.len
  }

  /** What the search does at one position: the match there, if any, and where it goes on. */
  lemma FindStep(m: Matcher, text: string, pos: nat)
    requires pos < |text|
    ensures var found, rest := m(text, pos), FindAll(m, text, pos + Advance(m, text, pos));
      FindAll(m, text, pos) == if found.None? then rest else [Hit(pos, found.value.value)] + rest
  {
  }

  /** From a cut on, searching the text is searching its tail. */
  lemma {:induction false} FindRight(m: Matcher, text: string, c: nat, pos: nat)
    requires LineLocal(m) && IsCut(text, c) && c <= pos
    ensures FindAll(m, text, pos) == Shifted(FindAll(m, text[c..], pos - c), c)
    decreases |text| - pos
  {
    if pos < |text| {
      MatchRight(m, text, c, pos);
      var next := pos + Advance(m, text, pos);
      FindRight(m, text, c, next);
      FindStep(m, text, pos);
      FindStep(m, text[c..], pos - c);
      if m(text, pos).Some? {
        ShiftedStep(Hit(pos - c, m(text, pos).value.value), FindAll(m, text[c..], pos - c),
          FindAll(m, text[c..], next - c), FindAll(m, text, pos), FindAll(m, text, next), c);
      }
    }
  }

  /** Up to a cut, searching the text is searching its start and then going on from the cut. */
  lemma {:induction false} FindLeft(m: Matcher, text: string, c: nat, pos: nat)
    requires LineLocal(m) && IsCut(text, c) && pos <= c
    ensures FindAll(m, text, pos) == FindAll(m, text[..c], pos) + FindAll(m, text, c)
    decreases c - pos
  {
    if pos < c {
      MatchLeft(m, text, c, pos);
      FindStep(m, text, pos);
      FindStep(m, text[..c], pos);
      var next := pos + Advance(m, text, pos);
      FindLeft(m, text, c, next);
      if m(text, pos).Some? {
        PrependBoth([Hit(pos, m(text, pos).value.value)], FindAll(m, text, pos), FindAll(m, text[..c], pos),
          FindAll(m, text, next), FindAll(m, text[..c], next), FindAll(m, text, c));
      }
    }
  }

  /** Leftmost non-overlapping search decomposes at a cut. */
  lemma FindSplits(m: Matcher, text: string, c: nat, pos: nat)
    requires LineLocal(m) && IsCut(text, c) && pos <= c
    ensures FindAll(m, text, pos) == FindAll(m, text[..c], pos) + Shifted(FindAll(m, text[c..], 0), c)
  {
    FindLeft(m, text, c, pos);
    FindRight(m, text, c, c);
  }

  // Line numbers ------------------------------------------------------------------

  /** `text.count("\n")`. */
  function Newlines(text: string): nat {
    if text == "" then 0 else Newlines(text[..|text| - 1]) + if text[|text| - 1] == '\n' then 1 else 0
  }

  lemma {:induction false} NewlinesJoin(a: string, b: string)
    ensures Newlines(a + b) == Newlines(a) + Newlines(b)
  {
    if b == "" {
      assert a + b == a;
    } else {
      NewlinesJoin(a, b[..|b| - 1]);
      assert (a + b)[..|a + b| - 1] == a + b[..|b| - 1];
    }
  }

  /** Where lines start: 0, and just after each line break. */
  function Starts(text: string): (r: seq<nat>)
    ensures |r| == Newlines(text) + 1
    ensures forall k :: 0 <= k < |r| ==> r[k] <= |text|
  {
    if text == "" then [0]
    else
      Starts(text[..|text| - 1]) + if text[|text| - 1] == '\n' then [|text|] else []
  }

  /** `bisect_right` on a sorted list: how many entries are at most `x`. */
  function BisectRight(a: seq<nat>, x: nat): (r: nat)
    ensures r <= |a|
  {
    if a == [] then 0
    else if a[|a| - 1] <= x then |a|
    else BisectRight(a[..|a| - 1], x)
  }

  /** Bisecting the line starts counts the line breaks before a position, plus one. */
  lemma {:induction false} BisectCounts(text: string, i: nat)
    requires i <= |text|
    ensures BisectRight(Starts(text), i) == Newlines(text[..i]) + 1
  {
    if i == |text| {
      assert text[..i] == text;
      assert Starts(text)[|Starts(text)| - 1] <= |text|;
    } else {
      var init := text[..|text| - 1];
      BisectCounts(init, i);
      assert init[..i] == text[..i];
      if text[|text| - 1] == '\n' {
        assert Starts(text)[..|Starts(text)| - 1] == Starts(init);
      } else {
        assert Starts(text) == Starts(init);
      }
    }
  }

  // Violations -----------------------------------------------------------------------

  /** The violations behind a list of matches, in order. */
  function Judge(path: string, text: string, check: Check, hits: seq<Hit>, offset: nat): seq<Violation> {
    Flat(JudgeWith(path, text, check, offset), hits, |hits|)
  }

  function JudgeWith(path: string, text: string, check: Check, offset: nat): Hit -> seq<Violation> {
    (h: Hit) => JudgeOne(path, text, check, h, offset)
  }

  function JudgeOne(path: string, text: string, check: Check, h: Hit, offset: nat): seq<Violation> {
    if h.value in check.allowed || h.start > |text| then []
    else [Violation(path, offset + Newlines(text[..h.start]) + 1, check.title, h.value)]
  }

  function CheckViolations(path: string, text: string, check: Check, offset: nat): seq<Violation> {
    FindAllInside(check.matchAt, text, 0);
    Judge(path, text, check, FindAll(check.matchAt, text, 0), offset)
  }

  lemma JudgeLeft(path: string, text: string, check: Check, c: nat, hits: seq<Hit>, offset: nat)
    requires c <= |text| && forall k :: 0 <= k < |hits| ==> hits[k].start <= c
    ensures Judge(path, text, check, hits, offset) == Judge(path, text[..c], check, hits, offset)
  {
    var whole, part := JudgeWith(path, text, check, offset), JudgeWith(path, text[..c], check, offset);
    forall k | 0 <= k < |hits|
      ensures whole(hits[k]) == part(hits[k])
    {
      assert text[..c][..hits[k].start] == text[..hits[k].start];
    }
    FlatSame(whole, part, hits, hits, |hits|);
  }

  lemma JudgeOneRight(path: string, text: string, check: Check, c: nat, h: Hit, offset: nat)
    requires c + h.start <= |text|
    ensures JudgeOne(path, text, check, Hit(h.start + c, h.value), offset) ==
            JudgeOne(path, text[c..], check, h, offset + Newlines(text[..c]))
  {
    assert text[..c] + text[c..][..h.start] == text[..c + h.start];
    NewlinesJoin(text[..c], text[c..][..h.start]);
  }

  lemma JudgeRight(path: string, text: string, check: Check, c: nat, hits: seq<Hit>, offset: nat)
    requires c <= |text| && forall k :: 0 <= k < |hits| ==> hits[k].start <= |text| - c
    ensures Judge(path, text, check, Shifted(hits, c), offset) ==
            Judge(path, text[c..], check, hits, offset + Newlines(text[..c]))
  {
    var whole := JudgeWith(path, text, check, offset);
    var part := JudgeWith(path, text[c..], check, offset + Newlines(text[..c]));
    forall k | 0 <= k < |hits|
      ensures whole(Shifted(hits, c)[k]) == part(hits[k])
    {
      JudgeOneRight(path, text, check, c, hits[k], offset);
    }
    FlatSame(whole, part, Shifted(hits, c), hits, |hits|);
  }

  /** Judging the hits on both sides of a cut is judging them where they stand in the whole. */
  lemma JudgeSplits(path: string, text: string, check: Check, c: nat, left: seq<Hit>, right: seq<Hit>, offset: nat)
    requires c <= |text| && forall k :: 0 <= k < |left| ==> left[k].start <= c
    requires forall k :: 0 <= k < |right| ==> right[k].start <= |text| - c
    ensures Judge(path, text, check, left + Shifted(right, c), offset) ==
      Judge(path, text[..c], check, left, offset) + Judge(path, text[c..], check, right, offset + Newlines(text[..c]))
  {
    FlatJoin(JudgeWith(path, text, check, offset), left, Shifted(right, c), |right|);
    JudgeLeft(path, text, check, c, left, offset);
    JudgeRight(path, text, check, c, right, offset);
  }

  /** One check on a cut text: the two sides report what the whole reports, line numbers included. */
  lemma CheckSplits(path: string, text: string, check: Check, c: nat, offset: nat)
    requires LineLocal(check.matchAt) && IsCut(text, c)
    ensures CheckViolations(path, text, check, offset) ==
            CheckViolations(path, text[..c], check, offset) +
            CheckViolations(path, text[c..], check, offset + Newlines(text[..c]))
  {
    var m := check.matchAt;
    var left, right := FindAll(m, text[..c], 0), FindAll(m, text[c..], 0);
    FindSplits(m, text, c, 0);
    FindAllInside(m, text[..c], 0);
    FindAllInside(m, text[c..], 0);
    JudgeSplits(path, text, check, c, left, right, offset);
  }

  /** A scan of a text with `n` lines before it. */
  type Scan = (string, nat) -> seq<Violation>

  ghost predicate SplitsAt(scan: Scan, text: string, c: nat, n: nat)
    requires c <= |text|
  {
    multiset(scan(text, n)) ==
    multiset(scan(text[..c], n)) + multiset(scan(text[c..], n + Newlines(text[..c])))
  }

  /** A scan that reports nothing in an empty text and whose report splits, as a multiset, at every cut. */
  ghost predicate Additive(scan: Scan) {
    && (forall n :: scan("", n) == [])
    && (forall text, c, n {:trigger SplitsAt(scan, text, c, n)} :: IsCut(text, c) ==> SplitsAt(scan, text, c, n))
  }

  function NoScan(): Scan {
    (text: string, n: nat) => []
  }

  function CheckScan(path: string, check: Check): Scan {
    (text: string, n: nat) => CheckViolations(path, text, check, n)
  }

  /** One scan, then another. */
  function Then(a: Scan, b: Scan): Scan {
    (text: string, n: nat) => a(text, n) + b(text, n)
  }

  /** The scan of a file with all its checks, in their order. */
  function ScanWith(path: string, checks: seq<Check>): Scan {
    if checks == [] then NoScan()
    else Then(ScanWith(path, checks[..|checks| - 1]), CheckScan(path, checks[|checks| - 1]))
  }

  lemma CheckScanSplits(path: string, check: Check, text: string, c: nat, n: nat)
    requires LineLocal(check.matchAt) && IsCut(text, c)
    ensures var scan := CheckScan(path, check);
            scan(text, n) == scan(text[..c], n) + scan(text[c..], n + Newlines(text[..c]))
  {
    CheckSplits(path, text, check, c, n);
  }

  lemma ExactlySplits(scan: Scan, text: string, c: nat, n: nat)
    requires c <= |text|
    requires scan(text, n) == scan(text[..c], n) + scan(text[c..], n + Newlines(text[..c]))
    ensures SplitsAt(scan, text, c, n)
  {
  }

  lemma CheckScanAdditive(path: string, check: Check)
    requires LineLocal(check.matchAt)
    ensures Additive(CheckScan(path, check))
  {
    var scan := CheckScan(path, check);
    forall text, c: nat, n: nat | IsCut(text, c)
      ensures SplitsAt(scan, text, c, n)
    {
      CheckScanSplits(path, check, text, c, n);
      ExactlySplits(scan, text, c, n);
    }
  }

  lemma ThenAdditive(a: Scan, b: Scan)
    requires Additive(a) && Additive(b)
    ensures Additive(Then(a, b))
  {
    forall text, c: nat, n: nat | IsCut(text, c)
      ensures SplitsAt(Then(a, b), text, c, n)
    {
      assert SplitsAt(a, text, c, n) && SplitsAt(b, text, c, n);
    }
  }

  /** Line-local checks, however many: the report of a text splits at every cut. */
  lemma {:induction false} ScanWithAdditive(path: string, checks: seq<Check>)
    requires AllLineLocal(checks)
    ensures Additive(ScanWith(path, checks))
  {
    if checks != [] {
      ScanWithAdditive(path, checks[..|checks| - 1]);
      CheckScanAdditive(path, checks[|checks| - 1]);
      ThenAdditive(ScanWith(path, checks[..|checks| - 1]), CheckScan(path, checks[|checks| - 1]));
    }
  }

  // What is reported -------------------------------------------------------------------------

  /** A match counts unless it starts inside an earlier one that counts. */
  ghost predicate Chosen(m: Matcher, text: string, i: nat) {
    && i < |text| && m(text, i).Some?
    && (forall j: nat :: j < i && m(text, j).Some? && Chosen(m, text, j) ==> j + m(text, j).value.len <= i)
  }

  /** Matches that do not overlap, such that every other match starts inside one of them. */
  ghost predicate Choice(m: Matcher, text: string, chosen: set<nat>) {
    && (forall i :: i in chosen ==> i < |text| && m(text, i).Some?)
    && (forall i, j :: i in chosen && j in chosen && i < j ==> i + m(text, i).value.len <= j)
    && (forall i: nat :: i < |text| && m(text, i).Some? && i !in chosen ==>
          exists j :: j in chosen && j < i < j + m(text, j).value.len)
  }

  /** The matches that count are the one choice there is: the leftmost. */
  lemma ChosenIsChoice(m: Matcher, text: string, chosen: set<nat>)
    ensures Choice(m, text, chosen) <==> chosen == set i: nat | i < |text| && Chosen(m, text, i)
  {
    if Choice(m, text, chosen) {
      forall i: nat | i < |text|
        ensures i in chosen <==> Chosen(m, text, i)
      {
        ChoiceAt(m, text, chosen, i);
      }
    }
  }

  lemma {:induction false} ChoiceAt(m: Matcher, text: string, chosen: set<nat>, i: nat)
    requires Choice(m, text, chosen) && i < |text|
    ensures i in chosen <==> Chosen(m, text, i)
  {
    forall j: nat | j < i
      ensures j in chosen <==> Chosen(m, text, j)
    {
      ChoiceAt(m, text, chosen, j);
    }
  }

  ghost function Breaks(text: string, i: nat): set<nat> {
    set j: nat | j < i && j < |text| && text[j] == '\n'
  }

  /** A match is reported unless its value is allowed, with its title, its value and the line it is on. */
  ghost predicate Reports(check: Check, path: string, text: string, offset: nat, h: Hit, v: Violation) {
    && h.value !in check.allowed
    && v == Violation(path, offset + 1 + |Breaks(text, h.start)|, check.title, h.value)
  }

  /** What a check reports of a text: its matches that count. */
  ghost predicate ReportedAt(check: Check, path: string, text: string, offset: nat, i: nat, v: Violation) {
    && Chosen(check.matchAt, text, i)
    && Reports(check, path, text, offset, Hit(i, check.matchAt(text, i).value.value), v)
  }

  ghost function PlacesFrom(check: Check, path: string, text: string, offset: nat, v: Violation, pos: nat): set<nat> {
    set i: nat | pos <= i < |text| && ReportedAt(check, path, text, offset, i, v)
  }

  lemma {:induction false} NewlinesAreBreaks(text: string, i: nat)
    requires i <= |text|
    ensures Newlines(text[..i]) == |Breaks(text, i)|
  {
    if i > 0 {
      NewlinesAreBreaks(text, i - 1);
      assert text[..i][..i - 1] == text[..i - 1];
      assert Breaks(text, i) == Breaks(text, i - 1) + if text[i - 1] == '\n' then {i - 1} else {};
    }
  }

  /** No match that counts reaches past `pos` from before it. */
  ghost predicate Clear(m: Matcher, text: string, pos: nat) {
    forall j: nat :: j < pos && m(text, j).Some? && Chosen(m, text, j) ==> j + m(text, j).value.len <= pos
  }

  /** The search at a clear position: it takes the match there, and nothing counts until it goes on. */
  lemma SearchStep(m: Matcher, text: string, pos: nat)
    requires LineLocal(m) && pos < |text| && Clear(m, text, pos)
    ensures Chosen(m, text, pos) <==> m(text, pos).Some?
    ensures forall i: nat :: pos < i < pos + Advance(m, text, pos) ==> !Chosen(m, text, i)
    ensures Clear(m, text, pos + Advance(m, text, pos))
  {
    assert MatchesOnLine(m, text, pos);
  }

  lemma JudgeOneIs(path: string, text: string, check: Check, offset: nat, pos: nat, v: Violation)
    requires Chosen(check.matchAt, text, pos)
    ensures var h := Hit(pos, check.matchAt(text, pos).value.value);
      multiset(JudgeOne(path, text, check, h, offset))[v] ==
      if ReportedAt(check, path, text, offset, pos, v) then 1 else 0
  {
    NewlinesAreBreaks(text, pos);
  }

  lemma JudgeFirst(path: string, text: string, check: Check, offset: nat, h: Hit, rest: seq<Hit>, v: Violation)
    ensures multiset(Judge(path, text, check, [h] + rest, offset))[v] ==
            multiset(JudgeOne(path, text, check, h, offset))[v] + multiset(Judge(path, text, check, rest, offset))[v]
  {
    var judge := JudgeWith(path, text, check, offset);
    FlatJoin(judge, [h], rest, |rest|);
    assert Flat(judge, [h], 1) == Flat(judge, [h], 0) + judge(h) == judge(h);
  }

  lemma PlacesStep(check: Check, path: string, text: string, offset: nat, v: Violation, pos: nat, next: nat)
    requires pos < next && pos < |text|
    requires forall i: nat :: pos < i < next ==> !Chosen(check.matchAt, text, i)
    ensures |PlacesFrom(check, path, text, offset, v, pos)| ==
            |PlacesFrom(check, path, text, offset, v, next)| +
            if ReportedAt(check, path, text, offset, pos, v) then 1 else 0
  {
    var rest := PlacesFrom(check, path, text, offset, v, next);
    assert PlacesFrom(check, path, text, offset, v, pos) ==
      rest + if ReportedAt(check, path, text, offset, pos, v) then {pos} else {};
  }

  lemma JudgeFound(check: Check, path: string, text: string, offset: nat, v: Violation, pos: nat, rest: seq<Hit>)
    requires Chosen(check.matchAt, text, pos)
    ensures var h := Hit(pos, check.matchAt(text, pos).value.value);
      multiset(Judge(path, text, check, [h] + rest, offset))[v] ==
      multiset(Judge(path, text, check, rest, offset))[v] +
      if ReportedAt(check, path, text, offset, pos, v) then 1 else 0
  {
    JudgeOneIs(path, text, check, offset, pos, v);
    JudgeFirst(path, text, check, offset, Hit(pos, check.matchAt(text, pos).value.value), rest, v);
  }

  /** How often the search from `pos` on reports `v`. */
  ghost function FoundFrom(check: Check, path: string, text: string, offset: nat, v: Violation, pos: nat): nat {
    multiset(Judge(path, text, check, FindAll(check.matchAt, text, pos), offset))[v]
  }

  lemma FoundStep(check: Check, path: string, text: string, offset: nat, v: Violation, pos: nat)
    requires pos < |text| && (Chosen(check.matchAt, text, pos) <==> check.matchAt(text, pos).Some?)
    ensures FoundFrom(check, path, text, offset, v, pos) ==
      FoundFrom(check, path, text, offset, v, pos + Advance(check.matchAt, text, pos)) +
      if ReportedAt(check, path, text, offset, pos, v) then 1 else 0
  {
    var m := check.matchAt;
    FindStep(m, text, pos);
    if m(text, pos).Some? {
      JudgeFound(check, path, text, offset, v, pos, FindAll(m, text, pos + Advance(m, text, pos)));
    }
  }

  /** From a clear position on, the search reports each violation once for every place that has it. */
  lemma {:induction false} SearchCounts(check: Check, path: string, text: string, offset: nat, v: Violation, pos: nat)
    requires LineLocal(check.matchAt) && Clear(check.matchAt, text, pos)
    ensures FoundFrom(check, path, text, offset, v, pos) == |PlacesFrom(check, path, text, offset, v, pos)|
    decreases |text| - pos
  {
    if pos < |text| {
      var next := pos + Advance(check.matchAt, text, pos);
      SearchStep(check.matchAt, text, pos);
      SearchCounts(check, path, text, offset, v, next);
      FoundStep(check, path, text, offset, v, pos);
      PlacesStep(check, path, text, offset, v, pos, next);
    } else {
      assert PlacesFrom(check, path, text, offset, v, pos) == {};
    }
  }

  /** How many places of a file one check reports as `v`. */
  ghost function Times(path: string, text: string, offset: nat, v: Violation): Check -> nat {
    (check: Check) => |PlacesFrom(check, path, text, offset, v, 0)|
  }

  lemma CheckCounts(check: Check, path: string, text: string, offset: nat, v: Violation)
    requires LineLocal(check.matchAt)
    ensures multiset(CheckViolations(path, text, check, offset))[v] == Times(path, text, offset, v)(check)
  {
    SearchCounts(check, path, text, offset, v, 0);
  }

  lemma SumOfCounts(whole: seq<Violation>, a: seq<Violation>, b: seq<Violation>, v: Violation)
    requires whole == a + b
    ensures multiset(whole)[v] == multiset(a)[v] + multiset(b)[v]
  {
  }

  lemma ScanNext(path: string, text: string, checks: seq<Check>, offset: nat, v: Violation, n: nat)
    requires n < |checks| && LineLocal(checks[n].matchAt)
    ensures multiset(ScanWith(path, checks[..n + 1])(text, offset))[v] ==
            multiset(ScanWith(path, checks[..n])(text, offset))[v] + Times(path, text, offset, v)(checks[n])
  {
    ScanWithStep(path, text, checks, n, offset);
    CheckCounts(checks[n], path, text, offset, v);
    SumOfCounts(ScanWith(path, checks[..n + 1])(text, offset), ScanWith(path, checks[..n])(text, offset),
      CheckViolations(path, text, checks[n], offset), v);
  }

  ghost function ScanCount(path: string, text: string, checks: seq<Check>, offset: nat, v: Violation): nat {
    multiset(ScanWith(path, checks)(text, offset))[v]
  }

  lemma {:induction false} ScanCounts(path: string, text: string, checks: seq<Check>, offset: nat, v: Violation, n: nat)
    requires n <= |checks| && AllLineLocal(checks)
    ensures ScanCount(path, text, checks[..n], offset, v) == SumTo(checks, Times(path, text, offset, v), n)
  {
    if n > 0 {
      ScanCounts(path, text, checks, offset, v, n - 1);
      ScanNext(path, text, checks, offset, v, n - 1);
    }
  }

  /** Each violation is listed once for every place of the text that some check reports as it. */
  ghost predicate Lists(path: string, text: string, checks: seq<Check>, offset: nat, violations: seq<Violation>) {
    forall v :: multiset(violations)[v] == SumTo(checks, Times(path, text, offset, v), |checks|)
  }

  lemma TextListed(path: string, text: string, checks: seq<Check>, offset: nat)
    ensures AllLineLocal(checks) ==> Lists(path, text, checks, offset, ScanWith(path, checks)(text, offset))
  {
    if AllLineLocal(checks) {
      forall v
        ensures ScanCount(path, text, checks, offset, v) == SumTo(checks, Times(path, text, offset, v), |checks|)
      {
        ScanCounts(path, text, checks, offset, v, |checks|);
        assert checks[..|checks|] == checks;
      }
    }
  }

  // Scanning one text ---------------------------------------------------------------------------

  /** A check that matched, with its matches. */
  datatype Finding = Finding(check: Check, hits: seq<Hit>)

  ghost predicate Inside(text: string, found: seq<Finding>) {
    forall j, k :: 0 <= j < |found| && 0 <= k < |found[j].hits| ==> found[j].hits[k].start <= |text|
  }

  ghost function Judged(path: string, text: string, found: seq<Finding>, offset: nat): seq<Violation>
    requires Inside(text, found)
  {
    if found == [] then []
    else
      var last := found[|found| - 1];
      Judged(path, text, found[..|found| - 1], offset) + Judge(path, text, last.check, last.hits, offset)
  }

  /** The checks that matched, with their matches; a check that did not match is dropped. */
  method Matches(path: string, text: string, checks: seq<Check>, ghost offset: nat) returns (found: seq<Finding>)
    ensures Inside(text, found)
    ensures Judged(path, text, found, offset) == ScanWith(path, checks)(text, offset)
  {
    found := [];
    for k := 0 to |checks|
      invariant Inside(text, found)
      invariant Judged(path, text, found, offset) == ScanWith(path, checks[..k])(text, offset)
    {
      var check := checks[k];
      var hits := FindAll(check.matchAt, text, 0);
      FindAllInside(check.matchAt, text, 0);
      ScanWithStep(path, text, checks, k, offset);
      if hits != [] {
        JudgedStep(path, text, found, Finding(check, hits), offset);
        found := found + [Finding(check, hits)];
      }
    }
    assert checks[..|checks|] == checks;
  }

  lemma ScanWithStep(path: string, text: string, checks: seq<Check>, k: nat, offset: nat)
    requires k < |checks|
    ensures ScanWith(path, checks[..k + 1])(text, offset) ==
            ScanWith(path, checks[..k])(text, offset) + CheckViolations(path, text, checks[k], offset)
  {
    assert checks[..k + 1][..k] == checks[..k];
  }

  lemma JudgedStep(path: string, text: string, found: seq<Finding>, next: Finding, offset: nat)
    requires Inside(text, found) && forall k :: 0 <= k < |next.hits| ==> next.hits[k].start <= |text|
    ensures Inside(text, found + [next])
    ensures Judged(path, text, found + [next], offset) ==
            Judged(path, text, found, offset) + Judge(path, text, next.check, next.hits, offset)
  {
    assert (found + [next])[..|found|] == found;
  }

  lemma JudgeElems(path: string, text: string, finding: Finding, offset: nat, v: Violation)
    requires forall k :: 0 <= k < |finding.hits| ==> finding.hits[k].start <= |text|
    ensures v in Judge(path, text, finding.check, finding.hits, offset) <==> exists k ::
      0 <= k < |finding.hits| && Reports(finding.check, path, text, offset, finding.hits[k], v)
  {
    var hits, judge := finding.hits, JudgeWith(path, text, finding.check, offset);
    FlatElems(judge, hits, |hits|, v);
    forall k | 0 <= k < |hits|
      ensures v in judge(hits[k]) <==> Reports(finding.check, path, text, offset, hits[k], v)
    {
      NewlinesAreBreaks(text, hits[k].start);
    }
  }

  /** The matches of one check, turned into violations with line numbers bisected from the line starts. */
  method JudgeHits(path: string, text: string, starts: seq<nat>, finding: Finding, offset: nat)
      returns (violations: seq<Violation>)
    requires starts == Starts(text)
    requires forall k :: 0 <= k < |finding.hits| ==> finding.hits[k].start <= |text|
    ensures violations == Judge(path, text, finding.check, finding.hits, offset)
    ensures forall v :: v in violations <==> exists k ::
      0 <= k < |finding.hits| && Reports(finding.check, path, text, offset, finding.hits[k], v)
  {
    ghost var judge := JudgeWith(path, text, finding.check, offset);
    violations := [];
    for k := 0 to |finding.hits|
      invariant violations == Flat(judge, finding.hits, k)
    {
      var h := finding.hits[k];
      BisectCounts(text, h.start);
      if h.value !in finding.check.allowed {
        violations := violations +
          [Violation(path, offset + BisectRight(starts, h.start), finding.check.title, h.value)];
      }
    }
    forall v
      ensures v in violations <==> exists k ::
        0 <= k < |finding.hits| && Reports(finding.check, path, text, offset, finding.hits[k], v)
    {
      JudgeElems(path, text, finding, offset, v);
    }
  }

  /** Every violation in one text, of which `offset` lines precede. */
  method FileViolations(path: string, text: string, checks: seq<Check>, offset: nat)
      returns (violations: seq<Violation>)
    ensures violations == ScanWith(path, checks)(text, offset)
    ensures AllLineLocal(checks) ==> Lists(path, text, checks, offset, violations)
  {
    TextListed(path, text, checks, offset);
    var found := Matches(path, text, checks, offset);
    if found == [] {
      return [];
    }
    violations := JudgeAll(path, text, found, offset);
  }

  method JudgeAll(path: string, text: string, found: seq<Finding>, offset: nat) returns (violations: seq<Violation>)
    requires Inside(text, found)
    ensures violations == Judged(path, text, found, offset)
  {
    var starts := Starts(text);
    violations := [];
    for j := 0 to |found|
      invariant violations == Judged(path, text, found[..j], offset)
    {
      var more := JudgeHits(path, text, starts, found[j], offset);
      JudgedStep(path, text, found[..j], found[j], offset);
      assert found[..j] + [found[j]] == found[..j + 1];
      violations := violations + more;
    }
    assert found[..|found|] == found;
  }

  // Cutting a file into shards ----------------------------------------------------------

  /** Where the search for each cut starts: aimed at even sizes. */
  function Aims(text: string, count: nat): (r: seq<nat>)
    requires 0 < count
    ensures |r| == count
  {
    seq(count, k requires 0 <= k < count => |text| * k / count)
  }

  predicate Fit(text: string, aims: seq<nat>) {
    && (forall k :: 0 <= k < |aims| ==> aims[k] <= |text|)
    && (forall j, k :: 0 <= j < k < |aims| ==> aims[j] <= aims[k])
  }

  lemma DivMonotone(a: nat, b: nat, c: nat)
    requires a <= b && 0 < c
    ensures a / c <= b / c
  {
    var p, q := a / c, b / c;
    assert a == c * p + a % c && b == c * q + b % c;
    MulGap(c, p, q);
  }

  lemma {:induction false} MulGap(c: nat, p: nat, q: nat)
    ensures q < p ==> c * q + c <= c * p
  {
    if q + 1 < p {
      MulGap(c, p - 1, q);
    }
    assert c * (q + 1) == c * q + c;
    assert p > 0 ==> c * p == c * (p - 1) + c;
  }

  lemma AimBelow(len: nat, k: nat, count: nat)
    requires k < count
    ensures len * k / count <= len
  {
    MulGap(len, count, k);
    DivMonotone(len * k, len * count, count);
    assert len * count / count == len;
  }

  lemma AimsFit(text: string, count: nat)
    requires 0 < count
    ensures Fit(text, Aims(text, count))
  {
    var aims := Aims(text, count);
    forall k | 0 <= k < count
      ensures aims[k] <= |text|
    {
      AimBelow(|text|, k, count);
    }
    forall j, k | 0 <= j < k < count
      ensures aims[j] <= aims[k]
    {
      MulGap(|text|, k, j);
      DivMonotone(|text| * j, |text| * k, count);
    }
  }

  /** The bounds after the cuts numbered below `n` were tried. */
  function CutsTo(text: string, aims: seq<nat>, n: nat): (r: seq<nat>)
    requires Fit(text, aims) && 1 <= n <= |aims|
    ensures |r| > 0
  {
    if n == 1 then [0] else CutNext(text, CutsTo(text, aims, n - 1), LineEnd(text, aims[n - 1]))
  }

  function CutNext(text: string, bounds: seq<nat>, cut: nat): (r: seq<nat>)
    requires |bounds| > 0
    ensures |r| > 0
  {
    if cut < |text| && cut + 1 > bounds[|bounds| - 1] then bounds + [cut + 1] else bounds
  }

  /** The cuts start at 0, increase, and each begins a line. */
  ghost predicate Cuts(text: string, bounds: seq<nat>) {
    && |bounds| > 0 && bounds[0] == 0
    && (forall k :: 0 <= k < |bounds| ==> IsCut(text, bounds[k]))
    && (forall j, k :: 0 <= j < k < |bounds| ==> bounds[j] < bounds[k])
  }

  lemma CutNextCuts(text: string, bounds: seq<nat>, cut: nat)
    requires Cuts(text, bounds) && (cut < |text| ==> text[cut] == '\n')
    ensures Cuts(text, CutNext(text, bounds, cut)) && |CutNext(text, bounds, cut)| <= |bounds| + 1
  {
    if cut < |text| && cut + 1 > bounds[|bounds| - 1] {
      CutAdded(text, bounds, cut + 1);
    }
  }

  lemma CutAdded(text: string, bounds: seq<nat>, c: nat)
    requires Cuts(text, bounds) && IsCut(text, c) && c > bounds[|bounds| - 1]
    ensures Cuts(text, bounds + [c])
  {
    var more := bounds + [c];
    forall k | 0 <= k < |more|
      ensures IsCut(text, more[k]) && (k < |bounds| ==> more[k] == bounds[k] < c)
    {
    }
  }

  lemma {:induction false} CutsAreCuts(text: string, aims: seq<nat>, n: nat)
    requires Fit(text, aims) && 1 <= n <= |aims|
    ensures Cuts(text, CutsTo(text, aims, n)) && |CutsTo(text, aims, n)| <= n
  {
    if n > 1 {
      CutsAreCuts(text, aims, n - 1);
      LineEndBreak(text, aims[n - 1]);
      CutNextCuts(text, CutsTo(text, aims, n - 1), LineEnd(text, aims[n - 1]));
    }
  }

  /** The shard bounds of a text: from 0 to its length, every inner one just after a line break. */
  function Bounds(text: string, count: nat): (r: seq<nat>)
    requires 0 < count
    ensures |r| <= count + 1 && Shards(text, r)
  {
    AimsFit(text, count);
    CutsAreCuts(text, Aims(text, count), count);
    var bounds := CutsTo(text, Aims(text, count), count);
    if |text| > bounds[|bounds| - 1] then bounds + [|text|] else bounds
  }

  /** The shards start at 0, follow each other without gap or overlap to the end, and each begins a line. */
  ghost predicate Shards(text: string, bounds: seq<nat>) {
    && 0 < |bounds| && bounds[0] == 0 && bounds[|bounds| - 1] == |text|
    && (forall k :: 0 <= k < |bounds| - 1 ==> IsCut(text, bounds[k]))
    && (forall j, k :: 0 <= j < k < |bounds| ==> bounds[j] < bounds[k])
  }

  lemma {:induction false} LineEndBreak(text: string, i: nat)
    requires i <= |text|
    ensures LineEnd(text, i) < |text| ==> text[LineEnd(text, i)] == '\n'
    decreases |text| - i
  {
    if i < |text| && text[i] != '\n' {
      LineEndBreak(text, i + 1);
    }
  }

  /** Past a position with no further line break there is none either. */
  lemma {:induction false} LineEndStays(text: string, i: nat, j: nat)
    requires i <= j <= |text| && LineEnd(text, i) == |text|
    ensures LineEnd(text, j) == |text|
    decreases j - i
  {
    if i < j {
      LineEndStays(text, i + 1, j);
    }
  }

  /** Once no line break is left, the remaining cuts add nothing: the loop may stop. */
  lemma {:induction false} CutsExhausted(text: string, aims: seq<nat>, n: nat, k: nat)
    requires Fit(text, aims) && 1 <= n <= k <= |aims|
    requires n < |aims| && LineEnd(text, aims[n]) == |text|
    ensures CutsTo(text, aims, k) == CutsTo(text, aims, n)
  {
    if n < k {
      CutsExhausted(text, aims, n, k - 1);
      LineEndStays(text, aims[n], aims[k - 1]);
    }
  }

  /** The cutting loop over given search positions. */
  method CutAt(text: string, aims: seq<nat>) returns (bounds: seq<nat>)
    requires Fit(text, aims) && 0 < |aims|
    ensures bounds == CutsTo(text, aims, |aims|)
  {
    bounds := [0];
    var index := 1;
    while index < |aims|
      invariant 1 <= index <= |aims|
      invariant bounds == CutsTo(text, aims, index)
    {
      var cut := LineEnd(text, aims[index]);
      if cut == |text| {
        CutsExhausted(text, aims, index, |aims|);
        break;
      }
      if cut + 1 > bounds[|bounds| - 1] {
        bounds := bounds + [cut + 1];
      }
      index := index + 1;
    }
  }

  method ShardBounds(text: string, count: nat) returns (bounds: seq<nat>)
    requires 0 < count
    ensures bounds == Bounds(text, count)
  {
    AimsFit(text, count);
    bounds := CutAt(text, Aims(text, count));
    if |text| > bounds[|bounds| - 1] {
      bounds := bounds + [|text|];
    }
  }

  // Scanning the shards ---------------------------------------------------------------------

  /** What shard number `k` reports. */
  function Shard(scan: Scan, text: string, bounds: seq<nat>, k: nat): seq<Violation>
    requires k + 1 < |bounds| && bounds[k] <= bounds[k + 1] <= |text|
  {
    scan(text[bounds[k]..bounds[k + 1]], Newlines(text[..bounds[k]]))
  }

  /** What the work item for shard `index` returns: nothing when there are fewer shards than asked for. */
  ghost function ShardAt(scan: Scan, text: string, bounds: seq<nat>, index: nat): seq<Violation>
    requires Shards(text, bounds)
  {
    if index + 1 >= |bounds| then [] else Shard(scan, text, bounds, index)
  }

  /** What the first `n` work items report, in order. */
  ghost function Items(scan: Scan, text: string, bounds: seq<nat>, n: nat): seq<Violation>
    requires Shards(text, bounds)
  {
    if n == 0 then [] else Items(scan, text, bounds, n - 1) + ShardAt(scan, text, bounds, n - 1)
  }

  lemma PrefixSplits(scan: Scan, text: string, a: nat, b: nat)
    requires Additive(scan) && IsCut(text, a) && a <= b <= |text|
    ensures multiset(scan(text[..b], 0)) ==
            multiset(scan(text[..a], 0)) + multiset(scan(text[a..b], Newlines(text[..a])))
  {
    assert SplitsAt(scan, text[..b], a, 0);
    assert text[..b][..a] == text[..a] && text[..b][a..] == text[a..b];
  }

  lemma {:induction false} PrefixIsShards(scan: Scan, text: string, bounds: seq<nat>, n: nat)
    requires Additive(scan) && Shards(text, bounds) && n < |bounds|
    ensures multiset(Items(scan, text, bounds, n)) == multiset(scan(text[..bounds[n]], 0))
  {
    if n > 0 {
      PrefixIsShards(scan, text, bounds, n - 1);
      PrefixSplits(scan, text, bounds[n - 1], bounds[n]);
    } else {
      assert text[..bounds[n]] == "";
    }
  }

  /** Cut at any such bounds, the shards together report exactly what the whole text reports. */
  lemma ShardsAreWhole(path: string, text: string, checks: seq<Check>, bounds: seq<nat>)
    requires AllLineLocal(checks) && Shards(text, bounds)
    ensures multiset(Items(ScanWith(path, checks), text, bounds, |bounds| - 1)) ==
            multiset(ScanWith(path, checks)(text, 0))
  {
    ScanWithAdditive(path, checks);
    PrefixIsShards(ScanWith(path, checks), text, bounds, |bounds| - 1);
    assert text[..|text|] == text;
  }

  // Scanning files -----------------------------------------------------------------------------

  /** A scanned file: its text, and its size in bytes, from which the number of shards is taken. */
  datatype File = File(path: string, text: string, size: nat)

  datatype Scanner = Scanner(checks: seq<Check>, markdown: seq<Check>, isMarkdown: string -> bool) {
    function ChecksFor(path: string): seq<Check> {
      if isMarkdown(path) then checks + markdown else checks
    }

    function ScanOf(path: string): Scan {
      ScanWith(path, ChecksFor(path))
    }

    ghost predicate LineLocal() {
      AllLineLocal(checks) && AllLineLocal(markdown)
    }
  }

  const SHARD_BYTES: nat := 262144
  const MIN_PARALLEL_FILES := 32

  /** How many shards a file of `size` bytes is cut into. */
  function ShardCount(size: nat): (r: nat)
    ensures 0 < r
  {
    var shards := (size + SHARD_BYTES - 1) / SHARD_BYTES;
    if shards < 1 then 1 else shards
  }

  method ScanOne(s: Scanner, file: File, index: nat, count: nat) returns (violations: seq<Violation>)
    requires 0 < count
    ensures violations == ShardAt(s.ScanOf(file.path), file.text, Bounds(file.text, count), index)
  {
    var checks := s.ChecksFor(file.path);
    var bounds := ShardBounds(file.text, count);
    if index + 1 >= |bounds| {
      return [];
    }
    var start, end := bounds[index], bounds[index + 1];
    violations := FileViolations(file.path, file.text[start..end], checks, Newlines(file.text[..start]));
  }

  /** Items beyond the last shard add nothing. */
  lemma {:induction false} ItemsStop(scan: Scan, text: string, bounds: seq<nat>, n: nat)
    requires Shards(text, bounds) && n + 1 >= |bounds|
    ensures Items(scan, text, bounds, n) == Items(scan, text, bounds, |bounds| - 1)
  {
    if n + 1 > |bounds| {
      ItemsStop(scan, text, bounds, n - 1);
    }
  }

  /** What one scan of the whole file reports. */
  ghost function WholeReport(s: Scanner): File -> multiset<Violation> {
    (file: File) => multiset(s.ScanOf(file.path)(file.text, 0))
  }

  /** However many shards a file is cut into, its work items together report what the whole file reports. */
  lemma ItemsAreWhole(s: Scanner, file: File, count: nat)
    requires 0 < count && s.LineLocal()
    ensures multiset(Items(s.ScanOf(file.path), file.text, Bounds(file.text, count), count)) == WholeReport(s)(file)
  {
    var bounds := Bounds(file.text, count);
    ItemsStop(s.ScanOf(file.path), file.text, bounds, count);
    ShardsAreWhole(file.path, file.text, s.ChecksFor(file.path), bounds);
  }

  /** How many places of a file are reported as `v`: by every check, and in Markdown by its checks as well. */
  ghost function PlacesIn(s: Scanner, file: File, v: Violation): nat {
    var times := Times(file.path, file.text, 0, v);
    SumTo(s.checks, times, |s.checks|) +
    if s.isMarkdown(file.path) then SumTo(s.markdown, times, |s.markdown|) else 0
  }

  ghost function PlacesWith(s: Scanner, v: Violation): File -> nat {
    (file: File) => PlacesIn(s, file, v)
  }

  lemma WholeIsScan(s: Scanner, file: File, v: Violation)
    ensures WholeReport(s)(file)[v] == ScanCount(file.path, file.text, s.ChecksFor(file.path), 0, v)
  {
    assert WholeReport(s)(file) == multiset(s.ScanOf(file.path)(file.text, 0));
  }

  /** The report of a file has each violation once for every place that is reported as it. */
  lemma WholeCounts(s: Scanner, file: File, v: Violation)
    requires s.LineLocal()
    ensures WholeReport(s)(file)[v] == PlacesIn(s, file, v)
  {
    var checks, times := s.ChecksFor(file.path), Times(file.path, file.text, 0, v);
    ScanCounts(file.path, file.text, checks, 0, v, |checks|);
    assert checks[..|checks|] == checks;
    WholeIsScan(s, file, v);
    if s.isMarkdown(file.path) {
      SumJoin(s.checks, s.markdown, times, |s.markdown|);
    }
  }

  ghost predicate ReportedBy(checks: seq<Check>, file: File, v: Violation) {
    exists k, i: nat :: 0 <= k < |checks| && ReportedAt(checks[k], file.path, file.text, 0, i, v)
  }

  ghost predicate ReportedIn(s: Scanner, file: File, v: Violation) {
    ReportedBy(s.checks, file, v) || (s.isMarkdown(file.path) && ReportedBy(s.markdown, file, v))
  }

  lemma TimesPositive(check: Check, path: string, text: string, offset: nat, v: Violation)
    ensures Times(path, text, offset, v)(check) > 0 <==> exists i: nat :: ReportedAt(check, path, text, offset, i, v)
  {
    var places := PlacesFrom(check, path, text, offset, v, 0);
    if i: nat :| ReportedAt(check, path, text, offset, i, v) {
      assert i in places;
    }
    if |places| > 0 {
      var i :| i in places;
    }
  }

  lemma SomewhereBy(checks: seq<Check>, file: File, v: Violation)
    ensures SumTo(checks, Times(file.path, file.text, 0, v), |checks|) > 0 <==> ReportedBy(checks, file, v)
  {
    SumPositive(checks, Times(file.path, file.text, 0, v), |checks|);
    forall k | 0 <= k < |checks|
      ensures Times(file.path, file.text, 0, v)(checks[k]) > 0 <==>
              exists i: nat :: ReportedAt(checks[k], file.path, file.text, 0, i, v)
    {
      TimesPositive(checks[k], file.path, file.text, 0, v);
    }
  }

  lemma SomewhereIn(s: Scanner, file: File, v: Violation)
    ensures PlacesWith(s, v)(file) > 0 <==> ReportedIn(s, file, v)
  {
    SomewhereBy(s.checks, file, v);
    SomewhereBy(s.markdown, file, v);
  }

  /** A report of files: sorted, with each violation once for every place in them that is reported as it. */
  ghost predicate ReportOf(s: Scanner, files: seq<File>, report: seq<Violation>) {
    && Sorted(report, ViolationLeq)
    && (forall v :: multiset(report)[v] == SumTo(files, PlacesWith(s, v), |files|))
  }

  lemma TotalIsReport(s: Scanner, files: seq<File>, v: Violation)
    requires s.LineLocal()
    ensures Total(files, WholeReport(s))[v] == SumTo(files, PlacesWith(s, v), |files|)
    ensures Total(files, WholeReport(s))[v] > 0 <==> exists k :: 0 <= k < |files| && ReportedIn(s, files[k], v)
  {
    forall k | 0 <= k < |files|
      ensures WholeReport(s)(files[k])[v] == PlacesWith(s, v)(files[k])
      ensures PlacesWith(s, v)(files[k]) > 0 <==> ReportedIn(s, files[k], v)
    {
      WholeCounts(s, files[k], v);
      SomewhereIn(s, files[k], v);
    }
    TotalCounts(files, WholeReport(s), PlacesWith(s, v), |files|, v);
    SumPositive(files, PlacesWith(s, v), |files|);
  }

  /** The order of the report: by path, line, title and value. */
  predicate ViolationLeq(a: Violation, b: Violation) {
    if a.path != b.path then StringLeq(a.path, b.path)
    else if a.line != b.line then a.line <= b.line
    else if a.title != b.title then StringLeq(a.title, b.title)
    else StringLeq(a.value, b.value)
  }

  lemma ViolationOrder()
    ensures TotalOrder(ViolationLeq)
  {
    StringOrder();
  }

  predicate SizeLeq(a: File, b: File) {
    if a.size != b.size then a.size <= b.size else StringLeq(a.path, b.path)
  }

  // Work items and workers ------------------------------------------------------------------

  /** One shard of a file, to be scanned by whichever worker takes it. */
  datatype Item = Item(file: File, index: nat, count: nat)

  type Report = Item -> seq<Violation>

  ghost function ItemReport(s: Scanner): Report {
    (item: Item) =>
      if item.count == 0 then []
      else ShardAt(s.ScanOf(item.file.path), item.file.text, Bounds(item.file.text, item.count), item.index)
  }

  predicate Counted(items: seq<Item>) {
    forall k :: 0 <= k < |items| ==> items[k].count > 0
  }

  function ItemsOf(file: File, count: nat, n: nat): seq<Item> {
    seq(n, index requires 0 <= index < n => Item(file, index, count))
  }

  lemma {:induction false} ItemsGathered(report: Report, scan: Scan, file: File, bounds: seq<nat>, count: nat, n: nat)
    requires n <= count && Shards(file.text, bounds)
    requires forall i :: 0 <= i < count ==> report(Item(file, i, count)) == ShardAt(scan, file.text, bounds, i)
    ensures Flat(report, ItemsOf(file, count, count), n) == Items(scan, file.text, bounds, n)
  {
    if n > 0 {
      ItemsGathered(report, scan, file, bounds, count, n - 1);
    }
  }

  /** The items of one file; together they report what the whole file reports. */
  method FileItems(ghost s: Scanner, file: File) returns (items: seq<Item>)
    requires s.LineLocal()
    ensures Counted(items) && multiset(Flat(ItemReport(s), items, |items|)) == WholeReport(s)(file)
  {
    var count := ShardCount(file.size);
    items := ItemsOf(file, count, count);
    ItemsGathered(ItemReport(s), s.ScanOf(file.path), file, Bounds(file.text, count), count, count);
    ItemsAreWhole(s, file, count);
  }

  /** All work items, those of the biggest file first. */
  method WorkItems(ghost s: Scanner, files: seq<File>) returns (items: seq<Item>)
    requires s.LineLocal()
    ensures Counted(items) && multiset(Flat(ItemReport(s), items, |items|)) == Total(files, WholeReport(s))
  {
    ghost var report, whole := ItemReport(s), WholeReport(s);
    var order := Reversed(Sort(files, SizeLeq));
    ReversedElements(Sort(files, SizeLeq));
    items := [];
    for k := 0 to |order|
      invariant Counted(items) && multiset(Flat(report, items, |items|)) == TotalTo(order, whole, k)
    {
      var more := FileItems(s, order[k]);
      GatherNext(report, whole, items, more, order, k);
      items := items + more;
    }
    TotalPermute(order, files, whole);
  }

  method ScanInOrder(s: Scanner, items: seq<Item>) returns (violations: seq<Violation>)
    requires Counted(items)
    ensures violations == Flat(ItemReport(s), items, |items|)
  {
    ghost var report := ItemReport(s);
    violations := [];
    for k := 0 to |items|
      invariant violations == Flat(report, items, k)
    {
      var found := ScanOne(s, items[k].file, items[k].index, items[k].count);
      violations := violations + found;
    }
  }

  /** Workers finish the items in any order; their reports are handed over in the order of the items. */
  method ScanInPool(s: Scanner, items: seq<Item>) returns (violations: seq<Violation>)
    requires Counted(items)
    ensures violations == Flat(ItemReport(s), items, |items|)
  {
    var reports := RunWorkers(s, items);
    ghost var report := ItemReport(s);
    violations := [];
    for k := 0 to |items|
      invariant violations == Flat(report, items, k)
    {
      violations := violations + reports[k];
    }
  }

  function Below(n: nat): (r: set<nat>)
    ensures forall k :: k in r <==> 0 <= k < n
  {
    if n == 0 then {} else Below(n - 1) + {n - 1}
  }

  method RunWorkers(s: Scanner, items: seq<Item>) returns (reports: map<nat, seq<Violation>>)
    requires Counted(items)
    ensures forall k :: 0 <= k < |items| ==> k in reports && reports[k] == ItemReport(s)(items[k])
  {
    reports := map[];
    var pending := Below(|items|);
    while pending != {}
      invariant forall k :: k in pending ==> k < |items|
      invariant forall k :: 0 <= k < |items| && k !in pending ==> k in reports && reports[k] == ItemReport(s)(items[k])
      decreases pending
    {
      var k :| k in pending;
      var found := ScanOne(s, items[k].file, items[k].index, items[k].count);
      reports := reports[k := found];
      pending := pending - {k};
    }
  }

  /** Every violation in `files`, sorted; the workers do not show in it. */
  method ScanFiles(s: Scanner, files: seq<File>, workers: nat) returns (report: seq<Violation>)
    requires s.LineLocal()
    ensures Sorted(report, ViolationLeq)
    ensures multiset(report) == Total(files, WholeReport(s))
    ensures forall v :: v in report <==> exists k :: 0 <= k < |files| && ReportedIn(s, files[k], v)
    ensures ReportOf(s, files, report)
  {
    var items := WorkItems(s, files);
    var violations;
    if workers > 1 && |files| > MIN_PARALLEL_FILES {
      violations := ScanInPool(s, items);
    } else {
      violations := ScanInOrder(s, items);
    }
    ViolationOrder();
    SortSorted(violations, ViolationLeq);
    report := Sort(violations, ViolationLeq);
    forall v
      ensures v in report <==> exists k :: 0 <= k < |files| && ReportedIn(s, files[k], v)
      ensures multiset(report)[v] == SumTo(files, PlacesWith(s, v), |files|)
    {
      TotalIsReport(s, files, v);
      assert v in report <==> v in multiset(report);
    }
  }

  /** The files without their sizes. */
  ghost function Texts(files: seq<File>): seq<File> {
    seq(|files|, k requires 0 <= k < |files| => files[k].(size := 0))
  }

  lemma {:induction false} TotalResize(s: Scanner, files: seq<File>, n: nat)
    requires n <= |files|
    ensures TotalTo(files, WholeReport(s), n) == TotalTo(Texts(files), WholeReport(s), n)
  {
    if n > 0 {
      TotalResize(s, files, n - 1);
      assert WholeReport(s)(files[n - 1]) == WholeReport(s)(Texts(files)[n - 1]);
    }
  }

  /** The report depends on the texts alone: not on sizes, shard counts or the order the files are handed over. */
  lemma ReportIndependent(s: Scanner, a: seq<File>, b: seq<File>, r: seq<Violation>, t: seq<Violation>)
    requires Sorted(r, ViolationLeq) && Sorted(t, ViolationLeq)
    requires multiset(r) == Total(a, WholeReport(s)) && multiset(t) == Total(b, WholeReport(s))
    requires multiset(Texts(a)) == multiset(Texts(b))
    ensures r == t
  {
    TotalResize(s, a, |a|);
    TotalResize(s, b, |b|);
    TotalPermute(Texts(a), Texts(b), WholeReport(s));
    ViolationOrder();
    SortUnique(r, t, ViolationLeq);
  }
}
