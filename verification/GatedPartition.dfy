/**
 The test partition with the gate it really asks. The answers of the memoised
 gate depend on what was asked before it, so ownership is not a function of the
 file tree alone. It is one after all: every pass over the repository asks the
 same files in the same order, and an answer once given stands, import cycles
 included. So all passes of one process and of any other agree on the owners.
 */
module GatedPartition {
  import opened Orders
  import opened TestPartition
  import opened Wrappers
  import GateTest

  /** The answers that stand in a cache. */
  ghost function Standing(tree: GateTest.Files, cache: GateTest.Cache): string -> bool {
    f => GateTest.Cached(tree, cache, f) && cache[f].gated
  }

  /** The repository with these answers. */
  ghost function With(repo: Repository, tree: GateTest.Files, cache: GateTest.Cache): Repository {
    repo.(gated := Standing(tree, cache))
  }

  /** Ownership of the file depends on the gate. */
  predicate Asks(repo: Repository, f: string) {
    IsTest(f) && f !in repo.config.sharedFiles && f !in repo.config.excluded && !InPostgres(repo.config, f)
  }

  /** Whatever the gate has to say about the file, it has said. */
  ghost predicate Settled(repo: Repository, tree: GateTest.Files, cache: GateTest.Cache, f: string) {
    Asks(repo, f) && f in tree ==> GateTest.Cached(tree, cache, f)
  }

  ghost predicate AllSettled(repo: Repository, tree: GateTest.Files, cache: GateTest.Cache, files: seq<string>) {
    forall f :: f in files ==> Settled(repo, tree, cache, f)
  }

  /** Settled files keep their owner. */
  lemma OwnerStands(repo: Repository, tree: GateTest.Files, cache: GateTest.Cache, later: GateTest.Cache, f: string)
    requires IsTest(f) && Settled(repo, tree, cache, f) && GateTest.Kept(tree, cache, later)
    ensures Owner(With(repo, tree, later), f) == Owner(With(repo, tree, cache), f)
    ensures Settled(repo, tree, later, f)
  {
  }

  lemma VerdictStands(repo: Repository, tree: GateTest.Files, cache: GateTest.Cache, later: GateTest.Cache, f: string)
    requires Settled(repo, tree, cache, f) && GateTest.Kept(tree, cache, later)
    ensures Classify(With(repo, tree, later), f) == Classify(With(repo, tree, cache), f)
    ensures Settled(repo, tree, later, f)
  {
    if IsTest(f) {
      OwnerStands(repo, tree, cache, later, f);
    }
  }

  // The cache a pass leaves -------------------------------------------------------------

  /** The gate of a file tree: what asking for a file makes of a cache. */
  type Gate = (GateTest.Cache, string) -> GateTest.Cache

  ghost function GateOf(tree: GateTest.Files): Gate {
    (cache, f) => GateTest.Query(tree, cache, f, []).cache
  }

  /** Holds of every value; mentioning it is what lets the verifier look inside the sealed predicate. */
  ghost predicate Opened(tree: GateTest.Files) {
    true
  }

  /** `ask` is the gate of the tree; sealed. */
  ghost predicate IsGate(tree: GateTest.Files, ask: Gate) {
    forall t {:trigger Opened(t)} :: Opened(t) && t == tree ==> ask == GateOf(t)
  }

  lemma OpenGate(tree: GateTest.Files, ask: Gate)
    ensures IsGate(tree, ask) <==> ask == GateOf(tree)
  {
    assert Opened(tree);
  }

  ghost function AfterFile(ask: Gate, repo: Repository, cache: GateTest.Cache, f: string): GateTest.Cache {
    if Asks(repo, f) then ask(cache, f) else cache
  }

  ghost function After(ask: Gate, repo: Repository, cache: GateTest.Cache, files: seq<string>): GateTest.Cache {
    if files == [] then cache
    else AfterFile(ask, repo, After(ask, repo, cache, files[..|files| - 1]), files[|files| - 1])
  }

  lemma AfterNext(ask: Gate, repo: Repository, cache: GateTest.Cache, files: seq<string>, f: string)
    ensures After(ask, repo, cache, files + [f]) == AfterFile(ask, repo, After(ask, repo, cache, files), f)
  {
    assert (files + [f])[..|files|] == files;
  }

  /** Asking for a file puts its answer in and keeps the others; it does nothing if there is no file or it was asked. */
  lemma AskingSettles(tree: GateTest.Files, ask: Gate, cache: GateTest.Cache, f: string)
    requires IsGate(tree, ask)
    ensures GateTest.Kept(tree, cache, ask(cache, f))
    ensures if f in tree then GateTest.Cached(tree, ask(cache, f), f) else ask(cache, f) == cache
    ensures GateTest.Cached(tree, cache, f) ==> ask(cache, f) == cache
  {
    OpenGate(tree, ask);
    GateTest.QueryKeeps(tree, cache, f, []);
  }

  lemma FileSettles(tree: GateTest.Files, ask: Gate, repo: Repository, cache: GateTest.Cache, f: string)
    requires IsGate(tree, ask)
    ensures var next := AfterFile(ask, repo, cache, f);
      && GateTest.Kept(tree, cache, next) && Settled(repo, tree, next, f)
      && (Settled(repo, tree, cache, f) ==> next == cache)
  {
    AskingSettles(tree, ask, cache, f);
  }

  lemma {:induction false} PassSettles(tree: GateTest.Files, ask: Gate, repo: Repository, cache: GateTest.Cache,
      files: seq<string>)
    requires IsGate(tree, ask)
    ensures var next := After(ask, repo, cache, files);
      GateTest.Kept(tree, cache, next) && AllSettled(repo, tree, next, files)
  {
    if files != [] {
      var n := |files| - 1;
      PassSettles(tree, ask, repo, cache, files[..n]);
      StepSettles(tree, ask, repo, cache, After(ask, repo, cache, files[..n]), files[..n], files[n]);
      assert files[..n] + [files[n]] == files;
    }
  }

  lemma StepSettles(tree: GateTest.Files, ask: Gate, repo: Repository, start: GateTest.Cache, cache: GateTest.Cache,
      files: seq<string>, f: string)
    requires IsGate(tree, ask)
    requires GateTest.Kept(tree, start, cache) && AllSettled(repo, tree, cache, files)
    ensures var next := AfterFile(ask, repo, cache, f);
      GateTest.Kept(tree, start, next) && AllSettled(repo, tree, next, files + [f])
  {
    FileSettles(tree, ask, repo, cache, f);
    var next := AfterFile(ask, repo, cache, f);
    forall g | g in files
      ensures Settled(repo, tree, next, g)
    {
      VerdictStands(repo, tree, cache, next, g);
    }
  }

  /** A pass over settled files changes nothing. */
  lemma {:induction false} PassIdle(tree: GateTest.Files, ask: Gate, repo: Repository, cache: GateTest.Cache,
      files: seq<string>)
    requires IsGate(tree, ask)
    requires AllSettled(repo, tree, cache, files)
    ensures After(ask, repo, cache, files) == cache
  {
    if files != [] {
      var n := |files| - 1;
      PassIdle(tree, ask, repo, cache, files[..n]);
      FileSettles(tree, ask, repo, cache, files[n]);
    }
  }

  // Ownership by what the modules reach ------------------------------------------------------

  /** The repository in which a file is gated if it reaches a module that reads the URL. */
  ghost function Reaching(repo: Repository, tree: GateTest.Files): Repository {
    repo.(gated := f => GateTest.Gated(tree, f))
  }

  /** The tree has no trap, and the answers in the cache are right; sealed. */
  ghost predicate Clean(tree: GateTest.Files, cache: GateTest.Cache) {
    forall t {:trigger Opened(t)} :: Opened(t) && t == tree ==> GateTest.NoTrap(t) && GateTest.Exact(t, cache)
  }

  lemma OpenClean(tree: GateTest.Files, cache: GateTest.Cache)
    ensures Clean(tree, cache) <==> GateTest.NoTrap(tree) && GateTest.Exact(tree, cache)
  {
    assert Opened(tree);
  }

  lemma AskingClean(tree: GateTest.Files, ask: Gate, cache: GateTest.Cache, f: string)
    requires IsGate(tree, ask) && Clean(tree, cache)
    ensures Clean(tree, ask(cache, f))
  {
    OpenGate(tree, ask);
    OpenClean(tree, cache);
    GateTest.QueryExact(tree, cache, f, []);
    OpenClean(tree, ask(cache, f));
  }

  lemma {:induction false} PassClean(tree: GateTest.Files, ask: Gate, repo: Repository, cache: GateTest.Cache,
      files: seq<string>)
    requires IsGate(tree, ask) && Clean(tree, cache)
    ensures Clean(tree, After(ask, repo, cache, files))
  {
    if files != [] {
      var n := |files| - 1;
      PassClean(tree, ask, repo, cache, files[..n]);
      AskingClean(tree, ask, After(ask, repo, cache, files[..n]), files[n]);
    }
  }

  /** Without traps a settled file has the owner that reachability gives it. */
  lemma OwnerReaches(repo: Repository, tree: GateTest.Files, cache: GateTest.Cache, f: string)
    requires IsTest(f) && Settled(repo, tree, cache, f) && Clean(tree, cache)
    ensures Owner(With(repo, tree, cache), f) == Owner(Reaching(repo, tree), f)
  {
    OpenClean(tree, cache);
    GateTest.GatedInside(tree, f);
  }

  /** After a pass over a tree without traps, every domain runs what reachability gives it. */
  lemma PassReaches(tree: GateTest.Files, ask: Gate, repo: Repository, cache: GateTest.Cache, f: string, d: string)
    requires IsGate(tree, ask) && Clean(tree, cache) && f in repo.files
    ensures RunBy(With(repo, tree, After(ask, repo, cache, repo.files)), f, d) <==> RunBy(Reaching(repo, tree), f, d)
  {
    PassClean(tree, ask, repo, cache, repo.files);
    PassSettles(tree, ask, repo, cache, repo.files);
    if IsTest(f) {
      OwnerReaches(repo, tree, After(ask, repo, cache, repo.files), f);
    }
  }

  lemma TargetsReach(tree: GateTest.Files, ask: Gate, repo: Repository, cache: GateTest.Cache, domain: string,
      targets: seq<string>)
    requires IsGate(tree, ask) && Clean(tree, cache)
    requires TargetsOf(With(repo, tree, After(ask, repo, cache, repo.files)), domain, targets)
    ensures TargetsOf(Reaching(repo, tree), domain, targets)
  {
    var asked := With(repo, tree, After(ask, repo, cache, repo.files));
    forall f
      ensures multiset(targets)[f] == if RunBy(Reaching(repo, tree), f, domain) then multiset(repo.files)[f] else 0
    {
      if f in repo.files {
        PassReaches(tree, ask, repo, cache, f, domain);
      } else {
        assert f !in multiset(repo.files);
      }
    }
  }

  lemma TestsReach(tree: GateTest.Files, ask: Gate, repo: Repository, cache: GateTest.Cache, domain: string)
    requires IsGate(tree, ask) && Clean(tree, cache)
    ensures TestsOf(With(repo, tree, After(ask, repo, cache, repo.files)), domain) ==
            TestsOf(Reaching(repo, tree), domain)
  {
    forall f | f in repo.files
      ensures RunBy(With(repo, tree, After(ask, repo, cache, repo.files)), f, domain) <==>
              RunBy(Reaching(repo, tree), f, domain)
    {
      PassReaches(tree, ask, repo, cache, f, domain);
    }
  }

  /** Without traps a repository is accepted if and only if it is partitioned by reachability. */
  lemma ValidatedReaches(tree: GateTest.Files, ask: Gate, repo: Repository, cache: GateTest.Cache,
      r: Result<map<string, nat>, PartitionError>)
    requires IsGate(tree, ask) && Clean(tree, cache)
    requires Validated(With(repo, tree, After(ask, repo, cache, repo.files)), r)
    ensures Validated(Reaching(repo, tree), r)
  {
    var asked := With(repo, tree, After(ask, repo, cache, repo.files));
    forall d
      ensures TestsOf(asked, d) == TestsOf(Reaching(repo, tree), d)
    {
      TestsReach(tree, ask, repo, cache, d);
    }
    assert Configured(asked) == Configured(Reaching(repo, tree));
  }

  /** A repository that cannot be assigned is not partitioned, whatever the gate says. */
  lemma UnownedReaches(repo: Repository, asked: Repository, tree: GateTest.Files,
      r: Result<map<string, nat>, PartitionError>)
    requires asked == repo.(gated := asked.gated) && !Owned(asked) && r.Err? && r.error.InvalidOwner?
    ensures Validated(Reaching(repo, tree), r)
  {
  }

  // Ownership with the gate -----------------------------------------------------------------

  method AskGate(gate: GateTest.GateCache, tree: GateTest.Files, ghost ask: Gate, relative: string)
      returns (gated: bool)
    requires IsGate(tree, ask)
    modifies gate
    ensures gate.cache == ask(old(gate.cache), relative) && gated == Standing(tree, gate.cache)(relative)
  {
    OpenGate(tree, ask);
    GateTest.QueryKeeps(tree, gate.cache, relative, []);
    gated := gate.Gated(tree, relative, []);
  }

  /** `_test_owner`: the gate is asked only when nothing before it decides. */
  method TestOwner(gate: GateTest.GateCache, repo: Repository, tree: GateTest.Files, ghost ask: Gate, relative: string)
      returns (owner: Option<string>)
    requires IsTest(relative)
    requires IsGate(tree, ask)
    modifies gate
    ensures gate.cache == AfterFile(ask, repo, old(gate.cache), relative)
    ensures owner == Owner(With(repo, tree, gate.cache), relative)
  {
    var config := repo.config;
    if relative in config.sharedFiles {
      return Some(Group("shared"));
    }
    if relative in config.excluded {
      return None;
    }
    if InPostgres(config, relative) {
      return Some(Group(POSTGRES));
    }
    var gated := AskGate(gate, tree, ask, relative);
    if gated {
      return Some(Group(POSTGRES));
    }
    if relative in config.faultRunnerFiles {
      return Some(Group(FAULT_RUNNER));
    }
    if HasPrefix(config.deploymentPrefixes, relative) || HasGlob(repo, relative) {
      return Some(Group(DEPLOYMENT));
    }
    return Some(Group(RUNTIME));
  }

  method Judge(gate: GateTest.GateCache, repo: Repository, tree: GateTest.Files, ghost ask: Gate, relative: string)
      returns (verdict: Verdict)
    requires IsGate(tree, ask)
    modifies gate
    ensures gate.cache == AfterFile(ask, repo, old(gate.cache), relative)
    ensures verdict == Classify(With(repo, tree, gate.cache), relative)
  {
    if !IsTest(relative) {
      return Skip;
    }
    var owner := TestOwner(gate, repo, tree, ask, relative);
    if owner.None? {
      return if relative in repo.config.excluded then Skip else Fail(Unclassified(relative));
    }
    var domain := RemoveSuffix(owner.value, "_tests");
    return if domain in TEST_DOMAINS then Assign(domain) else Fail(InvalidOwner(relative));
  }

  /** One more file judged: what was assigned so far is what the later answers say, too. */
  lemma JudgedNext(tree: GateTest.Files, ask: Gate, repo: Repository, cache: GateTest.Cache, files: seq<string>,
      f: string,
      owners: map<string, string>, counts: map<string, nat>)
    requires IsGate(tree, ask)
    requires AllSettled(repo, tree, cache, files) && Assigning(Verdicts(With(repo, tree, cache)), files, owners, counts)
    ensures var next := AfterFile(ask, repo, cache, f);
      && AllSettled(repo, tree, next, files + [f])
      && Assigning(Verdicts(With(repo, tree, next)), files, owners, counts)
  {
    var next := AfterFile(ask, repo, cache, f);
    FileSettles(tree, ask, repo, cache, f);
    forall g | g in files
      ensures Classify(With(repo, tree, next), g) == Classify(With(repo, tree, cache), g)
      ensures Settled(repo, tree, next, g)
    {
      VerdictStands(repo, tree, cache, next, g);
    }
    AssigningAgree(Verdicts(With(repo, tree, cache)), Verdicts(With(repo, tree, next)), files, owners, counts);
  }

  /** The assignment loop: the sizes of the domains, or the first file that cannot be assigned. */
  method AssignFiles(gate: GateTest.GateCache, repo: Repository, tree: GateTest.Files, ghost ask: Gate)
      returns (r: Result<map<string, nat>, PartitionError>)
    requires IsGate(tree, ask)
    modifies gate
    ensures var verdict := Verdicts(With(repo, tree, gate.cache));
      && (r.Ok? <==> Assignable(verdict, repo.files))
      && (r.Ok? ==> r.value.Keys == Elems(TEST_DOMAINS))
      && (r.Ok? ==> forall d :: d in r.value ==> r.value[d] == |AssignedTo(verdict, repo.files, d)|)
    ensures r.Ok? ==> gate.cache == After(ask, repo, old(gate.cache), repo.files)
    ensures r.Err? ==> r.error.InvalidOwner? && r.error.relative in repo.files
  {
    var owners: map<string, string>, counts := map[], NO_TESTS;
    assert counts.Keys == Elems(TEST_DOMAINS);
    for k := 0 to |repo.files|
      invariant gate.cache == After(ask, repo, old(gate.cache), repo.files[..k])
      invariant AllSettled(repo, tree, gate.cache, repo.files[..k])
      invariant Assigning(Verdicts(With(repo, tree, gate.cache)), repo.files[..k], owners, counts)
      invariant counts.Keys == Elems(TEST_DOMAINS)
    {
      var relative := repo.files[k];
      ghost var done := repo.files[..k];
      assert repo.files[..k + 1] == done + [relative];
      AfterNext(ask, repo, old(gate.cache), done, relative);
      JudgedNext(tree, ask, repo, gate.cache, done, relative, owners, counts);
      var v := Judge(gate, repo, tree, ask, relative);
      ghost var verdict := Verdicts(With(repo, tree, gate.cache));
      VerdictsFit(With(repo, tree, gate.cache));
      var next := AssignNext(verdict, done, v, relative, owners, counts);
      if next.Err? {
        if Assignable(verdict, repo.files) {
          AssignablePrefix(verdict, repo.files, k + 1);
        }
        return Err(next.error);
      }
      owners, counts := next.value.0, next.value.1;
    }
    assert repo.files[..|repo.files|] == repo.files;
    r := Ok(counts);
  }

  /**
   `validate_test_partition`: accepts exactly the repositories that are partitioned
   by the owners the gate's answers give; the counts are the sizes of the domains.
   */
  method ValidateTestPartition(gate: GateTest.GateCache, repo: Repository, tree: GateTest.Files, ghost ask: Gate)
      returns (r: Result<map<string, nat>, PartitionError>)
    requires IsGate(tree, ask)
    modifies gate
    ensures Validated(With(repo, tree, gate.cache), r)
    ensures Clean(tree, old(gate.cache)) ==> Validated(Reaching(repo, tree), r)
    ensures r.Ok? ==> gate.cache == After(ask, repo, old(gate.cache), repo.files)
  {
    r := AssignFiles(gate, repo, tree, ask);
    ghost var asked := With(repo, tree, gate.cache);
    OwnedIsAssignable(asked);
    if r.Err? {
      UnownedReaches(repo, asked, tree, r);
      return;
    }
    r := CheckRest(repo, asked, r.value);
    if Clean(tree, old(gate.cache)) {
      ValidatedReaches(tree, ask, repo, old(gate.cache), r);
    }
  }

  /** The checks after the loop do not ask the gate. */
  method CheckRest(repo: Repository, ghost asked: Repository, counts: map<string, nat>)
      returns (r: Result<map<string, nat>, PartitionError>)
    requires asked == repo.(gated := asked.gated) && Owned(asked) && counts.Keys == Elems(TEST_DOMAINS)
    requires forall d :: d in counts ==> counts[d] == |AssignedTo(Verdicts(asked), asked.files, d)|
    ensures Validated(asked, r) && (r.Ok? ==> r.value == counts)
  {
    CountsAreSizes(asked, counts);
    var missing := MissingConfigured(repo);
    assert Configured(asked) == Configured(repo);
    if missing != [] {
      return Err(MissingTests(missing));
    }
    if exists d :: d in counts && counts[d] == 0 {
      return Err(EmptyDomain);
    }
    return Ok(counts);
  }

  // The targets of a shard ---------------------------------------------------------------

  ghost function RunIn(repo: Repository, domain: string): string -> bool {
    f => RunBy(repo, f, domain)
  }

  /** The targets are the files that are run, as often as listed. */
  ghost predicate Selected(run: string -> bool, files: seq<string>, targets: seq<string>) {
    forall f :: multiset(targets)[f] == if run(f) then multiset(files)[f] else 0
  }

  lemma RunStands(repo: Repository, tree: GateTest.Files, cache: GateTest.Cache, later: GateTest.Cache, domain: string,
      f: string)
    requires Settled(repo, tree, cache, f) && GateTest.Kept(tree, cache, later)
    ensures RunBy(With(repo, tree, cache), f, domain) == RunBy(With(repo, tree, later), f, domain)
    ensures Settled(repo, tree, later, f)
  {
    VerdictStands(repo, tree, cache, later, f);
    if IsTest(f) {
      OwnerStands(repo, tree, cache, later, f);
    }
  }

  lemma SelectedNext(tree: GateTest.Files, ask: Gate, repo: Repository, cache: GateTest.Cache, domain: string,
      files: seq<string>, f: string, targets: seq<string>)
    requires IsGate(tree, ask)
    requires AllSettled(repo, tree, cache, files) && Selected(RunIn(With(repo, tree, cache), domain), files, targets)
    ensures var next := AfterFile(ask, repo, cache, f);
      && AllSettled(repo, tree, next, files + [f])
      && var run := RunIn(With(repo, tree, next), domain);
         Selected(run, files + [f], targets + if run(f) then [f] else [])
  {
    var next := AfterFile(ask, repo, cache, f);
    RunsAgree(tree, ask, repo, cache, domain, files, f, next);
    SelectedAdd(RunIn(With(repo, tree, cache), domain), RunIn(With(repo, tree, next), domain), files, f, targets);
  }

  lemma RunsAgree(tree: GateTest.Files, ask: Gate, repo: Repository, cache: GateTest.Cache, domain: string,
      files: seq<string>, f: string, next: GateTest.Cache)
    requires IsGate(tree, ask) && AllSettled(repo, tree, cache, files) && next == AfterFile(ask, repo, cache, f)
    ensures AllSettled(repo, tree, next, files + [f])
    ensures Agree(RunIn(With(repo, tree, cache), domain), RunIn(With(repo, tree, next), domain), files)
  {
    FileSettles(tree, ask, repo, cache, f);
    forall g | g in files
      ensures RunIn(With(repo, tree, cache), domain)(g) == RunIn(With(repo, tree, next), domain)(g)
      ensures Settled(repo, tree, next, g)
    {
      RunStands(repo, tree, cache, next, domain, g);
    }
  }

  ghost predicate Agree(before: string -> bool, after: string -> bool, files: seq<string>) {
    forall g :: g in files ==> before(g) == after(g)
  }

  lemma SelectedAdd(before: string -> bool, after: string -> bool, files: seq<string>, f: string, targets: seq<string>)
    requires Agree(before, after, files) && Selected(before, files, targets)
    ensures Selected(after, files + [f], targets + if after(f) then [f] else [])
  {
    var more := targets + if after(f) then [f] else [];
    forall g
      ensures multiset(more)[g] == if after(g) then multiset(files + [f])[g] else 0
    {
      assert g in files <==> g in multiset(files);
      assert multiset(more) == multiset(targets) + multiset(if after(f) then [f] else []);
      assert multiset(files + [f]) == multiset(files) + multiset{f};
    }
  }

  method SelectFiles(gate: GateTest.GateCache, repo: Repository, tree: GateTest.Files, ghost ask: Gate, domain: string)
      returns (targets: seq<string>)
    requires IsGate(tree, ask)
    modifies gate
    ensures gate.cache == After(ask, repo, old(gate.cache), repo.files)
    ensures Selected(RunIn(With(repo, tree, gate.cache), domain), repo.files, targets)
  {
    targets := [];
    for k := 0 to |repo.files|
      invariant gate.cache == After(ask, repo, old(gate.cache), repo.files[..k])
      invariant AllSettled(repo, tree, gate.cache, repo.files[..k])
      invariant Selected(RunIn(With(repo, tree, gate.cache), domain), repo.files[..k], targets)
    {
      var relative := repo.files[k];
      assert repo.files[..k + 1] == repo.files[..k] + [relative];
      AfterNext(ask, repo, old(gate.cache), repo.files[..k], relative);
      SelectedNext(tree, ask, repo, gate.cache, domain, repo.files[..k], relative, targets);
      if IsTest(relative) {
        var owner := TestOwner(gate, repo, tree, ask, relative);
        if owner == Some(Group(domain)) {
          targets := targets + [relative];
        }
      }
    }
    assert repo.files[..|repo.files|] == repo.files;
  }

  datatype TargetError = UnknownShard | NoTargets

  /** `pytest_targets`: the files of a shard, or of a whole domain, by the owners the gate's answers give. */
  method PytestTargets(gate: GateTest.GateCache, repo: Repository, tree: GateTest.Files, ghost ask: Gate, shard: string)
      returns (r: Result<seq<string>, TargetError>)
    requires IsGate(tree, ask)
    modifies gate
    ensures r == Err(UnknownShard) <==> shard !in SHARDS && shard !in TEST_DOMAINS
    ensures r != Err(UnknownShard) ==> gate.cache == After(ask, repo, old(gate.cache), repo.files)
    ensures r == Err(NoTargets) ==> TestsOf(With(repo, tree, gate.cache), LogicalDomain(shard)) == {}
    ensures r.Ok? ==> r.value != [] && TargetsOf(With(repo, tree, gate.cache), LogicalDomain(shard), r.value)
    ensures Clean(tree, old(gate.cache)) ==>
      && (r == Err(NoTargets) ==> TestsOf(Reaching(repo, tree), LogicalDomain(shard)) == {})
      && (r.Ok? ==> TargetsOf(Reaching(repo, tree), LogicalDomain(shard), r.value))
  {
    if shard !in SHARDS && shard !in TEST_DOMAINS {
      return Err(UnknownShard);
    }
    var domain := LogicalDomain(shard);
    var targets := SelectFiles(gate, repo, tree, ask, domain);
    if targets == [] {
      NothingSelected(With(repo, tree, gate.cache), domain, targets);
      if Clean(tree, old(gate.cache)) {
        TestsReach(tree, ask, repo, old(gate.cache), domain);
      }
      return Err(NoTargets);
    }
    StringOrder();
    SortSorted(targets, StringLeq);
    r := Ok(Sort(targets, StringLeq));
    if Clean(tree, old(gate.cache)) {
      TargetsReach(tree, ask, repo, old(gate.cache), domain, r.value);
    }
  }

  lemma NothingSelected(repo: Repository, domain: string, targets: seq<string>)
    requires Selected(RunIn(repo, domain), repo.files, targets) && targets == []
    ensures TestsOf(repo, domain) == {}
  {
    forall f | f in repo.files
      ensures !RunBy(repo, f, domain)
    {
      assert f in multiset(repo.files) && multiset(targets)[f] == 0;
    }
  }

  // All processes agree ----------------------------------------------------------------------

  /** The one ownership of a repository: what a pass from an empty cache is told. */
  ghost function Owning(tree: GateTest.Files, ask: Gate, repo: Repository): Repository {
    With(repo, tree, After(ask, repo, map[], repo.files))
  }

  /** A further pass over the repository changes no answer. */
  lemma PassesAgree(tree: GateTest.Files, ask: Gate, repo: Repository)
    requires IsGate(tree, ask)
    ensures var cache := After(ask, repo, map[], repo.files); After(ask, repo, cache, repo.files) == cache
  {
    PassSettles(tree, ask, repo, map[], repo.files);
    PassIdle(tree, ask, repo, After(ask, repo, map[], repo.files), repo.files);
  }

  /** The file is configured as a PostgreSQL test, or it reaches a module that reads the URL. */
  ghost predicate ReachesPostgres(repo: Repository, tree: GateTest.Files, f: string) {
    f in repo.config.postgresFiles || "tests/store/_postgres" <= f || GateTest.Gated(tree, f)
  }

  lemma PostgresTargets(repo: Repository, tree: GateTest.Files, targets: seq<string>)
    requires TargetsOf(Reaching(repo, tree), "postgres", targets)
    ensures forall f :: f in targets <==> f in repo.files && Belongs(repo, f) && ReachesPostgres(repo, tree, f)
  {
    forall f
      ensures f in targets <==> f in repo.files && Belongs(repo, f) && ReachesPostgres(repo, tree, f)
    {
      RunByExact(Reaching(repo, tree), f);
      assert f in targets <==> multiset(targets)[f] > 0;
      assert f in repo.files <==> multiset(repo.files)[f] > 0;
    }
  }

  /** A job that only asks for its targets is told them by the one ownership. */
  method TargetJob(repo: Repository, tree: GateTest.Files, shard: string)
      returns (targets: Result<seq<string>, TargetError>)
    ensures targets.Ok? ==> TargetsOf(Owning(tree, GateOf(tree), repo), LogicalDomain(shard), targets.value)
    ensures targets == Err(NoTargets) ==> TestsOf(Owning(tree, GateOf(tree), repo), LogicalDomain(shard)) == {}
    ensures GateTest.NoTrap(tree) && targets.Ok? ==>
      TargetsOf(Reaching(repo, tree), LogicalDomain(shard), targets.value)
    ensures GateTest.NoTrap(tree) && targets.Ok? && LogicalDomain(shard) == "postgres" ==>
      forall f :: f in targets.value <==> f in repo.files && Belongs(repo, f) && ReachesPostgres(repo, tree, f)
  {
    ghost var ask := GateOf(tree);
    OpenGate(tree, ask);
    OpenClean(tree, map[]);
    var gate := new GateTest.GateCache();
    targets := PytestTargets(gate, repo, tree, ask, shard);
    if GateTest.NoTrap(tree) && targets.Ok? && LogicalDomain(shard) == "postgres" {
      PostgresTargets(repo, tree, targets.value);
    }
  }

  /**
   A job that validates the partition first is told the same: in an accepted
   repository every shard has targets, and they are the files its domain owns.
   */
  method ShardJob(repo: Repository, tree: GateTest.Files, shard: string)
      returns (counts: Result<map<string, nat>, PartitionError>, targets: Result<seq<string>, TargetError>)
    ensures counts.Ok? ==> Validated(Owning(tree, GateOf(tree), repo), counts)
    ensures counts.Ok? && shard in SHARDS ==> targets.Ok? && Distinct(targets.value)
    ensures counts.Ok? && shard in SHARDS ==>
      Elems(targets.value) == TestsOf(Owning(tree, GateOf(tree), repo), LogicalDomain(shard))
    ensures GateTest.NoTrap(tree) ==> Validated(Reaching(repo, tree), counts)
  {
    ghost var ask := GateOf(tree);
    OpenGate(tree, ask);
    OpenClean(tree, map[]);
    var gate := new GateTest.GateCache();
    counts := ValidateTestPartition(gate, repo, tree, ask);
    PassesAgree(tree, ask, repo);
    targets := PytestTargets(gate, repo, tree, ask, shard);
    if counts.Ok? && shard in SHARDS {
      TargetsExist(Owning(tree, ask, repo), shard, targets);
    }
  }

  lemma TargetsExist(repo: Repository, shard: string, targets: Result<seq<string>, TargetError>)
    requires Partitioned(repo) && shard in SHARDS && targets != Err(UnknownShard)
    requires targets == Err(NoTargets) ==> TestsOf(repo, LogicalDomain(shard)) == {}
    requires targets.Ok? ==> TargetsOf(repo, LogicalDomain(shard), targets.value)
    ensures targets.Ok? && Distinct(targets.value) && Elems(targets.value) == TestsOf(repo, LogicalDomain(shard))
  {
    var d, index := ShardShape(shard);
    match targets
    case Ok(found) => TargetsDistinct(repo, LogicalDomain(shard), found);
    case Err(NoTargets) =>
    case Err(UnknownShard) =>
  }
}
