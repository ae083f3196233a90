/**
 The partition of the repository's tests: every test file is owned by one
 domain, a domain is cut into physical shards, and a shard takes the test ids
 whose hash falls into its slot.
 */
module TestPartition {
  import opened Orders
  import opened Paths
  import opened Wrappers

  // Domains and shards -------------------------------------------------------------

  const RUNTIME := "runtime"
  const DEPLOYMENT := "deployment"
  const FAULT_RUNNER := "fault_runner"
  const POSTGRES := "postgres"

  const TEST_DOMAINS := [RUNTIME, DEPLOYMENT, FAULT_RUNNER, POSTGRES]

  /** The domains cut into shards, with the number of their shards. */
  const PARTITIONED: map<string, nat> := map[RUNTIME := 3, DEPLOYMENT := 4, POSTGRES := 4]

  function Digit(n: nat): char
    requires n < 10
  {
    '0' + n as char
  }

  predicate IsDigit(c: char) {
    '0' <= c <= '9'
  }

  function Decimal(n: nat): (s: string)
    ensures s != "" && forall k :: 0 <= k < |s| ==> IsDigit(s[k])
  {
    if n < 10 then [Digit(n)] else Decimal(n / 10) + [Digit(n % 10)]
  }

  predicate IsDecimal(s: string) {
    s != "" && forall k :: 0 <= k < |s| ==> IsDigit(s[k])
  }

  /** `int(s)`. */
  function ToInt(s: string): nat
    requires forall k :: 0 <= k < |s| ==> IsDigit(s[k])
  {
    if s == "" then 0 else
      assert IsDigit(s[|s| - 1]);
      10 * ToInt(s[..|s| - 1]) + (s[|s| - 1] as int - '0' as int)
  }

  lemma {:induction false} DecimalRoundTrip(n: nat)
    ensures ToInt(Decimal(n)) == n
  {
    var s := Decimal(n);
    if n < 10 {
      assert s[..|s| - 1] == "";
    } else {
      DecimalRoundTrip(n / 10);
      assert s[..|s| - 1] == Decimal(n / 10);
    }
  }

  function ShardName(domain: string, index: nat): string {
    domain + "_" + Decimal(index)
  }

  function PartitionShards(domain: string): (r: seq<string>)
    requires domain in PARTITIONED
  {
    seq(PARTITIONED[domain], k requires 0 <= k < PARTITIONED[domain] => ShardName(domain, k))
  }

  const SHARDS :=
    PartitionShards(RUNTIME) + PartitionShards(DEPLOYMENT) + [FAULT_RUNNER] + PartitionShards(POSTGRES)

  /** The test domain a shard, or a domain itself, belongs to. */
  function LogicalDomain(shard: string): string {
    if shard in TEST_DOMAINS then shard
    else
      var k := LastIndex(shard, '_');
      if k >= 0 && shard[..k] in PARTITIONED && IsDecimal(shard[k + 1..]) then shard[..k] else shard
  }

  datatype Slot = Slot(count: nat, index: nat)

  /** The slot of a shard in its domain; none where the domain runs whole. */
  function ShardPartition(shard: string): Option<Option<Slot>> {
    if shard !in SHARDS then None
    else
      var domain := LogicalDomain(shard);
      if domain == shard then Some(None)
      else
        var k := LastIndex(shard, '_');
        assert k >= 0 && domain == shard[..k] && IsDecimal(shard[k + 1..]);
        Some(Some(Slot(PARTITIONED[domain], ToInt(shard[k + 1..]))))
  }

  lemma LastUnderscore(domain: string, digits: string)
    requires IsDecimal(digits)
    ensures var s := domain + "_" + digits; var k := LastIndex(s, '_');
      k == |domain| && s[..k] == domain && s[k + 1..] == digits && IsDigit(s[|s| - 1])
  {
    var s := domain + "_" + digits;
    assert s[|domain|] == '_';
    assert forall i :: |domain| < i < |s| ==> s[i] == digits[i - |domain| - 1] && IsDigit(s[i]);
  }

  lemma ShardRoundTrip(domain: string, index: nat)
    requires domain in PARTITIONED
    ensures var s := ShardName(domain, index);
      var k := LastIndex(s, '_');
      && k == |domain| && s[..k] == domain && s[k + 1..] == Decimal(index)
      && LogicalDomain(s) == domain && s !in TEST_DOMAINS
  {
    LastUnderscore(domain, Decimal(index));
    NotADomain(ShardName(domain, index));
  }

  /** No domain name ends in a digit. */
  lemma NotADomain(s: string)
    requires s != "" && IsDigit(s[|s| - 1])
    ensures s !in TEST_DOMAINS
  {
  }

  lemma ShardAt(k: nat) returns (domain: string, index: nat)
    requires k < |SHARDS| && k != 7
    ensures domain in PARTITIONED && index < PARTITIONED[domain] && SHARDS[k] == ShardName(domain, index)
  {
    if k < 3 {
      domain, index := RUNTIME, k;
    } else if k < 7 {
      domain, index := DEPLOYMENT, k - 3;
    } else {
      domain, index := POSTGRES, k - 8;
    }
    assert SHARDS[k] == PartitionShards(domain)[index];
  }

  /** Every shard is the one domain that runs whole, or a numbered slot of a partitioned one. */
  lemma ShardShape(shard: string) returns (domain: string, index: nat)
    requires shard in SHARDS
    ensures domain == LogicalDomain(shard)
    ensures domain == shard ==> shard == FAULT_RUNNER && ShardPartition(shard) == Some(None)
    ensures domain != shard ==>
      domain in PARTITIONED && index < PARTITIONED[domain] && shard == ShardName(domain, index)
  {
    var k :| 0 <= k < |SHARDS| && SHARDS[k] == shard;
    if k == 7 {
      domain, index := FAULT_RUNNER, 0;
    } else {
      domain, index := ShardAt(k);
      ShardRoundTrip(domain, index);
    }
  }

  /** The shard of a slot exists and is given back its slot. */
  lemma SlotShard(domain: string, index: nat)
    requires domain in PARTITIONED && index < PARTITIONED[domain]
    ensures ShardName(domain, index) in SHARDS
    ensures ShardPartition(ShardName(domain, index)) == Some(Some(Slot(PARTITIONED[domain], index)))
  {
    var shard := ShardName(domain, index);
    var k := index + if domain == RUNTIME then 0 else if domain == DEPLOYMENT then 3 else 8;
    assert SHARDS[k] == shard;
    ShardRoundTrip(domain, index);
    DecimalRoundTrip(index);
  }

  // Slices ---------------------------------------------------------------------------

  /** The slot of a test id: `hash` stands for the first eight bytes of its SHA-256, as a number. */
  function PartitionFor(hash: string -> nat, nodeid: string, count: nat): (r: nat)
    requires count >= 1
    ensures r < count
  {
    hash(nodeid) % count
  }

  /** A shard runs a test id of its domain. */
  predicate Takes(hash: string -> nat, shard: string, nodeid: string) {
    match ShardPartition(shard)
    case None => false
    case Some(None) => true
    case Some(Some(slot)) => slot.count >= 1 && PartitionFor(hash, nodeid, slot.count) == slot.index
  }

  function ShardFor(hash: string -> nat, domain: string, nodeid: string): string {
    if domain in PARTITIONED && PARTITIONED[domain] >= 1
    then ShardName(domain, PartitionFor(hash, nodeid, PARTITIONED[domain]))
    else domain
  }

  /** Within a domain every test id is taken by one physical shard and by no other. */
  lemma OneShard(hash: string -> nat, domain: string, nodeid: string)
    requires domain in TEST_DOMAINS
    ensures ShardFor(hash, domain, nodeid) in SHARDS
    ensures forall s :: s in SHARDS ==>
      (LogicalDomain(s) == domain && Takes(hash, s, nodeid) <==> s == ShardFor(hash, domain, nodeid))
  {
    var owner := ShardFor(hash, domain, nodeid);
    if domain in PARTITIONED {
      var slot := PartitionFor(hash, nodeid, PARTITIONED[domain]);
      SlotShard(domain, slot);
      ShardRoundTrip(domain, slot);
    } else {
      assert SHARDS[7] == owner;
    }
    forall s | s in SHARDS
      ensures LogicalDomain(s) == domain && Takes(hash, s, nodeid) <==> s == owner
    {
      var d, index := ShardShape(s);
      if d != s {
        SlotShard(d, index);
      }
    }
  }

  // Ownership ------------------------------------------------------------------------

  datatype Config = Config(
    sharedFiles: set<string>,
    excluded: set<string>,
    postgresFiles: set<string>,
    faultRunnerFiles: set<string>,
    deploymentPrefixes: seq<string>,
    deploymentGlobs: seq<string>)

  /** The repository as the partition reads it: its files, its configuration and what is asked of a file. */
  datatype Repository = Repository(
    files: seq<string>,
    config: Config,
    gated: string -> bool,
    globMatch: (string, string) -> bool,
    isFile: string -> bool)

  predicate IsTest(relative: string) {
    "tests/" <= relative && "test_" <= Name(relative) && Suffix(Name(relative)) == ".py"
  }

  /** The file test of the argument builder picks the same files as the one of the partition. */
  lemma TestFilesAgree(relative: string)
    ensures IsTest(relative) <==> "tests/" <= relative && "test_" <= Name(relative) && EndsWith(Name(relative), ".py")
  {
    if "test_" <= Name(relative) {
      assert Name(relative)[0] == "test_"[0];
      SuffixIsEnding(Name(relative));
    }
  }

  /** The identity group of the test files of a domain. */
  function Group(domain: string): string {
    domain + "_tests"
  }

  predicate HasPrefix(prefixes: seq<string>, relative: string) {
    exists p :: p in prefixes && p <= relative
  }

  predicate HasGlob(repo: Repository, relative: string) {
    exists p :: p in repo.config.deploymentGlobs && repo.globMatch(relative, p)
  }

  predicate InPostgres(config: Config, relative: string) {
    relative in config.postgresFiles || "tests/store/_postgres" <= relative
  }

  /** The identity group a test file belongs to; none if it is excluded from coverage. */
  function Owner(repo: Repository, relative: string): Option<string> {
    var config := repo.config;
    if relative in config.sharedFiles then Some(Group("shared"))
    else if relative in config.excluded then None
    else if InPostgres(config, relative) || repo.gated(relative) then Some(Group(POSTGRES))
    else if relative in config.faultRunnerFiles then Some(Group(FAULT_RUNNER))
    else if HasPrefix(config.deploymentPrefixes, relative) then Some(Group(DEPLOYMENT))
    else if HasGlob(repo, relative) then Some(Group(DEPLOYMENT))
    else Some(Group(RUNTIME))
  }

  function RemoveSuffix(s: string, t: string): string {
    if t != "" && EndsWith(s, t) then s[..|s| - |t|] else s
  }

  /** A file is run by a domain. */
  predicate RunBy(repo: Repository, relative: string, domain: string) {
    IsTest(relative) && Owner(repo, relative) == Some(Group(domain))
  }

  lemma GroupDomain(domain: string)
    ensures RemoveSuffix(Group(domain), "_tests") == domain
  {
    assert EndsWith(Group(domain), "_tests");
  }

  /** A test file that belongs to a domain: it is neither shared nor excluded. */
  predicate Belongs(repo: Repository, f: string) {
    IsTest(f) && f !in repo.config.sharedFiles && f !in repo.config.excluded
  }

  /** A file that needs the database: it is listed, a store test by its name, or reads the URL itself or by import. */
  predicate NeedsPostgres(repo: Repository, f: string) {
    f in repo.config.postgresFiles || "tests/store/_postgres" <= f || repo.gated(f)
  }

  lemma GroupInjective(a: string, b: string)
    ensures Group(a) == Group(b) <==> a == b
  {
    GroupDomain(a);
    GroupDomain(b);
  }

  lemma GroupsDiffer()
    ensures Group("postgres") != Group("fault_runner") && Group("postgres") != Group("deployment")
    ensures Group("postgres") != Group("runtime") && Group("fault_runner") != Group("deployment")
    ensures Group("fault_runner") != Group("runtime") && Group("deployment") != Group("runtime")
    ensures forall d :: d in TEST_DOMAINS ==> Group(d) != Group("shared")
  {
    var a, b, c, d, e := "postgres", "fault_runner", "deployment", "runtime", "shared";
    assert a[0] != b[0] && a[0] != c[0] && a[0] != d[0] && b[0] != c[0] && b[0] != d[0] && c[0] != d[0];
    assert e[0] != a[0] && e[0] != b[0] && e[0] != c[0] && e[0] != d[0];
    GroupInjective(a, b);
    GroupInjective(a, c);
    GroupInjective(a, d);
    GroupInjective(b, c);
    GroupInjective(b, d);
    GroupInjective(c, d);
    forall x | x in TEST_DOMAINS
      ensures Group(x) != Group(e)
    {
      GroupInjective(x, e);
    }
  }

  /** The group of a file, told by the configuration and the gate. */
  lemma OwnerCases(repo: Repository, f: string, owner: Option<string>)
    requires owner == Owner(repo, f)
    ensures var config := repo.config;
      if f in config.sharedFiles then owner == Some(Group("shared"))
      else if f in config.excluded then owner == None
      else if NeedsPostgres(repo, f) then owner == Some(Group("postgres"))
      else if f in config.faultRunnerFiles then owner == Some(Group("fault_runner"))
      else owner == Some(Group(if ForDeployment(repo, f) then "deployment" else "runtime"))
  {
  }

  predicate ForDeployment(repo: Repository, f: string) {
    || (exists p :: p in repo.config.deploymentPrefixes && p <= f)
    || (exists p :: p in repo.config.deploymentGlobs && repo.globMatch(f, p))
  }

  /** A shared file has an owner that is no domain, an excluded one none, every other one exactly one domain. */
  lemma OwnerDomain(repo: Repository, relative: string)
    ensures Owner(repo, relative) == None <==> relative in repo.config.excluded && relative !in repo.config.sharedFiles
    ensures Owner(repo, relative).Some? ==>
      var d := RemoveSuffix(Owner(repo, relative).value, "_tests");
      (d in TEST_DOMAINS <==> relative !in repo.config.sharedFiles) && Owner(repo, relative).value == Group(d)
  {
    OwnerCases(repo, relative, Owner(repo, relative));
    assert "shared"[0] == 's';
    forall d: string
      ensures RemoveSuffix(Group(d), "_tests") == d
    {
      GroupDomain(d);
    }
  }

  /** Which domain runs a file, told by the configuration and the gate. */
  lemma RunByExact(repo: Repository, f: string)
    ensures RunBy(repo, f, "postgres") <==> Belongs(repo, f) && NeedsPostgres(repo, f)
    ensures RunBy(repo, f, "fault_runner") <==>
      Belongs(repo, f) && !NeedsPostgres(repo, f) && f in repo.config.faultRunnerFiles
    ensures RunBy(repo, f, "deployment") <==>
      Belongs(repo, f) && !NeedsPostgres(repo, f) && f !in repo.config.faultRunnerFiles && ForDeployment(repo, f)
    ensures RunBy(repo, f, "runtime") <==>
      Belongs(repo, f) && !NeedsPostgres(repo, f) && f !in repo.config.faultRunnerFiles && !ForDeployment(repo, f)
  {
    GroupsDiffer();
    OwnerCases(repo, f, Owner(repo, f));
    assert "postgres" in TEST_DOMAINS && "fault_runner" in TEST_DOMAINS;
    assert "deployment" in TEST_DOMAINS && "runtime" in TEST_DOMAINS;
  }

  // Assigning files to domains ----------------------------------------------------------

  datatype PartitionError =
    | Unclassified(relative: string)
    | InvalidOwner(relative: string)
    | MissingTests(relatives: seq<string>)
    | EmptyDomain

  datatype Verdict = Skip | Assign(domain: string) | Fail(error: PartitionError)

  /** What the validation makes of one repository file, whatever came before it. */
  function Classify(repo: Repository, relative: string): Verdict {
    if !IsTest(relative) then Skip
    else
      match Owner(repo, relative)
      case None => if relative in repo.config.excluded then Skip else Fail(Unclassified(relative))
      case Some(owner) =>
        var domain := RemoveSuffix(owner, "_tests");
        if domain in TEST_DOMAINS then Assign(domain) else Fail(InvalidOwner(relative))
  }

  function Verdicts(repo: Repository): string -> Verdict {
    f => Classify(repo, f)
  }

  /** An assigned file has a domain, a failing one an invalid owner. */
  ghost predicate Fits(verdict: string -> Verdict) {
    && (forall f :: verdict(f).Assign? ==> verdict(f).domain in TEST_DOMAINS)
    && (forall f :: verdict(f).Fail? ==> verdict(f) == Fail(InvalidOwner(f)))
  }

  lemma ClassifyExact(repo: Repository, relative: string)
    ensures Classify(repo, relative).Fail? <==> IsTest(relative) && relative in repo.config.sharedFiles
    ensures Classify(repo, relative).Fail? ==> Classify(repo, relative) == Fail(InvalidOwner(relative))
    ensures Classify(repo, relative).Skip? <==>
      !IsTest(relative) || (relative in repo.config.excluded && relative !in repo.config.sharedFiles)
    ensures forall d :: Classify(repo, relative) == Assign(d) <==> d in TEST_DOMAINS && RunBy(repo, relative, d)
  {
    OwnerDomain(repo, relative);
    forall d | RunBy(repo, relative, d)
      ensures RemoveSuffix(Owner(repo, relative).value, "_tests") == d
    {
      GroupDomain(d);
    }
  }

  /** No file fails, and every file assigned to a domain is listed once. */
  ghost predicate Assignable(verdict: string -> Verdict, files: seq<string>) {
    && (forall k :: 0 <= k < |files| ==> !verdict(files[k]).Fail?)
    && (forall i, j :: 0 <= i < j < |files| && verdict(files[i]).Assign? ==> files[i] != files[j])
  }

  ghost function AssignedTo(verdict: string -> Verdict, files: seq<string>, domain: string): set<string> {
    set f | f in files && verdict(f) == Assign(domain)
  }

  /** What the assignment loop keeps after reading `files`. */
  ghost predicate Assigning(verdict: string -> Verdict, files: seq<string>, owners: map<string, string>,
      counts: map<string, nat>) {
    && Assignable(verdict, files)
    && (forall f :: f in owners <==> f in files && verdict(f).Assign?)
    && (forall d :: d in counts ==> counts[d] == |AssignedTo(verdict, files, d)|)
  }

  lemma AssignedToNext(verdict: string -> Verdict, files: seq<string>, f: string, d: string)
    requires f !in files || !verdict(f).Assign?
    ensures |AssignedTo(verdict, files + [f], d)| ==
      |AssignedTo(verdict, files, d)| + if verdict(f) == Assign(d) then 1 else 0
  {
    var now, next := AssignedTo(verdict, files, d), AssignedTo(verdict, files + [f], d);
    if verdict(f) == Assign(d) {
      assert next == now + {f};
    } else {
      assert next == now;
    }
  }

  lemma SkipFile(verdict: string -> Verdict, files: seq<string>, f: string, owners: map<string, string>,
      counts: map<string, nat>)
    requires Assigning(verdict, files, owners, counts) && verdict(f).Skip?
    ensures Assigning(verdict, files + [f], owners, counts)
  {
    forall d | d in counts
      ensures counts[d] == |AssignedTo(verdict, files + [f], d)|
    {
      AssignedToNext(verdict, files, f, d);
    }
  }

  lemma AssignFile(verdict: string -> Verdict, files: seq<string>, f: string, owners: map<string, string>,
      counts: map<string, nat>)
    requires Assigning(verdict, files, owners, counts)
    requires verdict(f).Assign? && verdict(f).domain in counts && f !in owners
    ensures var d := verdict(f).domain; Assigning(verdict, files + [f], owners[f := d], counts[d := counts[d] + 1])
  {
    var d := verdict(f).domain;
    var next := counts[d := counts[d] + 1];
    forall e | e in next
      ensures next[e] == |AssignedTo(verdict, files + [f], e)|
    {
      AssignedToNext(verdict, files, f, e);
    }
    assert Assignable(verdict, files + [f]);
  }

  lemma AssigningAgree(a: string -> Verdict, b: string -> Verdict, files: seq<string>, owners: map<string, string>,
      counts: map<string, nat>)
    requires Assigning(a, files, owners, counts) && forall f :: f in files ==> a(f) == b(f)
    ensures Assigning(b, files, owners, counts)
  {
    forall d | d in counts
      ensures AssignedTo(a, files, d) == AssignedTo(b, files, d)
    {
    }
  }

  const NO_TESTS: map<string, nat> := map[RUNTIME := 0, DEPLOYMENT := 0, FAULT_RUNNER := 0, POSTGRES := 0]

  /** One turn of the assignment loop, with the verdict on its file. */
  method AssignNext(ghost verdict: string -> Verdict, ghost files: seq<string>, v: Verdict, relative: string,
      owners: map<string, string>, counts: map<string, nat>)
      returns (r: Result<(map<string, string>, map<string, nat>), PartitionError>)
    requires Fits(verdict) && v == verdict(relative)
    requires Assigning(verdict, files, owners, counts) && counts.Keys == Elems(TEST_DOMAINS)
    ensures r.Ok? ==> Assigning(verdict, files + [relative], r.value.0, r.value.1) && r.value.1.Keys == counts.Keys
    ensures r.Err? ==> r.error == InvalidOwner(relative) && !Assignable(verdict, files + [relative])
  {
    ghost var next := files + [relative];
    assert next[|files|] == relative && forall i :: 0 <= i < |files| ==> next[i] == files[i];
    match v
    case Skip =>
      SkipFile(verdict, files, relative, owners, counts);
      return Ok((owners, counts));
    case Fail(error) =>
      return Err(error);
    case Assign(domain) =>
      if relative in owners {
        ghost var i :| 0 <= i < |files| && files[i] == relative;
        return Err(InvalidOwner(relative));
      }
      assert domain in Elems(TEST_DOMAINS);
      AssignFile(verdict, files, relative, owners, counts);
      return Ok((owners[relative := domain], counts[domain := counts[domain] + 1]));
  }

  lemma AssignablePrefix(verdict: string -> Verdict, files: seq<string>, k: nat)
    requires k <= |files| && Assignable(verdict, files)
    ensures Assignable(verdict, files[..k])
  {
    var part := files[..k];
    assert forall i :: 0 <= i < k ==> part[i] == files[i];
  }

  // The validated partition ------------------------------------------------------------

  function Configured(repo: Repository): set<string> {
    repo.config.postgresFiles + repo.config.faultRunnerFiles + repo.config.excluded
  }

  ghost function TestsOf(repo: Repository, domain: string): set<string> {
    set f | f in repo.files && RunBy(repo, f, domain)
  }

  /** No test file is a shared one, and every test file that is not excluded is listed once. */
  ghost predicate Owned(repo: Repository) {
    && (forall f :: f in repo.files && IsTest(f) ==> f !in repo.config.sharedFiles)
    && (forall i, j :: 0 <= i < j < |repo.files| && IsTest(repo.files[i]) && repo.files[i] !in repo.config.excluded ==>
         repo.files[i] != repo.files[j])
  }

  ghost predicate Existing(repo: Repository) {
    forall f :: f in Configured(repo) ==> repo.isFile(f)
  }

  /** Every domain has a test file. */
  ghost predicate Populated(repo: Repository) {
    forall d :: d in TEST_DOMAINS ==> TestsOf(repo, d) != {}
  }

  ghost predicate Partitioned(repo: Repository) {
    Owned(repo) && Existing(repo) && Populated(repo)
  }

  lemma OwnedIsAssignable(repo: Repository)
    ensures Owned(repo) <==> Assignable(Verdicts(repo), repo.files)
  {
    var verdict := Verdicts(repo);
    forall f
      ensures verdict(f).Fail? <==> IsTest(f) && f in repo.config.sharedFiles
      ensures verdict(f).Skip? <==> !IsTest(f) || (f in repo.config.excluded && f !in repo.config.sharedFiles)
    {
      ClassifyExact(repo, f);
    }
    forall f | f in repo.files
      ensures exists k :: 0 <= k < |repo.files| && repo.files[k] == f
    {
    }
  }

  lemma AssignedToIsTestsOf(repo: Repository, d: string)
    requires d in TEST_DOMAINS
    ensures AssignedTo(Verdicts(repo), repo.files, d) == TestsOf(repo, d)
  {
    forall f
      ensures Classify(repo, f) == Assign(d) <==> RunBy(repo, f, d)
    {
      ClassifyExact(repo, f);
    }
  }

  lemma VerdictsFit(repo: Repository)
    ensures Fits(Verdicts(repo))
  {
    forall f
      ensures Verdicts(repo)(f).Assign? ==> Verdicts(repo)(f).domain in TEST_DOMAINS
      ensures Verdicts(repo)(f).Fail? ==> Verdicts(repo)(f) == Fail(InvalidOwner(f))
    {
      ClassifyExact(repo, f);
    }
  }

  lemma CountsAreSizes(repo: Repository, counts: map<string, nat>)
    requires counts.Keys == Elems(TEST_DOMAINS)
    requires forall d :: d in counts ==> counts[d] == |AssignedTo(Verdicts(repo), repo.files, d)|
    ensures forall d :: d in counts ==> counts[d] == |TestsOf(repo, d)|
    ensures (exists d :: d in counts && counts[d] == 0) <==> !Populated(repo)
  {
    forall d | d in counts
      ensures counts[d] == |TestsOf(repo, d)|
    {
      AssignedToIsTestsOf(repo, d);
    }
    assert forall d :: d in counts <==> d in TEST_DOMAINS;
  }

  /** The files of the configuration that do not exist, sorted. */
  method MissingConfigured(repo: Repository) returns (missing: seq<string>)
    ensures missing == SortedSet(set f | f in Configured(repo) && !repo.isFile(f))
    ensures missing == [] <==> Existing(repo)
  {
    missing := SortStrings(set f | f in Configured(repo) && !repo.isFile(f));
    ElemsEmpty(missing);
    assert forall f :: f in Configured(repo) && !repo.isFile(f) <==> f in Elems(missing);
  }

  /** What an accepted repository is told, and why another one is not accepted. */
  ghost predicate Validated(repo: Repository, r: Result<map<string, nat>, PartitionError>) {
    && (r.Ok? <==> Partitioned(repo))
    && (r.Ok? ==> r.value.Keys == Elems(TEST_DOMAINS) && forall d :: d in r.value ==> r.value[d] == |TestsOf(repo, d)|)
    && (r.Err? ==> !r.error.Unclassified?)
    && (r.Err? && r.error.MissingTests? ==>
          r.error.relatives == SortedSet(set f | f in Configured(repo) && !repo.isFile(f)))
  }

  // What runs where -------------------------------------------------------------------------

  /** `nodeid.partition("::")[0]`. */
  function FileOf(nodeid: string): string {
    if |nodeid| < 2 then nodeid
    else if nodeid[..2] == "::" then ""
    else [nodeid[0]] + FileOf(nodeid[1..])
  }

  /** The shard collects the file of a test id, and the id falls into its slot. */
  predicate Runs(repo: Repository, hash: string -> nat, shard: string, nodeid: string) {
    && FileOf(nodeid) in repo.files && RunBy(repo, FileOf(nodeid), LogicalDomain(shard))
    && Takes(hash, shard, nodeid)
  }

  /** Where one domain owns a test id, one shard runs it. */
  lemma RunsOnce(owner: string -> bool, hash: string -> nat, domain: string, nodeid: string)
    requires domain in TEST_DOMAINS && forall d :: d in TEST_DOMAINS ==> (owner(d) <==> d == domain)
    ensures ShardFor(hash, domain, nodeid) in SHARDS
    ensures forall s :: s in SHARDS ==>
      (owner(LogicalDomain(s)) && Takes(hash, s, nodeid) <==> s == ShardFor(hash, domain, nodeid))
  {
    OneShard(hash, domain, nodeid);
    forall s | s in SHARDS
      ensures LogicalDomain(s) in TEST_DOMAINS
    {
      var d, index := ShardShape(s);
    }
  }

  lemma OwnedByOne(repo: Repository, f: string) returns (domain: string)
    requires IsTest(f) && f !in repo.config.sharedFiles && f !in repo.config.excluded
    ensures domain in TEST_DOMAINS && forall d :: d in TEST_DOMAINS ==> (RunBy(repo, f, d) <==> d == domain)
  {
    ClassifyExact(repo, f);
    domain := Classify(repo, f).domain;
  }

  /** A test id of the repository runs in exactly one physical shard, unless its file is excluded: then in none. */
  lemma EveryTestOnce(repo: Repository, hash: string -> nat, nodeid: string) returns (s: string)
    requires Partitioned(repo) && FileOf(nodeid) in repo.files && IsTest(FileOf(nodeid))
    ensures FileOf(nodeid) !in repo.config.excluded ==>
      s in SHARDS && forall t :: t in SHARDS ==> (Runs(repo, hash, t, nodeid) <==> t == s)
    ensures FileOf(nodeid) in repo.config.excluded ==> forall t :: t in SHARDS ==> !Runs(repo, hash, t, nodeid)
  {
    var f := FileOf(nodeid);
    if f in repo.config.excluded {
      s := "";
    } else {
      var d := OwnedByOne(repo, f);
      var owner := (e: string) => RunBy(repo, f, e);
      RunsOnce(owner, hash, d, nodeid);
      s := ShardFor(hash, d, nodeid);
      forall t | t in SHARDS
        ensures Runs(repo, hash, t, nodeid) <==> t == s
      {
        assert owner(LogicalDomain(t)) <==> RunBy(repo, f, LogicalDomain(t));
      }
    }
  }

  /** The files of a domain, sorted, as often as the repository lists them. */
  ghost predicate TargetsOf(repo: Repository, domain: string, targets: seq<string>) {
    && Sorted(targets, StringLeq)
    && forall f :: multiset(targets)[f] == if RunBy(repo, f, domain) then multiset(repo.files)[f] else 0
  }

  lemma ListedOnce<T>(s: seq<T>, i: nat)
    requires i < |s| && forall j :: 0 <= j < |s| && j != i ==> s[j] != s[i]
    ensures multiset(s)[s[i]] == 1
  {
    assert s == s[..i] + [s[i]] + s[i + 1..];
    assert s[i] !in s[..i] && s[i] !in s[i + 1..];
  }

  lemma SelectedOnce(select: string -> bool, files: seq<string>, targets: seq<string>)
    requires forall f :: multiset(targets)[f] == if select(f) then multiset(files)[f] else 0
    requires forall f :: f in files && select(f) ==> multiset(files)[f] == 1
    ensures Elems(targets) == (set f | f in files && select(f)) && Distinct(targets)
  {
    forall f
      ensures f in targets <==> f in files && select(f)
      ensures multiset(targets)[f] <= 1
    {
      assert f in targets <==> multiset(targets)[f] > 0;
      assert f in files <==> multiset(files)[f] > 0;
    }
    assert multiset(targets) == multiset(Elems(targets));
    DistinctMultiset(targets);
  }

  lemma RunListedOnce(repo: Repository, domain: string, f: string)
    requires Owned(repo) && domain in TEST_DOMAINS && f in repo.files && RunBy(repo, f, domain)
    ensures multiset(repo.files)[f] == 1
  {
    var i :| 0 <= i < |repo.files| && repo.files[i] == f;
    ClassifyExact(repo, f);
    assert IsTest(f) && f !in repo.config.excluded;
    ListedOnce(repo.files, i);
  }

  /** In a partitioned repository the targets of a domain are its test files: there are some, none named twice. */
  lemma TargetsDistinct(repo: Repository, domain: string, targets: seq<string>)
    requires Partitioned(repo) && domain in TEST_DOMAINS
    requires TargetsOf(repo, domain, targets)
    ensures Elems(targets) == TestsOf(repo, domain) && targets != [] && Distinct(targets)
  {
    var select := (f: string) => RunBy(repo, f, domain);
    forall f | f in repo.files && select(f)
      ensures multiset(repo.files)[f] == 1
    {
      RunListedOnce(repo, domain, f);
    }
    SelectedOnce(select, repo.files, targets);
    assert TestsOf(repo, domain) == set f | f in repo.files && select(f);
    ElemsEmpty(targets);
  }
}
