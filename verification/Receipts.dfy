/**
 The aggregate test receipt: the shard receipts are validated one by one and
 merged. An accepted aggregate has exactly one record, from exactly one shard,
 for every test any shard discovered.
 */
module Receipts {
  import opened Orders
  import TestPartition
  import opened Wrappers

  type NodeId = string

  type Record = string

  datatype Session = Session(collected: seq<NodeId>, discovered: seq<NodeId>)

  datatype Receipt = Receipt(session: Session, records: map<NodeId, Record>)

  /** One shard's entry in the aggregate; PostgreSQL shards add a stress run. */
  datatype Item = Item(shard: string, session: Session, stress: Option<Receipt>)

  /**
   What the receipts are held against. `fits` stands for the checks on single
   fields of a receipt (provenance, clean collection, selection, workers,
   durations; with the flag set, those of a stress run) and `current` for those
   on an aggregate entry.
   */
  datatype Plan = Plan(
    shards: set<string>,
    domain: string -> string,
    partitioned: string -> bool,
    postgres: string -> bool,
    targets: string -> seq<string>,
    takes: (string, NodeId) -> bool,
    norm: NodeId -> NodeId,
    fits: (string, bool, Receipt) -> bool,
    current: Item -> bool)

  ghost predicate Target(plan: Plan, shard: string, n: NodeId) {
    shard in plan.shards && TestPartition.FileOf(n) in plan.targets(shard)
  }

  /**
   The premises: every id of a domain is taken by exactly one of its shards,
   different domains name different files, and normalisation tells the ids of
   named files apart.
   */
  ghost predicate Sliced(plan: Plan) {
    && (forall s, n :: s in plan.shards ==> Taker(plan, plan.domain(s), n))
    && (forall s, t, n ::
          s in plan.shards && t in plan.shards && plan.domain(s) == plan.domain(t) ==>
            (plan.takes(s, n) && plan.takes(t, n) ==> s == t))
    && (forall s, n :: s in plan.shards && !plan.partitioned(s) ==> plan.takes(s, n))
    && (forall s, t ::
          s in plan.shards && t in plan.shards && plan.domain(s) == plan.domain(t) && plan.partitioned(s) ==>
            plan.partitioned(t))
  }

  ghost predicate Taker(plan: Plan, domain: string, n: NodeId) {
    exists t :: t in plan.shards && plan.domain(t) == domain && plan.takes(t, n)
  }

  ghost predicate Separate(plan: Plan) {
    && (forall s, t, n :: Target(plan, s, n) && Target(plan, t, n) ==> plan.domain(s) == plan.domain(t))
    && (forall s, t, m, n :: Target(plan, s, m) && Target(plan, t, n) && plan.norm(m) == plan.norm(n) ==> m == n)
  }

  // One shard's receipt -------------------------------------------------------------

  ghost function Image(f: NodeId -> NodeId, s: set<NodeId>): set<NodeId> {
    set n | n in s :: f(n)
  }

  predicate Injective(f: NodeId -> NodeId, s: set<NodeId>) {
    forall m, n :: m in s && n in s && f(m) == f(n) ==> m == n
  }

  /** What `validate_shard_receipt` accepts. */
  predicate ValidShard(plan: Plan, shard: string, stress: bool, value: Receipt) {
    var session := value.session;
    && plan.fits(shard, stress, value)
    && session.collected != [] && Distinct(session.collected) && Elems(session.collected) == value.records.Keys
    && session.discovered != [] && Distinct(session.discovered) && Elems(session.collected) <= Elems(session.discovered)
    && Injective(plan.norm, value.records.Keys) && Injective(plan.norm, Elems(session.discovered))
    && (forall n :: n in session.discovered ==> TestPartition.FileOf(n) in plan.targets(shard))
    && value.records.Keys == set n | n in session.discovered && plan.takes(shard, n)
  }

  /**
   A session of a shard: the tests found are in its files, each with a normal
   form of its own, and those of its slot are the ones executed; none is listed
   twice, and there are some.
   */
  ghost predicate Orderly(plan: Plan, shard: string, session: Session) {
    && session.collected != [] && session.discovered != []
    && Distinct(session.collected) && Distinct(session.discovered)
    && (forall n :: n in session.discovered ==> TestPartition.FileOf(n) in plan.targets(shard))
    && (forall m, n :: m in session.discovered && n in session.discovered && plan.norm(m) == plan.norm(n) ==> m == n)
    && (forall n :: n in session.collected <==> n in session.discovered && plan.takes(shard, n))
  }

  /** A receipt is valid if its fields fit, its session is orderly, and there is a record for every test executed. */
  lemma ValidIsOrderly(plan: Plan, shard: string, stress: bool, value: Receipt)
    ensures ValidShard(plan, shard, stress, value) <==>
      && plan.fits(shard, stress, value) && Orderly(plan, shard, value.session)
      && forall n :: n in value.records <==> n in value.session.collected
  {
    var session := value.session;
    assert forall n :: n in Elems(session.collected) <==> n in session.collected;
    assert forall n :: n in Elems(session.discovered) <==> n in session.discovered;
    if ValidShard(plan, shard, stress, value) {
      forall n
        ensures n in session.collected <==> n in session.discovered && plan.takes(shard, n)
      {
        assert n in session.collected <==> n in value.records.Keys;
      }
    }
    if Orderly(plan, shard, session) && forall n :: n in value.records <==> n in session.collected {
      assert Elems(session.collected) == value.records.Keys;
      assert value.records.Keys == set n | n in session.discovered && plan.takes(shard, n);
    }
  }

  datatype Parsed = Parsed(records: map<NodeId, Record>, discovered: set<NodeId>)

  /** The normalised receipt. */
  function Parse(plan: Plan, value: Receipt): Parsed
    requires Injective(plan.norm, value.records.Keys)
  {
    Parsed(
      map n | n in value.records :: plan.norm(n) := value.records[n],
      set n | n in value.session.discovered :: plan.norm(n))
  }

  // Runs: who collected what -------------------------------------------------------------

  datatype Run = Run(shard: string, session: Session)

  /** A run executed exactly its slice of what it discovered among its files. */
  ghost predicate Exact(plan: Plan, run: Run) {
    && run.shard in plan.shards
    && (forall n :: n in run.session.discovered ==> TestPartition.FileOf(n) in plan.targets(run.shard))
    && (forall n :: n in run.session.collected <==> n in run.session.discovered && plan.takes(run.shard, n))
  }

  ghost predicate AllExact(plan: Plan, runs: seq<Run>) {
    && (forall i :: 0 <= i < |runs| ==> Exact(plan, runs[i]))
    && (forall i, j :: 0 <= i < j < |runs| ==> runs[i].shard != runs[j].shard)
  }

  ghost predicate Siblings(plan: Plan, a: Run, b: Run) {
    plan.partitioned(a.shard) && plan.partitioned(b.shard) && plan.domain(a.shard) == plan.domain(b.shard)
  }

  /** Partitioned shards of one domain discovered the same tests. */
  ghost predicate Agree(plan: Plan, runs: seq<Run>) {
    forall i, j :: 0 <= i < |runs| && 0 <= j < |runs| && Siblings(plan, runs[i], runs[j]) ==>
      Found(plan, runs[i]) == Found(plan, runs[j])
  }

  ghost function Found(plan: Plan, run: Run): set<NodeId> {
    Image(plan.norm, Elems(run.session.discovered))
  }

  ghost predicate Complete(plan: Plan, runs: seq<Run>) {
    forall s :: s in plan.shards ==> HasRun(runs, s)
  }

  ghost predicate HasRun(runs: seq<Run>, shard: string) {
    exists i :: 0 <= i < |runs| && runs[i].shard == shard
  }

  ghost predicate CollectedIn(runs: seq<Run>, i: int, n: NodeId) {
    0 <= i < |runs| && n in runs[i].session.collected
  }

  /** Two shards that collected ids with one normal form are one shard, and the ids are one. */
  lemma CollectedOnce(plan: Plan, runs: seq<Run>, i: nat, m: NodeId, j: nat, n: NodeId)
    requires Sliced(plan) && Separate(plan) && AllExact(plan, runs)
    requires CollectedIn(runs, i, m) && CollectedIn(runs, j, n) && plan.norm(m) == plan.norm(n)
    ensures i == j && m == n
  {
    assert Exact(plan, runs[i]) && Exact(plan, runs[j]);
    assert Target(plan, runs[i].shard, m) && Target(plan, runs[j].shard, n);
  }

  /** What any shard discovered, the shard of its slot collected. */
  lemma DiscoveredIsCollected(plan: Plan, runs: seq<Run>, i: nat, n: NodeId) returns (j: nat)
    requires Sliced(plan) && Separate(plan) && AllExact(plan, runs) && Agree(plan, runs) && Complete(plan, runs)
    requires i < |runs| && n in runs[i].session.discovered
    ensures CollectedIn(runs, j, n)
  {
    var s := runs[i].shard;
    assert Exact(plan, runs[i]);
    if !plan.partitioned(s) {
      return i;
    }
    assert Taker(plan, plan.domain(s), n);
    var t :| t in plan.shards && plan.domain(t) == plan.domain(s) && plan.takes(t, n);
    assert HasRun(runs, t);
    j :| 0 <= j < |runs| && runs[j].shard == t;
    assert Exact(plan, runs[j]);
    assert plan.norm(n) in Found(plan, runs[i]);
    var m :| m in Elems(runs[j].session.discovered) && plan.norm(m) == plan.norm(n);
    assert Target(plan, s, n) && Target(plan, t, m);
  }

  /** Every discovered test was collected by exactly one shard. */
  lemma ExactlyOnce(plan: Plan, runs: seq<Run>, i: nat, n: NodeId) returns (j: nat)
    requires Sliced(plan) && Separate(plan) && AllExact(plan, runs) && Agree(plan, runs) && Complete(plan, runs)
    requires i < |runs| && n in runs[i].session.discovered
    ensures j < |runs| && forall k :: CollectedIn(runs, k, n) <==> k == j
  {
    j := DiscoveredIsCollected(plan, runs, i, n);
    forall k | CollectedIn(runs, k, n)
      ensures k == j
    {
      CollectedOnce(plan, runs, k, n, j, n);
    }
  }

  ghost function AllCollected(runs: seq<Run>): set<NodeId> {
    set i, n | 0 <= i < |runs| && n in runs[i].session.collected :: n
  }

  ghost function AllDiscovered(runs: seq<Run>): set<NodeId> {
    set i, n | 0 <= i < |runs| && n in runs[i].session.discovered :: n
  }

  /** Nothing is missing from the union of the slices. */
  lemma NothingMissing(plan: Plan, runs: seq<Run>)
    requires Sliced(plan) && Separate(plan) && AllExact(plan, runs) && Agree(plan, runs) && Complete(plan, runs)
    ensures AllCollected(runs) == AllDiscovered(runs)
  {
    forall n | n in AllDiscovered(runs)
      ensures n in AllCollected(runs)
    {
      var i :| 0 <= i < |runs| && n in runs[i].session.discovered;
      var j := DiscoveredIsCollected(plan, runs, i, n);
    }
    forall n | n in AllCollected(runs)
      ensures n in AllDiscovered(runs)
    {
      var i :| 0 <= i < |runs| && n in runs[i].session.collected;
      assert Exact(plan, runs[i]);
    }
  }

  lemma NormInjective(plan: Plan, runs: seq<Run>)
    requires Sliced(plan) && Separate(plan) && AllExact(plan, runs)
    ensures Injective(plan.norm, AllCollected(runs))
  {
    forall m, n | m in AllCollected(runs) && n in AllCollected(runs) && plan.norm(m) == plan.norm(n)
      ensures m == n
    {
      var i :| 0 <= i < |runs| && m in runs[i].session.collected;
      var j :| 0 <= j < |runs| && n in runs[j].session.collected;
      CollectedOnce(plan, runs, i, m, j, n);
    }
  }

  lemma {:induction false} ImageSize(f: NodeId -> NodeId, s: set<NodeId>)
    requires Injective(f, s)
    ensures |Image(f, s)| == |s|
  {
    if s != {} {
      var x :| x in s;
      ImageSize(f, s - {x});
      assert Image(f, s) == Image(f, s - {x}) + {f(x)};
    }
  }

  // The aggregate ---------------------------------------------------------------------------

  datatype AggregateError =
    | Inventory
    | Unsound(shard: string)
    | Overlap(shard: string)
    | Disagreement(domain: string)
    | Uncovered

  ghost function RunOf(item: Item): Run {
    Run(item.shard, item.session)
  }

  ghost function RunsOf(items: seq<Item>): (runs: seq<Run>)
    ensures |runs| == |items|
    ensures forall i :: 0 <= i < |items| ==> runs[i] == RunOf(items[i])
  {
    seq(|items|, i requires 0 <= i < |items| => RunOf(items[i]))
  }

  /** The receipt of one shard, cut out of the merged records. */
  function CutOut(session: Session, records: map<NodeId, Record>): Receipt {
    Receipt(session, map n | n in session.collected && n in records :: records[n])
  }

  /** The checks an entry has to pass on its own; `stress` ones aside. */
  predicate SoundMain(plan: Plan, item: Item, records: map<NodeId, Record>) {
    && plan.current(item)
    && Elems(item.session.collected) <= records.Keys
    && ValidShard(plan, item.shard, false, CutOut(item.session, records))
  }

  /** A PostgreSQL entry has a valid stress run over the same discovery; no other entry has one. */
  predicate SoundStress(plan: Plan, item: Item) {
    if plan.postgres(item.shard) then
      && item.stress.Some? && ValidShard(plan, item.shard, true, item.stress.value)
      && (set n | n in item.stress.value.session.discovered :: plan.norm(n)) ==
           set n | n in item.session.discovered :: plan.norm(n)
    else item.stress.None?
  }

  ghost predicate AllSound(plan: Plan, items: seq<Item>, records: map<NodeId, Record>) {
    forall i :: 0 <= i < |items| ==> Sound(plan, items[i], records)
  }

  predicate Sound(plan: Plan, item: Item, records: map<NodeId, Record>) {
    SoundMain(plan, item, records) && SoundStress(plan, item)
  }

  ghost predicate Inventoried(plan: Plan, items: seq<Item>) {
    && (forall i, j :: 0 <= i < j < |items| ==> items[i].shard != items[j].shard)
    && (set i | 0 <= i < |items| :: items[i].shard) == plan.shards
  }

  /** A record no shard has collected. */
  ghost predicate Stray(items: seq<Item>, records: map<NodeId, Record>, n: NodeId) {
    n in records && n !in AllCollected(RunsOf(items))
  }

  lemma SoundIsExact(plan: Plan, item: Item, records: map<NodeId, Record>)
    requires item.shard in plan.shards && SoundMain(plan, item, records)
    ensures Exact(plan, RunOf(item))
  {
    var value := CutOut(item.session, records);
    forall n
      ensures n in item.session.collected <==> n in item.session.discovered && plan.takes(item.shard, n)
    {
      assert n in item.session.collected <==> n in value.records.Keys;
    }
  }

  /** What the merge loop keeps after the entries behind `runs`. */
  ghost predicate Merging(plan: Plan, runs: seq<Run>, records: map<NodeId, Record>, merged: map<NodeId, Record>,
      discovered: set<NodeId>, domains: map<string, set<NodeId>>) {
    && AllExact(plan, runs)
    && Merged(plan.norm, AllCollected(runs), records, merged)
    && discovered == Image(plan.norm, AllDiscovered(runs))
    && Noted(plan, runs, domains)
  }

  /** `merged` holds the records of the ids in `all`, under their normal forms. */
  ghost predicate Merged(norm: NodeId -> NodeId, all: set<NodeId>, records: map<NodeId, Record>, merged: map<NodeId,
      Record>) {
    && all <= records.Keys
    && merged.Keys == Image(norm, all)
    && (forall n :: n in all ==> norm(n) in merged && merged[norm(n)] == records[n])
  }

  /** The first discovery of every partitioned domain is noted, and all others equal it. */
  ghost predicate Noted(plan: Plan, runs: seq<Run>, domains: map<string, set<NodeId>>) {
    && (forall i :: 0 <= i < |runs| && plan.partitioned(runs[i].shard) ==>
         plan.domain(runs[i].shard) in domains && domains[plan.domain(runs[i].shard)] == Found(plan, runs[i]))
    && (forall d :: d in domains ==> Seen(plan, runs, d))
  }

  ghost predicate Seen(plan: Plan, runs: seq<Run>, domain: string) {
    exists i :: 0 <= i < |runs| && plan.partitioned(runs[i].shard) && plan.domain(runs[i].shard) == domain
  }

  lemma AllCollectedNext(runs: seq<Run>, run: Run)
    ensures AllCollected(runs + [run]) == AllCollected(runs) + Elems(run.session.collected)
    ensures AllDiscovered(runs + [run]) == AllDiscovered(runs) + Elems(run.session.discovered)
  {
    var next := runs + [run];
    forall n
      ensures n in AllCollected(next) <==> n in AllCollected(runs) || n in run.session.collected
      ensures n in AllDiscovered(next) <==> n in AllDiscovered(runs) || n in run.session.discovered
    {
      assert next[|runs|] == run && forall i :: 0 <= i < |runs| ==> next[i] == runs[i];
    }
  }

  /** The next entry never overlaps the merged ones. */
  lemma NeverOverlaps(plan: Plan, runs: seq<Run>, run: Run)
    requires Sliced(plan) && Separate(plan) && AllExact(plan, runs + [run])
    ensures Image(plan.norm, AllCollected(runs)) !! Image(plan.norm, Elems(run.session.collected))
  {
    var next := runs + [run];
    forall m, n | m in AllCollected(runs) && n in run.session.collected
      ensures plan.norm(m) != plan.norm(n)
    {
      var i :| 0 <= i < |runs| && m in runs[i].session.collected;
      assert CollectedIn(next, i, m) && CollectedIn(next, |runs|, n);
      if plan.norm(m) == plan.norm(n) {
        CollectedOnce(plan, next, i, m, |runs|, n);
      }
    }
  }

  lemma ParsedRecords(plan: Plan, session: Session, records: map<NodeId, Record>)
    requires Elems(session.collected) <= records.Keys
    requires Injective(plan.norm, CutOut(session, records).records.Keys)
    ensures Merged(plan.norm, Elems(session.collected), records, Parse(plan, CutOut(session, records)).records)
  {
  }

  lemma MergeRecords(norm: NodeId -> NodeId, all: set<NodeId>, more: set<NodeId>, records: map<NodeId, Record>,
      merged: map<NodeId, Record>, next: map<NodeId, Record>)
    requires Merged(norm, all, records, merged) && Merged(norm, more, records, next)
    requires Image(norm, all) !! Image(norm, more)
    ensures merged.Keys !! next.Keys && Merged(norm, all + more, records, merged + next)
  {
    forall n | n in all
      ensures norm(n) !in next
    {
      assert norm(n) in Image(norm, all);
    }
    assert Image(norm, all + more) == Image(norm, all) + Image(norm, more);
  }

  lemma NoteDiscovery(plan: Plan, runs: seq<Run>, run: Run, domains: map<string, set<NodeId>>)
    requires Noted(plan, runs, domains)
    ensures !plan.partitioned(run.shard) ==> Noted(plan, runs + [run], domains)
    ensures plan.partitioned(run.shard) && plan.domain(run.shard) !in domains ==>
      Noted(plan, runs + [run], domains[plan.domain(run.shard) := Found(plan, run)])
    ensures plan.partitioned(run.shard) && plan.domain(run.shard) in domains &&
            domains[plan.domain(run.shard)] == Found(plan, run) ==>
      Noted(plan, runs + [run], domains)
  {
    var next := runs + [run];
    assert next[|runs|] == run && forall i :: 0 <= i < |runs| ==> next[i] == runs[i];
    forall d | d in domains
      ensures Seen(plan, next, d)
    {
      var i :| 0 <= i < |runs| && plan.partitioned(runs[i].shard) && plan.domain(runs[i].shard) == d;
      assert next[i] == runs[i];
    }
    if plan.partitioned(run.shard) {
      assert Seen(plan, next, plan.domain(run.shard));
    }
  }

  /** After the loop the union always equals the discovery; the sizes differ exactly when a record is stray. */
  lemma FinalCheck(plan: Plan, items: seq<Item>, records: map<NodeId, Record>, merged: map<NodeId, Record>,
      discovered: set<NodeId>, domains: map<string, set<NodeId>>)
    requires Sliced(plan) && Separate(plan) && Inventoried(plan, items)
    requires Merging(plan, RunsOf(items), records, merged, discovered, domains)
    ensures merged.Keys == discovered
    ensures |merged| != |records| <==> exists n :: Stray(items, records, n)
  {
    var runs := RunsOf(items);
    NothingMissing(plan, runs);
    NormInjective(plan, runs);
    ImageSize(plan.norm, AllCollected(runs));
    assert |merged| == |merged.Keys| && |records| == |records.Keys|;
    StrayCount(items, records);
  }

  lemma StrayCount(items: seq<Item>, records: map<NodeId, Record>)
    requires AllCollected(RunsOf(items)) <= records.Keys
    ensures |AllCollected(RunsOf(items))| != |records.Keys| <==> exists n :: Stray(items, records, n)
  {
    var all := AllCollected(RunsOf(items));
    if n :| Stray(items, records, n) {
      SubsetSize(all, records.Keys);
    } else {
      forall n | n in records
        ensures n in all
      {
        assert !Stray(items, records, n);
      }
      assert records.Keys == all;
    }
  }

  /** The entries that pass every check but the final count. */
  ghost predicate Consistent(plan: Plan, items: seq<Item>, records: map<NodeId, Record>) {
    Inventoried(plan, items) && records != map[] && AllSound(plan, items, records) && Agree(plan, RunsOf(items))
  }

  /** The tests of both sessions have the same normal forms. */
  ghost predicate SameTests(plan: Plan, a: Session, b: Session) {
    Image(plan.norm, Elems(a.discovered)) == Image(plan.norm, Elems(b.discovered))
  }

  /**
   What is asked of an entry: it is current, its receipt and its stress receipt
   fit, their sessions are orderly, and a PostgreSQL shard, and no other, has put
   the tests it found under stress as well.
   */
  ghost predicate EntryAccepted(plan: Plan, item: Item, records: map<NodeId, Record>) {
    && plan.current(item) && plan.fits(item.shard, false, CutOut(item.session, records))
    && Orderly(plan, item.shard, item.session) && (forall n :: n in item.session.collected ==> n in records)
    && (item.stress.Some? <==> plan.postgres(item.shard))
    && (item.stress.Some? ==>
          var stress := item.stress.value;
          && plan.fits(item.shard, true, stress) && Orderly(plan, item.shard, stress.session)
          && (forall n :: n in stress.records <==> n in stress.session.collected)
          && SameTests(plan, stress.session, item.session))
  }

  /** What is asked of an aggregate: every shard has its entry, and every record belongs to one. */
  ghost predicate Accepted(plan: Plan, items: seq<Item>, records: map<NodeId, Record>) {
    && AllPresent(plan, items) && records != map[] && AllAccepted(plan, items, records)
    && Agree(plan, RunsOf(items)) && AllExecuted(items, records)
  }

  ghost predicate AllPresent(plan: Plan, items: seq<Item>) {
    forall s :: s in plan.shards <==> HasEntry(items, s)
  }

  ghost predicate AllAccepted(plan: Plan, items: seq<Item>, records: map<NodeId, Record>) {
    forall i :: 0 <= i < |items| ==> EntryAccepted(plan, items[i], records)
  }

  ghost predicate AllExecuted(items: seq<Item>, records: map<NodeId, Record>) {
    forall n :: n in records ==> Executed(items, n)
  }

  ghost predicate HasEntry(items: seq<Item>, shard: string) {
    exists i :: 0 <= i < |items| && items[i].shard == shard
  }

  ghost predicate Executed(items: seq<Item>, n: NodeId) {
    exists i :: 0 <= i < |items| && n in items[i].session.collected
  }

  lemma SoundIsAccepted(plan: Plan, item: Item, records: map<NodeId, Record>)
    ensures Sound(plan, item, records) <==> EntryAccepted(plan, item, records)
  {
    var value := CutOut(item.session, records);
    ValidIsOrderly(plan, item.shard, false, value);
    assert Elems(item.session.collected) <= records.Keys <==> forall n :: n in item.session.collected ==> n in records;
    if item.stress.Some? {
      var stress := item.stress.value;
      ValidIsOrderly(plan, item.shard, true, stress);
      FormsOf(plan, stress.session);
      FormsOf(plan, item.session);
    }
  }

  lemma FormsOf(plan: Plan, session: Session)
    ensures (set n | n in session.discovered :: plan.norm(n)) == Image(plan.norm, Elems(session.discovered))
  {
  }

  lemma AllSoundIsAccepted(plan: Plan, items: seq<Item>, records: map<NodeId, Record>)
    ensures AllSound(plan, items, records) <==> AllAccepted(plan, items, records)
  {
    forall i | 0 <= i < |items|
      ensures Sound(plan, items[i], records) <==> EntryAccepted(plan, items[i], records)
    {
      SoundIsAccepted(plan, items[i], records);
    }
  }

  lemma InventoryIs(plan: Plan, items: seq<Item>)
    requires forall i, j :: 0 <= i < j < |items| ==> items[i].shard != items[j].shard
    ensures Inventoried(plan, items) <==> AllPresent(plan, items)
  {
    var shards := set i | 0 <= i < |items| :: items[i].shard;
    assert forall s :: s in shards <==> HasEntry(items, s);
  }

  lemma NoStrayIs(items: seq<Item>, records: map<NodeId, Record>)
    ensures (forall n :: !Stray(items, records, n)) <==> AllExecuted(items, records)
  {
    forall n
      ensures Stray(items, records, n) <==> n in records && !Executed(items, n)
    {
      if i :| 0 <= i < |items| && n in items[i].session.collected {
        assert n in RunsOf(items)[i].session.collected;
      }
    }
  }

  lemma ConsistentIsAccepted(plan: Plan, items: seq<Item>, records: map<NodeId, Record>)
    requires forall i, j :: 0 <= i < j < |items| ==> items[i].shard != items[j].shard
    ensures Consistent(plan, items, records) && (forall n :: !Stray(items, records, n)) <==>
            Accepted(plan, items, records)
  {
    AllSoundIsAccepted(plan, items, records);
    InventoryIs(plan, items);
    NoStrayIs(items, records);
  }

  lemma RunsOfNext(items: seq<Item>, k: nat)
    requires k < |items|
    ensures RunsOf(items[..k + 1]) == RunsOf(items[..k]) + [RunOf(items[k])]
  {
  }

  /** One sound entry joins the merge without overlap. */
  lemma MergeItem(plan: Plan, items: seq<Item>, k: nat, records: map<NodeId, Record>, merged: map<NodeId, Record>,
      discovered: set<NodeId>, domains: map<string, set<NodeId>>)
    requires Sliced(plan) && Separate(plan) && Inventoried(plan, items)
    requires k < |items| && SoundMain(plan, items[k], records)
    requires Merging(plan, RunsOf(items[..k]), records, merged, discovered, domains)
    ensures var parsed := Parse(plan, CutOut(items[k].session, records)); var next := RunsOf(items[..k + 1]);
      && merged.Keys !! parsed.records.Keys
      && AllExact(plan, next) && Merged(plan.norm, AllCollected(next), records, merged + parsed.records)
      && discovered + parsed.discovered == Image(plan.norm, AllDiscovered(next))
      && parsed.discovered == Found(plan, RunOf(items[k]))
  {
    var runs, run := RunsOf(items[..k]), RunOf(items[k]);
    RunsOfNext(items, k);
    SoundIsExact(plan, items[k], records);
    NeverOverlaps(plan, runs, run);
    ParsedRecords(plan, run.session, records);
    AllCollectedNext(runs, run);
    MergeRecords(plan.norm, AllCollected(runs), Elems(run.session.collected), records, merged,
      Parse(plan, CutOut(run.session, records)).records);
    assert Parse(plan, CutOut(run.session, records)).discovered == Found(plan, run);
  }

  /** The disagreement check of one entry: what is noted after it, or none. */
  method Note(plan: Plan, ghost runs: seq<Run>, shard: string, found: set<NodeId>, domains: map<string, set<NodeId>>,
      ghost k: nat)
      returns (r: Option<map<string, set<NodeId>>>)
    requires k < |runs| && runs[k].shard == shard && found == Found(plan, runs[k]) && Noted(plan, runs[..k], domains)
    ensures r.Some? ==> Noted(plan, runs[..k + 1], r.value)
    ensures r.None? ==> !Agree(plan, runs) && plan.partitioned(shard)
  {
    NoteDiscovery(plan, runs[..k], runs[k], domains);
    assert runs[..k + 1] == runs[..k] + [runs[k]];
    if !plan.partitioned(shard) {
      return Some(domains);
    }
    var domain := plan.domain(shard);
    if domain !in domains {
      return Some(domains[domain := found]);
    }
    if domains[domain] != found {
      return None;
    }
    return Some(domains);
  }

  /** Merges one entry; it fails only when the entry is unsound or its discovery disagrees. */
  method MergeEntry(plan: Plan, items: seq<Item>, k: nat, records: map<NodeId, Record>, merged: map<NodeId, Record>,
      discovered: set<NodeId>, domains: map<string, set<NodeId>>)
      returns (r: Result<(map<NodeId, Record>, set<NodeId>, map<string, set<NodeId>>), AggregateError>)
    requires Sliced(plan) && Separate(plan) && Inventoried(plan, items) && k < |items|
    requires Merging(plan, RunsOf(items[..k]), records, merged, discovered, domains)
    ensures r.Ok? ==> Sound(plan, items[k], records)
    ensures r.Ok? ==> Merging(plan, RunsOf(items[..k + 1]), records, r.value.0, r.value.1, r.value.2)
    ensures r.Err? ==> r.error.Unsound? || r.error.Disagreement?
    ensures r.Err? ==> !Sound(plan, items[k], records) || !Agree(plan, RunsOf(items))
  {
    var item := items[k];
    if !SoundMain(plan, item, records) {
      return Err(Unsound(item.shard));
    }
    MergeItem(plan, items, k, records, merged, discovered, domains);
    var parsed := Parse(plan, CutOut(item.session, records));
    if !(merged.Keys !! parsed.records.Keys) {
      return Err(Overlap(item.shard));
    }
    ghost var runs := RunsOf(items);
    assert RunsOf(items[..k]) == runs[..k] && RunsOf(items[..k + 1]) == runs[..k + 1];
    var noted := Note(plan, runs, item.shard, parsed.discovered, domains, k);
    if noted.None? {
      return Err(Disagreement(plan.domain(item.shard)));
    }
    if !SoundStress(plan, item) {
      return Err(Unsound(item.shard));
    }
    return Ok((merged + parsed.records, discovered + parsed.discovered, noted.value));
  }

  /** The merge loop. */
  method MergeEntries(plan: Plan, items: seq<Item>, records: map<NodeId, Record>)
      returns (r: Result<(map<NodeId, Record>, set<NodeId>, map<string, set<NodeId>>), AggregateError>)
    requires Sliced(plan) && Separate(plan) && Inventoried(plan, items)
    ensures r.Ok? <==> AllSound(plan, items, records) && Agree(plan, RunsOf(items))
    ensures r.Ok? ==> Merging(plan, RunsOf(items), records, r.value.0, r.value.1, r.value.2)
    ensures r.Err? ==> r.error.Unsound? || r.error.Disagreement?
  {
    var merged: map<NodeId, Record> := map[];
    var discovered: set<NodeId> := {};
    var domains: map<string, set<NodeId>> := map[];
    for k := 0 to |items|
      invariant Merging(plan, RunsOf(items[..k]), records, merged, discovered, domains)
      invariant forall i :: 0 <= i < k ==> Sound(plan, items[i], records)
    {
      r := MergeEntry(plan, items, k, records, merged, discovered, domains);
      if r.Err? {
        return;
      }
      merged, discovered, domains := r.value.0, r.value.1, r.value.2;
    }
    assert items[..|items|] == items;
    r := Ok((merged, discovered, domains));
  }

  lemma NoStray(items: seq<Item>, records: map<NodeId, Record>)
    requires AllCollected(RunsOf(items)) <= records.Keys && forall n :: !Stray(items, records, n)
    ensures AllCollected(RunsOf(items)) == records.Keys
  {
    forall n | n in records
      ensures n in AllCollected(RunsOf(items))
    {
      assert !Stray(items, records, n);
    }
  }

  /** The final check: it rejects stray records and nothing else. */
  method CheckCoverage(plan: Plan, items: seq<Item>, records: map<NodeId, Record>, merged: map<NodeId, Record>,
      discovered: set<NodeId>, ghost domains: map<string, set<NodeId>>)
      returns (r: Result<Parsed, AggregateError>)
    requires Sliced(plan) && Separate(plan) && Inventoried(plan, items)
    requires Merging(plan, RunsOf(items), records, merged, discovered, domains)
    ensures r.Ok? <==> forall n :: !Stray(items, records, n)
    ensures r.Err? ==> r.error == Uncovered
    ensures r.Ok? ==> Merged(plan.norm, records.Keys, records, r.value.records)
    ensures r.Ok? ==> r.value.records.Keys == r.value.discovered
    ensures r.Ok? ==> r.value.discovered == Image(plan.norm, AllDiscovered(RunsOf(items)))
  {
    FinalCheck(plan, items, records, merged, discovered, domains);
    if |merged| != |records| || merged.Keys != discovered {
      return Err(Uncovered);
    }
    NoStray(items, records);
    r := Ok(Parsed(merged, discovered));
  }

  /** Accepts exactly the consistent aggregates without stray records; the overlap check never fires. */
  method ParseAggregate(plan: Plan, items: seq<Item>, records: map<NodeId, Record>)
      returns (r: Result<Parsed, AggregateError>)
    requires Sliced(plan) && Separate(plan)
    requires forall i, j :: 0 <= i < j < |items| ==> items[i].shard != items[j].shard
    ensures r.Ok? <==> Consistent(plan, items, records) && forall n :: !Stray(items, records, n)
    ensures r.Ok? <==> Accepted(plan, items, records)
    ensures r == Err(Uncovered) <==> Consistent(plan, items, records) && exists n :: Stray(items, records, n)
    ensures r.Err? ==> !r.error.Overlap?
    ensures r.Ok? ==> Merged(plan.norm, records.Keys, records, r.value.records)
    ensures r.Ok? ==> r.value.records.Keys == r.value.discovered
    ensures r.Ok? ==> r.value.discovered == Image(plan.norm, AllDiscovered(RunsOf(items)))
  {
    ConsistentIsAccepted(plan, items, records);
    if (set i | 0 <= i < |items| :: items[i].shard) != plan.shards || records == map[] {
      return Err(Inventory);
    }
    var entries := MergeEntries(plan, items, records);
    if entries.Err? {
      return Err(entries.error);
    }
    r := CheckCoverage(plan, items, records, entries.value.0, entries.value.1, entries.value.2);
  }

  lemma ConsistentRuns(plan: Plan, items: seq<Item>, records: map<NodeId, Record>)
    requires Consistent(plan, items, records)
    ensures AllExact(plan, RunsOf(items)) && Complete(plan, RunsOf(items))
  {
    forall i | 0 <= i < |items|
      ensures Exact(plan, RunsOf(items)[i])
    {
      SoundIsExact(plan, items[i], records);
    }
  }

  /** In a consistent aggregate every discovered test has its record from exactly one shard. */
  lemma RecordedOnce(plan: Plan, items: seq<Item>, records: map<NodeId, Record>, i: nat, n: NodeId) returns (j: nat)
    requires Sliced(plan) && Separate(plan) && Consistent(plan, items, records)
    requires i < |items| && n in items[i].session.discovered
    ensures j < |items| && n in records
    ensures forall k :: 0 <= k < |items| ==> (n in items[k].session.collected <==> k == j)
  {
    ConsistentRuns(plan, items, records);
    var runs := RunsOf(items);
    j := ExactlyOnce(plan, runs, i, n);
    assert CollectedIn(runs, j, n);
    forall k | 0 <= k < |items|
      ensures n in items[k].session.collected <==> k == j
    {
      assert CollectedIn(runs, k, n) <==> n in items[k].session.collected;
    }
    assert SoundMain(plan, items[j], records) && n in Elems(items[j].session.collected);
  }

  // The stress runs of the PostgreSQL shards -------------------------------------------------

  ghost function StressRunOf(item: Item): Run {
    Run(item.shard, if item.stress.Some? then item.stress.value.session else item.session)
  }

  ghost function StressRunsOf(items: seq<Item>): (runs: seq<Run>)
    ensures |runs| == |items|
    ensures forall i :: 0 <= i < |items| ==> runs[i] == StressRunOf(items[i])
  {
    seq(|items|, i requires 0 <= i < |items| => StressRunOf(items[i]))
  }

  lemma StressIsExact(plan: Plan, item: Item, records: map<NodeId, Record>)
    requires item.shard in plan.shards && SoundMain(plan, item, records) && SoundStress(plan, item)
    ensures Exact(plan, StressRunOf(item)) && Found(plan, StressRunOf(item)) == Found(plan, RunOf(item))
  {
    SoundIsExact(plan, item, records);
    if item.stress.Some? {
      var value := item.stress.value;
      forall n
        ensures n in value.session.collected <==> n in value.session.discovered && plan.takes(item.shard, n)
      {
        assert n in value.session.collected <==> n in value.records.Keys;
      }
      assert Found(plan, StressRunOf(item)) == set n | n in value.session.discovered :: plan.norm(n);
      assert Found(plan, RunOf(item)) == set n | n in item.session.discovered :: plan.norm(n);
    }
  }

  lemma StressRunsExact(plan: Plan, items: seq<Item>, records: map<NodeId, Record>)
    requires Consistent(plan, items, records)
    ensures AllExact(plan, StressRunsOf(items))
    ensures Agree(plan, StressRunsOf(items)) && Complete(plan, StressRunsOf(items))
  {
    var main, runs := RunsOf(items), StressRunsOf(items);
    ConsistentRuns(plan, items, records);
    forall k | 0 <= k < |items|
      ensures Exact(plan, runs[k]) && Found(plan, runs[k]) == Found(plan, main[k])
    {
      assert Exact(plan, main[k]);
      StressIsExact(plan, items[k], records);
    }
  }

  /** The stress runs, too, executed every discovered PostgreSQL test in exactly one shard. */
  lemma StressedOnce(plan: Plan, items: seq<Item>, records: map<NodeId, Record>, i: nat, n: NodeId) returns (j: nat)
    requires Sliced(plan) && Separate(plan) && Consistent(plan, items, records)
    requires i < |items| && plan.postgres(items[i].shard) && n in StressRunOf(items[i]).session.discovered
    ensures j < |items| && forall k :: 0 <= k < |items| ==> (n in StressRunOf(items[k]).session.collected <==> k == j)
  {
    var runs := StressRunsOf(items);
    StressRunsExact(plan, items, records);
    j := ExactlyOnce(plan, runs, i, n);
    forall k | 0 <= k < |items|
      ensures n in StressRunOf(items[k]).session.collected <==> k == j
    {
      assert CollectedIn(runs, k, n) <==> n in StressRunOf(items[k]).session.collected;
    }
  }

  // Building the aggregate -----------------------------------------------------------------

  /** What one shard's gate leaves behind. */
  datatype Gate = Gate(shard: string, receipt: Receipt, stress: Option<Receipt>)

  function ItemOf(gate: Gate): Item {
    Item(gate.shard, gate.receipt.session, gate.stress)
  }

  function ItemsOf(gates: seq<Gate>): (items: seq<Item>)
    ensures |items| == |gates|
    ensures forall i :: 0 <= i < |gates| ==> items[i] == ItemOf(gates[i])
  {
    seq(|gates|, i requires 0 <= i < |gates| => ItemOf(gates[i]))
  }

  ghost predicate GatesValid(plan: Plan, gates: seq<Gate>) {
    forall i :: 0 <= i < |gates| ==> ValidShard(plan, gates[i].shard, false, gates[i].receipt)
  }

  /** The union of the receipts' records. */
  ghost predicate United(gates: seq<Gate>, records: map<NodeId, Record>) {
    && records.Keys == AllCollected(RunsOf(ItemsOf(gates)))
    && forall i :: 0 <= i < |gates| ==> Within(gates[i].receipt.records, records)
  }

  ghost predicate Within(part: map<NodeId, Record>, whole: map<NodeId, Record>) {
    forall n :: n in part ==> n in whole && whole[n] == part[n]
  }

  /** A valid receipt is recovered from any records it lies within. */
  lemma CutOutIsReceipt(plan: Plan, gate: Gate, records: map<NodeId, Record>)
    requires ValidShard(plan, gate.shard, false, gate.receipt) && Within(gate.receipt.records, records)
    ensures CutOut(gate.receipt.session, records) == gate.receipt
  {
    var cut := CutOut(gate.receipt.session, records).records;
    forall n
      ensures n in cut <==> n in gate.receipt.records
    {
      assert n in gate.receipt.session.collected <==> n in gate.receipt.records.Keys;
    }
    assert cut == gate.receipt.records;
  }

  lemma GateExact(plan: Plan, gate: Gate)
    requires gate.shard in plan.shards && ValidShard(plan, gate.shard, false, gate.receipt)
    ensures Exact(plan, RunOf(ItemOf(gate)))
  {
    forall n
      ensures n in gate.receipt.session.collected <==> n in gate.receipt.session.discovered && plan.takes(gate.shard, n)
    {
      assert n in gate.receipt.session.collected <==> n in gate.receipt.records.Keys;
    }
  }

  lemma NeverShared(plan: Plan, runs: seq<Run>, run: Run)
    requires Sliced(plan) && Separate(plan) && AllExact(plan, runs + [run])
    ensures AllCollected(runs) !! Elems(run.session.collected)
  {
    NeverOverlaps(plan, runs, run);
    assert forall n :: n in AllCollected(runs) ==> plan.norm(n) in Image(plan.norm, AllCollected(runs));
    assert forall n :: n in Elems(run.session.collected) ==>
      plan.norm(n) in Image(plan.norm, Elems(run.session.collected));
  }

  lemma UnitedStep(gates: seq<Gate>, gate: Gate, records: map<NodeId, Record>)
    requires United(gates, records) && Elems(gate.receipt.session.collected) == gate.receipt.records.Keys
    requires records.Keys !! gate.receipt.records.Keys
    ensures United(gates + [gate], records + gate.receipt.records)
  {
    var all, next := gates + [gate], records + gate.receipt.records;
    assert RunsOf(ItemsOf(all)) == RunsOf(ItemsOf(gates)) + [RunOf(ItemOf(gate))];
    AllCollectedNext(RunsOf(ItemsOf(gates)), RunOf(ItemOf(gate)));
    forall i | 0 <= i < |all|
      ensures Within(all[i].receipt.records, next)
    {
      if i < |gates| {
        assert all[i] == gates[i] && Within(gates[i].receipt.records, records);
      }
    }
  }

  /** The next receipt shares no id with the united ones, and joins them. */
  lemma UniteNext(plan: Plan, gates: seq<Gate>, k: nat, records: map<NodeId, Record>)
    requires Sliced(plan) && Separate(plan) && Inventoried(plan, ItemsOf(gates)) && k < |gates|
    requires GatesValid(plan, gates[..k + 1]) && United(gates[..k], records)
    ensures records.Keys !! gates[k].receipt.records.Keys
    ensures United(gates[..k + 1], records + gates[k].receipt.records)
  {
    assert gates[..k + 1] == gates[..k] + [gates[k]];
    assert RunsOf(ItemsOf(gates[..k + 1])) == RunsOf(ItemsOf(gates[..k])) + [RunOf(ItemOf(gates[k]))];
    PrefixExact(plan, gates, k + 1);
    NeverShared(plan, RunsOf(ItemsOf(gates[..k])), RunOf(ItemOf(gates[k])));
    assert ValidShard(plan, gates[..k + 1][k].shard, false, gates[..k + 1][k].receipt);
    UnitedStep(gates[..k], gates[k], records);
  }

  lemma PrefixExact(plan: Plan, gates: seq<Gate>, k: nat)
    requires Inventoried(plan, ItemsOf(gates)) && k <= |gates| && GatesValid(plan, gates[..k])
    ensures AllExact(plan, RunsOf(ItemsOf(gates[..k])))
  {
    forall i | 0 <= i < k
      ensures Exact(plan, RunsOf(ItemsOf(gates[..k]))[i])
    {
      assert gates[..k][i] == gates[i] && ItemsOf(gates)[i].shard in plan.shards;
      GateExact(plan, gates[i]);
    }
  }

  /** Uniting the records: fails only for an invalid receipt. */
  method UniteReceipts(plan: Plan, gates: seq<Gate>) returns (r: Result<map<NodeId, Record>, AggregateError>)
    requires Sliced(plan) && Separate(plan) && Inventoried(plan, ItemsOf(gates))
    ensures r.Ok? <==> GatesValid(plan, gates)
    ensures r.Ok? ==> United(gates, r.value)
    ensures r.Err? ==> r.error.Unsound?
  {
    var records: map<NodeId, Record> := map[];
    for k := 0 to |gates|
      invariant GatesValid(plan, gates[..k]) && United(gates[..k], records)
    {
      var gate := gates[k];
      if !ValidShard(plan, gate.shard, false, gate.receipt) {
        return Err(Unsound(gate.shard));
      }
      assert gates[..k + 1] == gates[..k] + [gate];
      UniteNext(plan, gates, k, records);
      if !(records.Keys !! gate.receipt.records.Keys) {
        return Err(Overlap(gate.shard));
      }
      records := records + gate.receipt.records;
    }
    assert gates[..|gates|] == gates;
    r := Ok(records);
  }

  /** The gates' entries pass the checks on their own. */
  ghost predicate GatesSound(plan: Plan, gates: seq<Gate>) {
    forall i :: 0 <= i < |gates| ==> GateCurrent(plan, gates[i])
  }

  ghost predicate GateCurrent(plan: Plan, gate: Gate) {
    plan.current(ItemOf(gate)) && SoundStress(plan, ItemOf(gate))
  }

  /** The entry of a valid gate passes its checks if it is current. */
  lemma GateSound(plan: Plan, gate: Gate, records: map<NodeId, Record>)
    requires ValidShard(plan, gate.shard, false, gate.receipt) && Within(gate.receipt.records, records)
    ensures Sound(plan, ItemOf(gate), records) <==> GateCurrent(plan, gate)
  {
    CutOutIsReceipt(plan, gate, records);
    assert forall n :: n in gate.receipt.records.Keys ==> n in records;
  }

  lemma UnitedSound(plan: Plan, gates: seq<Gate>, records: map<NodeId, Record>)
    requires GatesValid(plan, gates) && United(gates, records)
    ensures AllSound(plan, ItemsOf(gates), records) <==> GatesSound(plan, gates)
  {
    forall i | 0 <= i < |gates|
      ensures Sound(plan, ItemsOf(gates)[i], records) <==> GateCurrent(plan, gates[i])
    {
      GateSound(plan, gates[i], records);
    }
  }

  ghost predicate Lossless(gates: seq<Gate>, records: map<NodeId, Record>) {
    forall i :: 0 <= i < |gates| ==> CutOut(gates[i].receipt.session, records) == gates[i].receipt
  }

  lemma UnitedLossless(plan: Plan, gates: seq<Gate>, records: map<NodeId, Record>)
    requires GatesValid(plan, gates) && United(gates, records)
    ensures Lossless(gates, records)
    ensures forall n :: !Stray(ItemsOf(gates), records, n)
    ensures gates != [] <==> records != map[]
  {
    forall i | 0 <= i < |gates|
      ensures CutOut(gates[i].receipt.session, records) == gates[i].receipt
    {
      CutOutIsReceipt(plan, gates[i], records);
    }
    if gates != [] {
      var n := gates[0].receipt.session.collected[0];
      assert ValidShard(plan, gates[0].shard, false, gates[0].receipt);
      assert n in Elems(gates[0].receipt.session.collected);
      assert Within(gates[0].receipt.records, records);
    } else {
      assert records.Keys == {};
    }
  }

  /** The gates whose receipts make an aggregate. */
  ghost predicate Mergeable(plan: Plan, gates: seq<Gate>) {
    && gates != [] && Inventoried(plan, ItemsOf(gates))
    && GatesValid(plan, gates) && GatesSound(plan, gates) && Agree(plan, RunsOf(ItemsOf(gates)))
  }

  lemma MergeableIsConsistent(plan: Plan, gates: seq<Gate>, records: map<NodeId, Record>)
    requires Inventoried(plan, ItemsOf(gates)) && GatesValid(plan, gates) && United(gates, records)
    ensures Mergeable(plan, gates) <==> Consistent(plan, ItemsOf(gates), records)
  {
    UnitedSound(plan, gates, records);
    UnitedLossless(plan, gates, records);
  }

  /** Builds the aggregate of all shards: nothing of any receipt is lost. */
  method AggregateResults(plan: Plan, gates: seq<Gate>) returns (r: Result<map<NodeId, Record>, AggregateError>)
    requires Sliced(plan) && Separate(plan)
    requires forall i, j :: 0 <= i < j < |gates| ==> gates[i].shard != gates[j].shard
    ensures r.Ok? <==> Mergeable(plan, gates)
    ensures r.Ok? ==> Lossless(gates, r.value) && r.value.Keys == AllDiscovered(RunsOf(ItemsOf(gates)))
    ensures r.Err? ==> !r.error.Overlap? && !r.error.Uncovered?
  {
    if (set i | 0 <= i < |gates| :: gates[i].shard) != plan.shards {
      return Err(Inventory);
    }
    r := UniteReceipts(plan, gates);
    if r.Err? {
      return;
    }
    MergeableIsConsistent(plan, gates, r.value);
    UnitedLossless(plan, gates, r.value);
    var parsed := ParseAggregate(plan, ItemsOf(gates), r.value);
    if parsed.Err? {
      return Err(parsed.error);
    }
    ConsistentRuns(plan, ItemsOf(gates), r.value);
    NothingMissing(plan, RunsOf(ItemsOf(gates)));
  }

  // The plan of a repository ------------------------------------------------------------------

  /** The shards, slots and files as the test partition defines them. */
  function PlanOf(hash: string -> nat, targets: string -> seq<string>, norm: NodeId -> NodeId,
      fits: (string, bool, Receipt) -> bool, current: Item -> bool): Plan {
    Plan(
      Elems(TestPartition.SHARDS),
      TestPartition.LogicalDomain,
      s => TestPartition.LogicalDomain(s) != s,
      s => TestPartition.LogicalDomain(s) == TestPartition.POSTGRES,
      targets,
      (s, n) => TestPartition.Takes(hash, s, n),
      norm, fits, current)
  }

  lemma DomainOfShard(s: string)
    requires s in TestPartition.SHARDS
    ensures TestPartition.LogicalDomain(s) in TestPartition.TEST_DOMAINS
    ensures TestPartition.LogicalDomain(s) == s <==> TestPartition.LogicalDomain(s) == TestPartition.FAULT_RUNNER
    ensures TestPartition.LogicalDomain(s) == s ==> TestPartition.ShardPartition(s) == Some(None)
  {
    var d, index := TestPartition.ShardShape(s);
  }

  /** The slots of the partition slice every plan built on it. */
  lemma PlanSliced(hash: string -> nat, targets: string -> seq<string>, norm: NodeId -> NodeId,
      fits: (string, bool, Receipt) -> bool, current: Item -> bool)
    ensures Sliced(PlanOf(hash, targets, norm, fits, current))
  {
    var plan := PlanOf(hash, targets, norm, fits, current);
    forall s | s in plan.shards
      ensures plan.domain(s) in TestPartition.TEST_DOMAINS
      ensures plan.partitioned(s) <==> plan.domain(s) != TestPartition.FAULT_RUNNER
      ensures !plan.partitioned(s) ==> forall n :: plan.takes(s, n)
    {
      DomainOfShard(s);
    }
    forall s, n | s in plan.shards
      ensures Taker(plan, plan.domain(s), n)
      ensures plan.takes(s, n) ==> s == TestPartition.ShardFor(hash, plan.domain(s), n)
    {
      TestPartition.OneShard(hash, plan.domain(s), n);
      var t := TestPartition.ShardFor(hash, plan.domain(s), n);
      assert t in plan.shards && plan.domain(t) == plan.domain(s) && plan.takes(t, n);
    }
  }

  /** Ownership keeps the domains apart, for every repository. */
  lemma PlanSeparate(repo: TestPartition.Repository, hash: string -> nat, targets: string -> seq<string>,
      norm: NodeId -> NodeId,
      fits: (string, bool, Receipt) -> bool, current: Item -> bool)
    requires forall s :: s in TestPartition.SHARDS ==>
      Elems(targets(s)) == TestPartition.TestsOf(repo, TestPartition.LogicalDomain(s))
    requires forall m, n ::
      TestPartition.FileOf(m) in repo.files && TestPartition.FileOf(n) in repo.files && norm(m) == norm(n) ==> m == n
    ensures Separate(PlanOf(hash, targets, norm, fits, current))
  {
    var plan := PlanOf(hash, targets, norm, fits, current);
    forall s, n | Target(plan, s, n)
      ensures TestPartition.FileOf(n) in TestPartition.TestsOf(repo, plan.domain(s))
    {
      assert TestPartition.FileOf(n) in Elems(targets(s));
    }
    forall s, t, n | Target(plan, s, n) && Target(plan, t, n)
      ensures plan.domain(s) == plan.domain(t)
    {
      TestPartition.GroupDomain(plan.domain(s));
      TestPartition.GroupDomain(plan.domain(t));
    }
  }
}
