/**
 The local PostgreSQL shards: each runs the tests whose hash falls into its
 slot, and the union of their receipts must cover the full discovery.
 */
module PartitionUnion {
  import opened Orders
  import opened TestPartition
  import opened Wrappers

  type NodeId = string

  datatype ShardReceipt = ShardReceipt(index: nat, discovered: set<NodeId>, durations: map<NodeId, real>)

  datatype ShardError = Discovery | MissingFile | BadEvidence | BadSlice

  datatype UnionError = Inventory | NoReceipts | Disagreement | Overlap | Uncovered

  // One shard's slice ---------------------------------------------------------------

  /** The part of a discovery that belongs to one slot. */
  ghost function Slice(hash: string -> nat, discovered: set<NodeId>, workers: nat, index: nat): set<NodeId>
    requires workers >= 1
  {
    set n | n in discovered && PartitionFor(hash, n, workers) == index
  }

  /** A receipt timed exactly its slice, and the slice is not empty. */
  ghost predicate Sliced(hash: string -> nat, receipt: ShardReceipt, workers: nat)
    requires workers >= 1
  {
    receipt.durations.Keys == Slice(hash, receipt.discovered, workers, receipt.index) && receipt.durations != map[]
  }

  /**
   The partition check of one shard's receipt, given as normalised records and
   discovery. `relative` gives an id relative to the checkout, if it is one of a
   requested test; `duration` the time of a record with sound evidence.
   */
  ghost predicate SliceValid<R(!new)>(hash: string -> nat, records: map<NodeId, R>, discovered: set<NodeId>,
      tests: seq<string>,
      workers: nat, index: nat, relative: NodeId -> Option<NodeId>, duration: R -> Option<real>)
    requires workers >= 1
  {
    && (forall n :: n in discovered || n in records ==> relative(n).Some?)
    && (set n | n in discovered && relative(n).Some? :: FileOf(relative(n).value)) == Elems(tests)
    && (forall n :: n in records ==> duration(records[n]).Some?)
    && (var slice := Slice(hash, set n | n in discovered && relative(n).Some? :: relative(n).value, workers, index);
        slice != {} && slice == set n | n in records && relative(n).Some? :: relative(n).value)
  }

  /** The durations of the records, by relative id. */
  method Durations<R(!new)>(records: map<NodeId, R>, relative: NodeId -> Option<NodeId>, duration: R -> Option<real>)
      returns (r: Option<map<NodeId, real>>)
    ensures r.Some? <==> forall n :: n in records ==> relative(n).Some? && duration(records[n]).Some?
    ensures r.Some? ==> r.value.Keys == set n | n in records && relative(n).Some? :: relative(n).value
    ensures r.Some? ==> forall k :: k in r.value ==> TimedBy(records, relative, duration, k, r.value[k])
  {
    var durations: map<NodeId, real> := map[];
    var rest := records.Keys;
    while rest != {}
      invariant rest <= records.Keys
      invariant forall n :: n in records && n !in rest ==>
        relative(n).Some? && duration(records[n]).Some? && relative(n).value in durations
      invariant forall k :: k in durations ==> TimedBy(records, relative, duration, k, durations[k])
      decreases rest
    {
      var n :| n in rest;
      rest := rest - {n};
      var time := duration(records[n]);
      var id := relative(n);
      if time.None? || id.None? {
        return None;
      }
      assert TimedBy(records, relative, duration, id.value, time.value);
      durations := durations[id.value := time.value];
    }
    r := Some(durations);
  }

  ghost predicate TimedBy<R(!new)>(records: map<NodeId, R>, relative: NodeId -> Option<NodeId>,
      duration: R -> Option<real>, key: NodeId, time: real) {
    exists n :: n in records && relative(n) == Some(key) && duration(records[n]) == Some(time)
  }

  /** Accepts exactly the receipts that executed their non-empty slice of the requested files. */
  method ValidateSlice<R(!new)>(hash: string -> nat, records: map<NodeId, R>, discovered: set<NodeId>,
      tests: seq<string>,
      workers: nat, index: nat, relative: NodeId -> Option<NodeId>, duration: R -> Option<real>)
      returns (r: Result<ShardReceipt, ShardError>)
    requires workers >= 1
    ensures r.Ok? <==> SliceValid(hash, records, discovered, tests, workers, index, relative, duration)
    ensures r.Ok? ==> Sliced(hash, r.value, workers) && r.value.index == index
    ensures r.Ok? ==> r.value.discovered == set n | n in discovered && relative(n).Some? :: relative(n).value
    ensures r.Ok? ==>
      forall k :: k in r.value.durations ==> TimedBy(records, relative, duration, k, r.value.durations[k])
  {
    if exists n :: n in discovered && relative(n).None? {
      return Err(Discovery);
    }
    var found := set n | n in discovered && relative(n).Some? :: relative(n).value;
    if (set n | n in discovered && relative(n).Some? :: FileOf(relative(n).value)) != Elems(tests) {
      return Err(MissingFile);
    }
    var expected := set n | n in found && PartitionFor(hash, n, workers) == index;
    var durations := Durations(records, relative, duration);
    if durations.None? {
      return Err(BadEvidence);
    }
    if expected == {} || durations.value.Keys != expected {
      return Err(BadSlice);
    }
    r := Ok(ShardReceipt(index, found, durations.value));
  }

  // The union -------------------------------------------------------------------------

  predicate HasIndex(receipts: seq<ShardReceipt>, k: nat) {
    exists i :: 0 <= i < |receipts| && receipts[i].index == k
  }

  /** As many receipts as workers, and their indices are those of the workers. */
  predicate Inventoried(receipts: seq<ShardReceipt>, workers: nat) {
    && |receipts| == workers
    && (forall i :: 0 <= i < |receipts| ==> receipts[i].index < workers)
    && (forall k :: 0 <= k < workers ==> HasIndex(receipts, k))
  }

  ghost predicate Agreed(receipts: seq<ShardReceipt>) {
    forall i :: 0 <= i < |receipts| ==> receipts[i].discovered == receipts[0].discovered
  }

  ghost predicate Disjoint(receipts: seq<ShardReceipt>) {
    forall i, j :: 0 <= i < j < |receipts| ==> receipts[i].durations.Keys !! receipts[j].durations.Keys
  }

  ghost function Timed(receipts: seq<ShardReceipt>): set<NodeId> {
    set i, n | 0 <= i < |receipts| && n in receipts[i].durations :: n
  }

  ghost predicate Kept(receipts: seq<ShardReceipt>, durations: map<NodeId, real>) {
    forall i, n :: 0 <= i < |receipts| && n in receipts[i].durations ==>
      n in durations && durations[n] == receipts[i].durations[n]
  }

  lemma TimedNext(receipts: seq<ShardReceipt>, k: nat)
    requires k < |receipts|
    ensures Timed(receipts[..k + 1]) == Timed(receipts[..k]) + receipts[k].durations.Keys
  {
    var a, b := receipts[..k], receipts[..k + 1];
    forall n
      ensures n in Timed(b) <==> n in Timed(a) || n in receipts[k].durations
    {
      if n in Timed(b) {
        var i :| 0 <= i < |b| && n in b[i].durations;
        assert i < k ==> a[i] == b[i];
      }
      if n in Timed(a) {
        var i :| 0 <= i < |a| && n in a[i].durations;
        assert b[i] == a[i];
      }
      if n in receipts[k].durations {
        assert b[k] == receipts[k];
      }
    }
  }

  lemma SharedTimes(receipts: seq<ShardReceipt>, k: nat, n: NodeId)
    requires k < |receipts| && n in Timed(receipts[..k]) && n in receipts[k].durations
    ensures !Disjoint(receipts)
  {
    var i :| 0 <= i < k && n in receipts[..k][i].durations;
    assert receipts[..k][i] == receipts[i];
  }

  lemma NotAgreed(receipts: seq<ShardReceipt>, k: nat)
    requires k < |receipts| && receipts[k].discovered != receipts[0].discovered
    ensures !Agreed(receipts)
  {
  }

  /** The union loop. */
  method Unite(receipts: seq<ShardReceipt>) returns (r: Result<map<NodeId, real>, UnionError>)
    requires receipts != []
    ensures r.Ok? <==> Agreed(receipts) && Disjoint(receipts)
    ensures r.Ok? ==> r.value.Keys == Timed(receipts) && Kept(receipts, r.value)
    ensures r.Err? ==> r.error == Disagreement || (r.error == Overlap && !Disjoint(receipts))
  {
    var durations: map<NodeId, real> := map[];
    for k := 0 to |receipts|
      invariant Agreed(receipts[..k]) && Disjoint(receipts[..k])
      invariant durations.Keys == Timed(receipts[..k]) && Kept(receipts[..k], durations)
    {
      var receipt := receipts[k];
      if receipt.discovered != receipts[0].discovered {
        NotAgreed(receipts, k);
        return Err(Disagreement);
      }
      TimedNext(receipts, k);
      if n :| n in durations && n in receipt.durations {
        SharedTimes(receipts, k, n);
        return Err(Overlap);
      }
      UniteNext(receipts, k, durations);
      durations := durations + receipt.durations;
    }
    assert receipts[..|receipts|] == receipts;
    r := Ok(durations);
  }

  lemma UniteNext(receipts: seq<ShardReceipt>, k: nat, durations: map<NodeId, real>)
    requires k < |receipts| && Agreed(receipts[..k]) && receipts[k].discovered == receipts[0].discovered
    requires Disjoint(receipts[..k]) && durations.Keys == Timed(receipts[..k]) && Kept(receipts[..k], durations)
    requires durations.Keys !! receipts[k].durations.Keys
    ensures Agreed(receipts[..k + 1]) && Disjoint(receipts[..k + 1])
    ensures Kept(receipts[..k + 1], durations + receipts[k].durations)
  {
    var a, b := receipts[..k], receipts[..k + 1];
    assert b == a + [receipts[k]];
    forall i | 0 <= i < k
      ensures a[i].durations.Keys !! receipts[k].durations.Keys
    {
      assert forall n :: n in a[i].durations ==> n in Timed(a);
    }
  }

  /** Accepts exactly the complete inventories of agreeing, disjoint, covering receipts, and keeps every duration. */
  method ValidatePartitionUnion(receipts: seq<ShardReceipt>, workers: nat)
      returns (r: Result<map<NodeId, real>, UnionError>)
    ensures r.Ok? <==>
      && Inventoried(receipts, workers) && receipts != [] && Agreed(receipts) && Disjoint(receipts)
      && Timed(receipts) == receipts[0].discovered
    ensures r.Ok? ==> r.value.Keys == receipts[0].discovered && Kept(receipts, r.value)
    ensures r == Err(Overlap) ==> !Disjoint(receipts)
    ensures r == Err(Uncovered) ==>
      Agreed(receipts) && Disjoint(receipts) && receipts != [] && Timed(receipts) != receipts[0].discovered
    ensures r == Err(NoReceipts) <==> workers == 0 && receipts == []
  {
    if !Inventoried(receipts, workers) {
      return Err(Inventory);
    }
    if receipts == [] {
      return Err(NoReceipts);
    }
    r := Unite(receipts);
    if r.Ok? && r.value.Keys != receipts[0].discovered {
      return Err(Uncovered);
    }
  }

  // Receipts that timed their slices ----------------------------------------------------------

  ghost predicate AllSliced(hash: string -> nat, receipts: seq<ShardReceipt>, workers: nat)
    requires workers >= 1
  {
    forall i :: 0 <= i < |receipts| ==> Sliced(hash, receipts[i], workers)
  }

  ghost function UpTo(n: nat): (r: set<nat>)
    ensures |r| == n && forall k :: k in r <==> 0 <= k < n
  {
    if n == 0 then {} else UpTo(n - 1) + {n - 1}
  }

  lemma {:induction false} DistinctBySize<T>(s: seq<T>)
    ensures |Elems(s)| <= |s|
    ensures |Elems(s)| == |s| ==> Distinct(s)
  {
    if s != [] {
      var init, last := s[..|s| - 1], s[|s| - 1];
      DistinctBySize(init);
      assert Elems(s) == Elems(init) + {last};
      if last in init {
        assert Elems(s) == Elems(init);
      }
    }
  }

  /** A complete inventory has one receipt per slot. */
  lemma OnePerSlot(receipts: seq<ShardReceipt>, workers: nat)
    requires Inventoried(receipts, workers)
    ensures forall i, j :: 0 <= i < j < |receipts| ==> receipts[i].index != receipts[j].index
  {
    var indices: seq<nat> := seq(|receipts|, i requires 0 <= i < |receipts| => receipts[i].index);
    forall k | 0 <= k < workers
      ensures k in Elems(indices)
    {
      assert HasIndex(receipts, k);
      var i :| 0 <= i < |receipts| && receipts[i].index == k;
      assert indices[i] == k;
    }
    assert Elems(indices) == UpTo(workers);
    DistinctBySize(indices);
    forall i, j | 0 <= i < j < |receipts|
      ensures receipts[i].index != receipts[j].index
    {
      assert indices[i] != indices[j];
    }
  }

  /** Agreeing slices are disjoint and cover the discovery: the last two checks cannot fail. */
  lemma SlicesCover(hash: string -> nat, receipts: seq<ShardReceipt>, workers: nat)
    requires workers >= 1 && Inventoried(receipts, workers) && Agreed(receipts) && AllSliced(hash, receipts, workers)
    ensures Disjoint(receipts) && Timed(receipts) == receipts[0].discovered
  {
    OnePerSlot(receipts, workers);
    forall n | n in receipts[0].discovered
      ensures n in Timed(receipts)
    {
      var i := TimedInSlot(hash, receipts, workers, n);
    }
    forall n | n in Timed(receipts)
      ensures n in receipts[0].discovered
    {
      var i :| 0 <= i < |receipts| && n in receipts[i].durations;
      assert Sliced(hash, receipts[i], workers);
    }
    forall i, j | 0 <= i < j < |receipts|
      ensures receipts[i].durations.Keys !! receipts[j].durations.Keys
    {
      assert Sliced(hash, receipts[i], workers) && Sliced(hash, receipts[j], workers);
    }
  }

  /** Every discovered test is timed by exactly one receipt: the one of its slot. */
  lemma TimedInSlot(hash: string -> nat, receipts: seq<ShardReceipt>, workers: nat, n: NodeId) returns (i: nat)
    requires workers >= 1 && Inventoried(receipts, workers) && Agreed(receipts) && AllSliced(hash, receipts, workers)
    requires n in receipts[0].discovered
    ensures i < |receipts| && receipts[i].index == PartitionFor(hash, n, workers)
    ensures forall j :: 0 <= j < |receipts| ==> (n in receipts[j].durations <==> j == i)
  {
    OnePerSlot(receipts, workers);
    assert HasIndex(receipts, PartitionFor(hash, n, workers));
    i :| 0 <= i < |receipts| && receipts[i].index == PartitionFor(hash, n, workers);
    forall j | 0 <= j < |receipts|
      ensures n in receipts[j].durations <==> j == i
    {
      assert Sliced(hash, receipts[j], workers);
      assert n in receipts[j].discovered;
    }
  }
}
