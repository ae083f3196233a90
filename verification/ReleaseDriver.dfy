/**
 The release transaction driver. Every external step may fail; the driver
 decides, commits, records phases and recovers. Every run of it follows a
 protocol of stages, and what holds of all traces of that protocol holds of
 every run, whatever fails.
 */
module ReleaseDriver {

  import opened Wrappers

  datatype Phase = Deployed | Verified | Stable | Completed | Failed

  /** What the driver does outside itself. */
  datatype Step =
    | LoadSite | ReadState | PlanProfile | ResolveApproval | Checks | Prepare
    | CollectDiff | StageNoop | ClearEvidence | Deploy | FinalizeEvidence
    | Verify | WatchStability | WriteVerification | WriteStability
    | Record(phase: Phase)
    | Commit | RollCpus | KeepRegistry | ReloadSite | SyncRegistry | Summarize
    | ReadLive | AutomaticRollback | CleanupRollback | AlignManagement
    | ConsumeApproval

  /** The live release state, as far as recovery looks at it. */
  datatype Live = Live(
    rolledBack: bool, rollbackPassed: bool, cleanupCompleted: Option<bool>,
    complete: bool, committed: bool, firstInstall: bool)

  datatype Reply =
    | Raised
    | Refused
    | Done
    | Kept
    | Difference(identified: bool, cleanNoop: bool, schema: Option<bool>)
    | Approval(related: bool)
    | State(live: Live)

  predicate Bad(reply: Reply) {
    reply.Raised? || reply.Refused?
  }

  datatype Event = Event(step: Step, reply: Reply)

  /** What the outside answers to the n-th step of a run. */
  type World = (nat, Step) -> Reply

  function Answer(world: World, n: nat, step: Step): Reply {
    world(n, step)
  }

  // Traces ------------------------------------------------------------------------

  /** The steps taken in the first `n` events. */
  ghost function TriedIn(trace: seq<Event>, n: nat): set<Step>
    requires n <= |trace|
  {
    set i | 0 <= i < n :: trace[i].step
  }

  /** The steps that succeeded there at least once. */
  ghost function SucceededIn(trace: seq<Event>, n: nat): set<Step>
    requires n <= |trace|
  {
    set i | 0 <= i < n && !Bad(trace[i].reply) :: trace[i].step
  }

  ghost function Tried(trace: seq<Event>): set<Step> {
    TriedIn(trace, |trace|)
  }

  ghost function Succeeded(trace: seq<Event>): set<Step> {
    SucceededIn(trace, |trace|)
  }

  /** The steps that failed at least once. */
  ghost function FailedSteps(trace: seq<Event>): set<Step> {
    set i | 0 <= i < |trace| && Bad(trace[i].reply) :: trace[i].step
  }

  // The protocol --------------------------------------------------------------------

  datatype Check = Pending | Fine | Doomed

  function CheckOf(reply: Reply): Check {
    if Bad(reply) then Doomed else Fine
  }

  /** Where a release is. */
  datatype Stage =
    | Preflight
    | Stopped
    | Deciding
    | Staged
    | Applied
    | Checking(noop: bool, verify: Check, watch: Check)
    | Proven
    | Ready(noop: bool)
    | Committed(noop: bool, next: Step)
    | Closed(consumed: Check, audited: Check)
    | Broken(deployed: bool, commitTried: bool, marked: bool, live: Option<Live>)

  predicate CommittedLive(live: Live) {
    live.complete && live.committed
  }

  /** Both concurrent checks have ended; a NOOP has only the first. */
  predicate Ended(stage: Stage)
    requires stage.Checking?
  {
    stage.verify != Pending && (stage.noop || stage.watch != Pending)
  }

  /** Once both checks have ended, a failed verification breaks the release. */
  function Settled(noop: bool, verify: Check, watch: Check): Stage {
    var stage := Checking(noop, verify, watch);
    if Ended(stage) && verify == Doomed then Broken(!noop, false, false, None) else stage
  }

  /** The steps after a commit. */
  predicate Closes(step: Step) {
    || step.RollCpus? || step.KeepRegistry? || step.ReloadSite? || step.SyncRegistry? || step.Summarize?
    || step == Record(Completed)
  }

  /** The steps a stage allows. */
  predicate Enabled(stage: Stage, step: Step) {
    match stage
    case Preflight => step in PREFLIGHT
    case Stopped => false
    case Deciding => step.CollectDiff? || step.StageNoop? || step.ClearEvidence? || step.Deploy?
    case Staged => step == Record(Deployed)
    case Applied => step == FinalizeEvidence || step == Record(Deployed)
    case Checking(noop, verify, watch) =>
      || (step == Verify && verify == Pending)
      || (step == WatchStability && watch == Pending && !noop)
      || ((step == WriteVerification || step == Record(Verified)) && verify == Fine && Ended(stage))
    case Proven => step == WriteStability || step == Record(Stable)
    case Ready(_) => step == Commit
    case Committed(_, next) => step == next && Closes(step)
    case Closed(consumed, audited) =>
      audited == Pending && step == if consumed == Pending then ConsumeApproval else Record(Completed)
    case Broken(deployed, commitTried, marked, live) =>
      || step == ReadLive || step == AlignManagement || step == Record(Failed)
      || (step == AutomaticRollback && deployed && marked && (commitTried ==> live.Some? && !CommittedLive(live.value)))
      || (step == CleanupRollback && live.Some? && live.value.rolledBack && live.value.rollbackPassed)
  }

  /** After the commit the steps have a fixed order; a NOOP whose last record stands needs no new one. */
  function NextClosing(noop: bool, step: Step, reply: Reply): Step {
    match step
    case RollCpus => if noop then KeepRegistry else ReloadSite
    case KeepRegistry => if reply.Kept? then Summarize else ReloadSite
    case ReloadSite => SyncRegistry
    case SyncRegistry => Summarize
    case _ => Record(Completed)
  }

  function NextCommitted(noop: bool, step: Step, reply: Reply): Stage {
    if Bad(reply) && (step == ReloadSite || step == Record(Completed)) then Broken(!noop, true, false, None)
    else if step == Record(Completed) then Closed(Pending, Pending)
    else Committed(noop, NextClosing(noop, step, reply))
  }

  /** A failed step of the transaction breaks it; the tolerated ones are not asked for their reply. */
  function Next(stage: Stage, step: Step, reply: Reply): Stage
    requires Enabled(stage, step)
  {
    var ok := !Bad(reply);
    match stage
    case Preflight => if !ok then Stopped else if step == Prepare then Deciding else Preflight
    case Deciding =>
      if step == CollectDiff then Deciding
      else if !ok then Broken(false, false, false, None)
      else if step == StageNoop then Staged else if step == Deploy then Applied else Deciding
    case Staged => if ok then Checking(true, Pending, Pending) else Broken(false, false, false, None)
    case Applied =>
      if !ok then Broken(true, false, false, None)
      else if step == FinalizeEvidence then Applied else Checking(false, Pending, Pending)
    case Checking(noop, verify, watch) =>
      if step == Verify then Settled(noop, if ok then Fine else Doomed, watch)
      else if step == WatchStability then Settled(noop, verify, if ok then Fine else Doomed)
      else if !ok then Broken(!noop, false, false, None)
      else if step == WriteVerification then Checking(noop, verify, watch)
      else if noop then Ready(true)
      else if watch == Fine then Proven else Broken(true, false, false, None)
    case Proven =>
      if !ok then Broken(true, false, false, None)
      else if step == WriteStability then Proven else Ready(false)
    case Ready(noop) => if ok then Committed(noop, RollCpus) else Broken(!noop, true, false, None)
    case Committed(noop, _) => NextCommitted(noop, step, reply)
    case Closed(consumed, _) =>
      if step == Record(Completed) then Closed(consumed, if ok then Fine else Doomed)
      else Closed(if ok then Fine else Doomed, if reply.Raised? then Doomed else Pending)
    case Broken(deployed, commitTried, marked, live) =>
      var read := step == ReadLive && reply.State?;
      Broken(deployed, commitTried, marked || (step == Record(Failed) && ok), if read then Some(reply.live) else live)
  }

  /** Holds of every value; mentioning it is what lets the verifier look inside the sealed predicates. */
  ghost predicate OpenedStage(stage: Stage) {
    true
  }

  /** The event is one the stage allows, and leads to `next`; sealed. */
  ghost predicate Moves(stage: Stage, event: Event, next: Stage) {
    forall s {:trigger OpenedStage(s)} :: OpenedStage(s) && s == stage ==>
      Enabled(s, event.step) && next == Next(s, event.step, event.reply)
  }

  lemma OpenMoves(stage: Stage, event: Event, next: Stage)
    ensures Moves(stage, event, next) <==> Enabled(stage, event.step) && next == Next(stage, event.step, event.reply)
  {
    assert OpenedStage(stage);
  }

  /** The stages between the events of a trace. */
  ghost predicate IsRun(trace: seq<Event>, stages: seq<Stage>) {
    && |stages| == |trace| + 1 && stages[0] == Preflight
    && forall i {:trigger trace[i]} :: 0 <= i < |trace| ==> Moves(stages[i], trace[i], stages[i + 1])
  }

  ghost predicate Leads(trace: seq<Event>, stage: Stage) {
    exists stages :: IsRun(trace, stages) && stages[|trace|] == stage
  }

  /** The trace follows the protocol. */
  ghost predicate Follows(trace: seq<Event>) {
    exists stages :: IsRun(trace, stages)
  }

  const PREFLIGHT := {LoadSite, ReadState, PlanProfile, ResolveApproval, Checks, Prepare}

  const RECOVERY := {ReadLive, AutomaticRollback, CleanupRollback, AlignManagement, Record(Failed)}

  const CLOSING := {Commit, ReloadSite, Record(Completed), ConsumeApproval}

  // What every stage knows about the steps behind it -------------------------------------

  /** One of the two ways, not both. */
  ghost predicate Path(noop: bool, tried: set<Step>, done: set<Step>) {
    if noop then StageNoop in done && Deploy !in tried && WatchStability !in tried
    else Deploy in done && StageNoop !in tried
  }

  /** What a commit needs: a valid verification and, unless it is a NOOP, a valid stability window, both on record. */
  ghost predicate Backed(done: set<Step>) {
    && Verify in done && Record(Verified) in done
    && (StageNoop in done || (WatchStability in done && Record(Stable) in done))
  }

  ghost predicate Checked(step: Step, check: Check, tried: set<Step>, done: set<Step>) {
    (check == Pending <==> step !in tried) && (check == Fine <==> step in done)
  }

  ghost predicate Facts(stage: Stage, tried: set<Step>, done: set<Step>) {
    && done <= tried
    && match stage
      case Preflight => tried <= PREFLIGHT
      case Stopped => tried <= PREFLIGHT
      case Deciding => tried !! {StageNoop, Deploy, Verify, WatchStability} + RECOVERY + CLOSING
      case Staged => tried !! {Verify, WatchStability} + RECOVERY + CLOSING && Path(true, tried, done)
      case Applied => tried !! {Verify, WatchStability} + RECOVERY + CLOSING && Path(false, tried, done)
      case Checking(noop, verify, watch) =>
        && tried !! RECOVERY + CLOSING && Path(noop, tried, done) && Settled(noop, verify, watch) == stage
        && Checked(Verify, verify, tried, done) && Checked(WatchStability, watch, tried, done)
      case Proven =>
        && tried !! RECOVERY + CLOSING && Path(false, tried, done)
        && Verify in done && Record(Verified) in done && WatchStability in done
      case Ready(noop) => tried !! RECOVERY + CLOSING && Path(noop, tried, done) && Backed(done)
      case Committed(noop, next) =>
        && tried !! RECOVERY + {Record(Completed), ConsumeApproval} && Path(noop, tried, done)
        && Backed(done) && Commit in done && (ReloadSite in tried ==> ReloadSite in done)
        && (next.RollCpus? || next.KeepRegistry? || next.ReloadSite? ==> ReloadSite !in tried)
      case Closed(consumed, _) =>
        && tried !! RECOVERY && Backed(done) && Commit in done && Record(Completed) in done
        && (ReloadSite in tried ==> ReloadSite in done)
        && Checked(ConsumeApproval, consumed, tried, done) && !(StageNoop in tried && Deploy in tried)
      case Broken(deployed, commitTried, marked, live) =>
        && (deployed <==> Deploy in done) && (commitTried <==> Commit in tried) && (marked <==> Record(Failed) in done)
        && (commitTried ==> Backed(done))
        && Record(Completed) !in done && ConsumeApproval !in tried && !(StageNoop in tried && Deploy in tried)
        && (if Commit in done then ReloadSite in tried - done <==> Record(Completed) !in tried
            else tried !! {ReloadSite, Record(Completed)})
        && (StageNoop !in tried ==> (Verify in tried <==> WatchStability in tried))
        && (Verify in done ==> WriteVerification in tried || Record(Verified) in tried)
  }

  lemma FactsPreflight(stage: Stage, tried: set<Step>, done: set<Step>, step: Step, reply: Reply)
    requires stage.Preflight?
    requires Facts(stage, tried, done) && Enabled(stage, step)
    ensures Facts(Next(stage, step, reply), tried + {step}, done + if Bad(reply) then {} else {step})
  {
  }

  lemma FactsDeciding(stage: Stage, tried: set<Step>, done: set<Step>, step: Step, reply: Reply)
    requires stage.Deciding?
    requires Facts(stage, tried, done) && Enabled(stage, step)
    ensures Facts(Next(stage, step, reply), tried + {step}, done + if Bad(reply) then {} else {step})
  {
  }

  lemma FactsApplied(stage: Stage, tried: set<Step>, done: set<Step>, step: Step, reply: Reply)
    requires stage.Staged? || stage.Applied?
    requires Facts(stage, tried, done) && Enabled(stage, step)
    ensures Facts(Next(stage, step, reply), tried + {step}, done + if Bad(reply) then {} else {step})
  {
  }

  lemma FactsChecking(stage: Stage, tried: set<Step>, done: set<Step>, step: Step, reply: Reply)
    requires stage.Checking?
    requires Facts(stage, tried, done) && Enabled(stage, step)
    ensures Facts(Next(stage, step, reply), tried + {step}, done + if Bad(reply) then {} else {step})
  {
  }

  lemma FactsProven(stage: Stage, tried: set<Step>, done: set<Step>, step: Step, reply: Reply)
    requires stage.Proven? || stage.Ready?
    requires Facts(stage, tried, done) && Enabled(stage, step)
    ensures Facts(Next(stage, step, reply), tried + {step}, done + if Bad(reply) then {} else {step})
  {
  }

  lemma FactsCommitted(stage: Stage, tried: set<Step>, done: set<Step>, step: Step, reply: Reply)
    requires stage.Committed?
    requires Facts(stage, tried, done) && Enabled(stage, step)
    ensures Facts(Next(stage, step, reply), tried + {step}, done + if Bad(reply) then {} else {step})
  {
  }

  lemma FactsClosed(stage: Stage, tried: set<Step>, done: set<Step>, step: Step, reply: Reply)
    requires stage.Closed?
    requires Facts(stage, tried, done) && Enabled(stage, step)
    ensures Facts(Next(stage, step, reply), tried + {step}, done + if Bad(reply) then {} else {step})
  {
  }

  lemma FactsBroken(stage: Stage, tried: set<Step>, done: set<Step>, step: Step, reply: Reply)
    requires stage.Broken?
    requires Facts(stage, tried, done) && Enabled(stage, step)
    ensures Facts(Next(stage, step, reply), tried + {step}, done + if Bad(reply) then {} else {step})
  {
  }

  /** Every step keeps what the stages know. */
  lemma FactsNext(stage: Stage, tried: set<Step>, done: set<Step>, step: Step, reply: Reply)
    requires Facts(stage, tried, done) && Enabled(stage, step)
    ensures Facts(Next(stage, step, reply), tried + {step}, done + if Bad(reply) then {} else {step})
  {
    match stage
    case Preflight => FactsPreflight(stage, tried, done, step, reply);
    case Deciding => FactsDeciding(stage, tried, done, step, reply);
    case Staged => FactsApplied(stage, tried, done, step, reply);
    case Applied => FactsApplied(stage, tried, done, step, reply);
    case Checking(_, _, _) => FactsChecking(stage, tried, done, step, reply);
    case Proven => FactsProven(stage, tried, done, step, reply);
    case Ready(_) => FactsProven(stage, tried, done, step, reply);
    case Committed(_, _) => FactsCommitted(stage, tried, done, step, reply);
    case Closed(_, _) => FactsClosed(stage, tried, done, step, reply);
    case Broken(_, _, _, _) => FactsBroken(stage, tried, done, step, reply);
    case Stopped =>
  }

  lemma StepSets(trace: seq<Event>, i: nat)
    requires i < |trace|
    ensures TriedIn(trace, i + 1) == TriedIn(trace, i) + {trace[i].step}
    ensures SucceededIn(trace, i + 1) == SucceededIn(trace, i) + if Bad(trace[i].reply) then {} else {trace[i].step}
  {
  }

  // What holds of every trace of the protocol ------------------------------------------------

  /** Equals `Facts`; the induction carries it along without looking inside. */
  ghost predicate SealedFacts(stage: Stage, tried: set<Step>, done: set<Step>) {
    forall s {:trigger OpenedStage(s)} :: OpenedStage(s) && s == stage ==> Facts(s, tried, done)
  }

  lemma OpenFacts(stage: Stage, tried: set<Step>, done: set<Step>)
    ensures SealedFacts(stage, tried, done) <==> Facts(stage, tried, done)
  {
    assert OpenedStage(stage);
  }

  lemma SealedNext(stage: Stage, tried: set<Step>, done: set<Step>, event: Event, next: Stage)
    requires SealedFacts(stage, tried, done) && Moves(stage, event, next)
    ensures SealedFacts(next, tried + {event.step}, done + if Bad(event.reply) then {} else {event.step})
  {
    OpenFacts(stage, tried, done);
    OpenMoves(stage, event, next);
    FactsNext(stage, tried, done, event.step, event.reply);
    OpenFacts(next, tried + {event.step}, done + if Bad(event.reply) then {} else {event.step});
  }

  ghost predicate Known(trace: seq<Event>, stages: seq<Stage>, i: nat)
    requires i <= |trace| && i < |stages|
  {
    SealedFacts(stages[i], TriedIn(trace, i), SucceededIn(trace, i))
  }

  lemma KnownStart(trace: seq<Event>, stages: seq<Stage>)
    requires |stages| > 0 && stages[0] == Preflight
    ensures Known(trace, stages, 0)
  {
    OpenFacts(Preflight, {}, {});
    assert TriedIn(trace, 0) == {} && SucceededIn(trace, 0) == {};
  }

  lemma KnownNext(trace: seq<Event>, stages: seq<Stage>, i: nat)
    requires i < |trace| && i + 1 < |stages| && Known(trace, stages, i) && Moves(stages[i], trace[i], stages[i + 1])
    ensures Known(trace, stages, i + 1)
  {
    StepSets(trace, i);
    SealedNext(stages[i], TriedIn(trace, i), SucceededIn(trace, i), trace[i], stages[i + 1]);
  }

  lemma {:induction false} KnownAt(trace: seq<Event>, stages: seq<Stage>, i: nat)
    requires IsRun(trace, stages) && i <= |trace|
    ensures Known(trace, stages, i)
  {
    if i == 0 {
      KnownStart(trace, stages);
    } else {
      KnownAt(trace, stages, i - 1);
      KnownNext(trace, stages, i - 1);
    }
  }

  /** What is known at every point of a run, and that the next step is allowed there. */
  lemma FactsAt(trace: seq<Event>, stages: seq<Stage>, i: nat)
    requires IsRun(trace, stages) && i <= |trace|
    ensures Facts(stages[i], TriedIn(trace, i), SucceededIn(trace, i))
    ensures i < |trace| ==> Enabled(stages[i], trace[i].step)
  {
    KnownAt(trace, stages, i);
    OpenFacts(stages[i], TriedIn(trace, i), SucceededIn(trace, i));
    if i < |trace| {
      OpenMoves(stages[i], trace[i], stages[i + 1]);
    }
  }

  /** What no stage has behind it. */
  lemma Excluded(stage: Stage, tried: set<Step>, done: set<Step>)
    requires Facts(stage, tried, done)
    ensures !(StageNoop in tried && Deploy in tried)
    ensures !(Record(Completed) in done && Record(Failed) in tried)
    ensures ConsumeApproval in tried ==> Record(Failed) !in tried
    ensures AutomaticRollback in tried ==> Record(Completed) !in done
  {
    match stage
    case Closed(_, _) =>
    case _ =>
  }

  /** The stages that allow the steps that matter most. */
  lemma EnabledStage(stage: Stage)
    ensures Enabled(stage, ConsumeApproval) ==> stage == Closed(Pending, Pending)
    ensures Enabled(stage, AutomaticRollback) ==> stage.Broken?
    ensures Enabled(stage, Commit) ==> stage.Ready?
    ensures Enabled(stage, ReloadSite) ==> stage.Committed?
    ensures Enabled(stage, ReadLive) ==> stage.Broken?
  {
  }

  /** The commit is started at most once. */
  lemma CommitOnce(trace: seq<Event>, i: nat, j: nat)
    requires Follows(trace) && i < |trace| && j < |trace|
    requires trace[i].step == Commit && trace[j].step == Commit
    ensures i == j
  {
    var stages :| IsRun(trace, stages);
    var first, second := if i < j then i else j, if i < j then j else i;
    assert first < second ==> trace[first].step in TriedIn(trace, second);
    FactsAt(trace, stages, second);
    EnabledStage(stages[second]);
  }

  lemma SucceededAt(trace: seq<Event>, n: nat, step: Step) returns (i: nat)
    requires n <= |trace| && step in SucceededIn(trace, n)
    ensures i < n && trace[i].step == step && !Bad(trace[i].reply)
  {
    i :| 0 <= i < n && trace[i].step == step && !Bad(trace[i].reply);
  }

  /** A commit comes after a valid verification, and after a valid stability window or on the NOOP path. */
  lemma CommitBacked(trace: seq<Event>, i: nat) returns (v: nat, w: nat)
    requires Follows(trace) && i < |trace| && trace[i].step == Commit
    ensures v < i && trace[v].step == Verify && !Bad(trace[v].reply)
    ensures w < i && trace[w].step in {WatchStability, StageNoop} && !Bad(trace[w].reply)
    ensures Record(Verified) in SucceededIn(trace, i)
    ensures trace[w].step == WatchStability ==> Record(Stable) in SucceededIn(trace, i)
  {
    var stages :| IsRun(trace, stages);
    FactsAt(trace, stages, i);
    EnabledStage(stages[i]);
    v := SucceededAt(trace, i, Verify);
    w := SucceededAt(trace, i, if StageNoop in SucceededIn(trace, i) then StageNoop else WatchStability);
  }

  /** No run both stages a NOOP and starts the mutating deploy. */
  lemma NoopNeverDeploys(trace: seq<Event>)
    requires Follows(trace)
    ensures !(StageNoop in Tried(trace) && Deploy in Tried(trace))
  {
    var stages :| IsRun(trace, stages);
    FactsAt(trace, stages, |trace|);
    Excluded(stages[|trace|], Tried(trace), Succeeded(trace));
  }

  /** Off the NOOP path, nothing is done between the ends of the two concurrent checks. */
  lemma JoinedBeforeActing(trace: seq<Event>, i: nat)
    requires Follows(trace) && i < |trace| && trace[i].step !in {Verify, WatchStability}
    requires StageNoop !in TriedIn(trace, i)
    ensures Verify in TriedIn(trace, i) <==> WatchStability in TriedIn(trace, i)
  {
    var stages :| IsRun(trace, stages);
    FactsAt(trace, stages, i);
  }

  /** An approval is consumed after the completion is on record, in a run that is never marked failed. */
  lemma ApprovalAfterCompletion(trace: seq<Event>, i: nat)
    requires Follows(trace) && i < |trace| && trace[i].step == ConsumeApproval
    ensures Record(Completed) in SucceededIn(trace, i) && Record(Failed) !in Tried(trace)
  {
    var stages :| IsRun(trace, stages);
    FactsAt(trace, stages, i);
    EnabledStage(stages[i]);
    FactsAt(trace, stages, |trace|);
    assert trace[i].step in Tried(trace);
    Excluded(stages[|trace|], Tried(trace), Succeeded(trace));
  }

  /** A run is never both on record as completed and marked failed. */
  lemma CompletedOrFailed(trace: seq<Event>)
    requires Follows(trace)
    ensures !(Record(Completed) in Succeeded(trace) && Record(Failed) in Tried(trace))
  {
    var stages :| IsRun(trace, stages);
    FactsAt(trace, stages, |trace|);
    Excluded(stages[|trace|], Tried(trace), Succeeded(trace));
  }

  // Recovery ----------------------------------------------------------------------------------

  /** Before anything is recovered, a verification that succeeded has gone on record, even if the window failed. */
  lemma VerificationKept(trace: seq<Event>, i: nat)
    requires Follows(trace) && i < |trace| && trace[i].step in RECOVERY && Verify in SucceededIn(trace, i)
    ensures WriteVerification in TriedIn(trace, i) || Record(Verified) in TriedIn(trace, i)
  {
    var stages :| IsRun(trace, stages);
    FactsAt(trace, stages, i);
    RecoveryStage(stages[i], trace[i].step);
  }

  /** Recovery steps belong to broken releases. */
  lemma RecoveryStage(stage: Stage, step: Step)
    requires Enabled(stage, step) && step in RECOVERY
    ensures stage.Broken?
  {
  }

  /** The live state read last in the first `n` events. */
  ghost function LastLive(trace: seq<Event>, n: nat): Option<Live>
    requires n <= |trace|
  {
    if n == 0 then None
    else
      var last := trace[n - 1];
      if last.step == ReadLive && last.reply.State? then Some(last.reply.live) else LastLive(trace, n - 1)
  }

  function LiveOf(stage: Stage): Option<Live> {
    if stage.Broken? then stage.live else None
  }

  /** Only recovery reads the live state, and a release breaks without having read it. */
  lemma LiveNext(stage: Stage, event: Event, next: Stage)
    requires Moves(stage, event, next)
    ensures LiveOf(next) ==
      if event.step == ReadLive && event.reply.State? then Some(event.reply.live) else LiveOf(stage)
  {
    OpenMoves(stage, event, next);
    if event.step == ReadLive {
      EnabledStage(stage);
    }
  }

  lemma {:induction false} LiveIsLast(trace: seq<Event>, stages: seq<Stage>, n: nat)
    requires IsRun(trace, stages) && n <= |trace|
    ensures LastLive(trace, n) == LiveOf(stages[n])
  {
    if n > 0 {
      LiveIsLast(trace, stages, n - 1);
      LiveNext(stages[n - 1], trace[n - 1], stages[n]);
    }
  }

  /**
   An automatic rollback follows a deploy that succeeded, in a run that is
   marked failed and never completed; once the commit was started, only on a
   live state that was read since and is not committed.
   */
  lemma RollbackJustified(trace: seq<Event>, i: nat)
    requires Follows(trace) && i < |trace| && trace[i].step == AutomaticRollback
    ensures Deploy in SucceededIn(trace, i) && Record(Failed) in SucceededIn(trace, i)
    ensures Record(Completed) !in Succeeded(trace)
    ensures Commit in TriedIn(trace, i) ==> LastLive(trace, i).Some? && !CommittedLive(LastLive(trace, i).value)
  {
    var stages :| IsRun(trace, stages);
    FactsAt(trace, stages, i);
    EnabledStage(stages[i]);
    LiveIsLast(trace, stages, i);
    FactsAt(trace, stages, |trace|);
    assert trace[i].step in Tried(trace);
    Excluded(stages[|trace|], Tried(trace), Succeeded(trace));
  }

  /** The live state is first read after any commit of the run. */
  lemma CommitBeforeRecovery(trace: seq<Event>, i: nat)
    requires Follows(trace) && i < |trace| && trace[i].step == Commit
    ensures TriedIn(trace, i) !! RECOVERY
  {
    var stages :| IsRun(trace, stages);
    FactsAt(trace, stages, i);
    EnabledStage(stages[i]);
  }

  // The site file ----------------------------------------------------------------------------

  /** What is on the trace is tried, and has failed or succeeded as its reply says. */
  lemma OnTrace(trace: seq<Event>, i: nat)
    requires i < |trace|
    ensures trace[i].step in Tried(trace)
    ensures trace[i].step in if Bad(trace[i].reply) then FailedSteps(trace) else Succeeded(trace)
  {
  }

  lemma FailedAt(trace: seq<Event>, step: Step) returns (i: nat)
    requires step in FailedSteps(trace)
    ensures i < |trace| && trace[i].step == step && Bad(trace[i].reply)
  {
    i :| 0 <= i < |trace| && trace[i].step == step && Bad(trace[i].reply);
  }

  lemma BrokenNext(stage: Stage, event: Event, next: Stage)
    requires stage.Broken? && Moves(stage, event, next)
    ensures next.Broken?
  {
    OpenMoves(stage, event, next);
  }

  /** Once broken, a release stays so. */
  lemma {:induction false} StaysBroken(trace: seq<Event>, stages: seq<Stage>, i: nat, j: nat)
    requires IsRun(trace, stages) && i <= j <= |trace| && stages[i].Broken?
    ensures stages[j].Broken?
  {
    if i < j {
      StaysBroken(trace, stages, i, j - 1);
      BrokenNext(stages[j - 1], trace[j - 1], stages[j]);
    }
  }

  /** What reading the site file does to a committed release. */
  lemma ReloadNext(stage: Stage, tried: set<Step>, done: set<Step>)
    requires Facts(stage, tried, done) && Enabled(stage, ReloadSite)
    ensures stage == Committed(stage.noop, ReloadSite) && Commit in done && ReloadSite !in tried
  {
    EnabledStage(stage);
  }

  /** The site file is read at most once. */
  lemma ReloadOnce(trace: seq<Event>, i: nat, j: nat)
    requires Follows(trace) && i < |trace| && j < |trace|
    requires trace[i].step == ReloadSite && trace[j].step == ReloadSite
    ensures i == j
  {
    var stages :| IsRun(trace, stages);
    var first, second := if i < j then i else j, if i < j then j else i;
    assert first < second ==> trace[first].step in TriedIn(trace, second);
    FactsAt(trace, stages, second);
    ReloadNext(stages[second], TriedIn(trace, second), SucceededIn(trace, second));
  }

  lemma ReloadAt(trace: seq<Event>, stages: seq<Stage>, i: nat)
    requires IsRun(trace, stages) && i < |trace| && trace[i].step == ReloadSite
    ensures Commit in SucceededIn(trace, i)
    ensures Bad(trace[i].reply) ==> stages[i + 1].Broken?
  {
    FactsAt(trace, stages, i);
    OpenMoves(stages[i], trace[i], stages[i + 1]);
    ReloadNext(stages[i], TriedIn(trace, i), SucceededIn(trace, i));
  }

  /** An unreadable site file always breaks a release, and a committed one at that. */
  lemma ReloadBreaks(trace: seq<Event>, stages: seq<Stage>)
    requires IsRun(trace, stages) && ReloadSite in FailedSteps(trace)
    ensures stages[|trace|].Broken?
    ensures Commit in Succeeded(trace) && ReloadSite in Tried(trace) && ReloadSite !in Succeeded(trace)
    ensures Record(Completed) !in Tried(trace)
  {
    var i := FailedAt(trace, ReloadSite);
    ReloadAt(trace, stages, i);
    var c := SucceededAt(trace, i, Commit);
    StaysBroken(trace, stages, i + 1, |trace|);
    OnTrace(trace, i);
    OnTrace(trace, c);
    if ReloadSite in Succeeded(trace) {
      var j := SucceededAt(trace, |trace|, ReloadSite);
      ReloadOnce(trace, i, j);
    }
    FactsAt(trace, stages, |trace|);
  }

  /** The outside answered the trace as `world` says. */
  ghost predicate Answered(world: World, trace: seq<Event>) {
    forall i :: 0 <= i < |trace| ==> trace[i].reply == Answer(world, i, trace[i].step)
  }

  /**
   When recording the installed resources, from step `n` on, fails a release:
   the site file cannot be read, and there is no NOOP whose last record stands.
   */
  predicate RegistryFails(world: World, n: nat, noop: bool) {
    !(noop && Answer(world, n, KeepRegistry).Kept?) && Bad(Answer(world, if noop then n + 1 else n, ReloadSite))
  }

  /** The commit at `c` went through. */
  ghost predicate CommitAt(trace: seq<Event>, c: nat) {
    c < |trace| && trace[c].step == Commit && !Bad(trace[c].reply)
  }

  /** The noop flag of a committed release says which way it took. */
  lemma NoopAt(trace: seq<Event>, stages: seq<Stage>, c: nat)
    requires IsRun(trace, stages) && CommitAt(trace, c)
    ensures stages[c + 1] == Committed(StageNoop in Tried(trace), RollCpus)
  {
    FactsAt(trace, stages, c);
    OpenMoves(stages[c], trace[c], stages[c + 1]);
    EnabledStage(stages[c]);
    var i := SucceededAt(trace, c, if stages[c].noop then StageNoop else Deploy);
    OnTrace(trace, i);
    NoopNeverDeploys(trace);
  }

  /** A run that is over took its next closing step, and that is the one the stage names. */
  lemma ClosingStep(trace: seq<Event>, stages: seq<Stage>, i: nat)
    requires IsRun(trace, stages) && !stages[|trace|].Committed? && i <= |trace| && stages[i].Committed?
    ensures i < |trace| && trace[i].step == stages[i].next
    ensures stages[i + 1] == NextCommitted(stages[i].noop, stages[i].next, trace[i].reply)
  {
    OpenMoves(stages[i], trace[i], stages[i + 1]);
  }

  /** A NOOP whose last record stands goes on to the completion record. */
  lemma RegistryKept(trace: seq<Event>, stages: seq<Stage>, n: nat)
    requires IsRun(trace, stages) && !stages[|trace|].Committed?
    requires n <= |trace| && stages[n] == Committed(true, KeepRegistry)
    ensures n < |trace| && trace[n].step == KeepRegistry
    ensures trace[n].reply.Kept? ==> Record(Completed) in Tried(trace)
    ensures !trace[n].reply.Kept? ==> n + 1 < |trace| && trace[n + 1].step == ReloadSite
  {
    ClosingStep(trace, stages, n);
    ClosingStep(trace, stages, n + 1);
    if trace[n].reply.Kept? {
      ClosingStep(trace, stages, n + 2);
      OnTrace(trace, n + 2);
    }
  }

  /** Where the registry record reads the site file, if it does. */
  lemma RegistryAt(world: World, trace: seq<Event>, stages: seq<Stage>, c: nat, noop: bool)
    requires IsRun(trace, stages) && !stages[|trace|].Committed? && Answered(world, trace)
    requires c < |trace| && stages[c + 1] == Committed(noop, RollCpus)
    ensures noop && Answer(world, c + 2, KeepRegistry).Kept? ==> Record(Completed) in Tried(trace)
    ensures !(noop && Answer(world, c + 2, KeepRegistry).Kept?) ==>
      var k := if noop then c + 3 else c + 2;
      k < |trace| && trace[k].step == ReloadSite && trace[k].reply == Answer(world, k, ReloadSite)
  {
    ClosingStep(trace, stages, c + 1);
    if noop {
      RegistryKept(trace, stages, c + 2);
    } else {
      ClosingStep(trace, stages, c + 2);
    }
  }

  /** After a commit the site file fails the run exactly when the registry record must read it and cannot. */
  lemma RegistryBreaksIff(world: World, trace: seq<Event>, stages: seq<Stage>, c: nat)
    requires IsRun(trace, stages) && !stages[|trace|].Committed? && Answered(world, trace) && CommitAt(trace, c)
    ensures ReloadSite in FailedSteps(trace) <==> RegistryFails(world, c + 2, StageNoop in Tried(trace))
  {
    var noop := StageNoop in Tried(trace);
    NoopAt(trace, stages, c);
    RegistryAt(world, trace, stages, c, noop);
    if !(noop && Answer(world, c + 2, KeepRegistry).Kept?) {
      OnTrace(trace, if noop then c + 3 else c + 2);
    }
    if ReloadSite in FailedSteps(trace) {
      ReloadBreaks(trace, stages);
    }
  }

  // The approval -----------------------------------------------------------------------------

  /** The run ends with the consumption of its approval and a record that could not be written. */
  ghost predicate ApprovalLost(trace: seq<Event>) {
    var n := |trace|;
    && n >= 2
    && trace[n - 2].step == ConsumeApproval && !Bad(trace[n - 2].reply)
    && trace[n - 1].step == Record(Completed) && Bad(trace[n - 1].reply)
  }

  /** How a stage after the consumption is come by. */
  lemma ConsumptionSteps(stage: Stage, event: Event, next: Stage)
    requires Moves(stage, event, next)
    ensures next == Closed(Fine, Pending) <==> event.step == ConsumeApproval && !Bad(event.reply)
    ensures next == Closed(Fine, Doomed) <==> stage == Closed(Fine, Pending) && Bad(event.reply)
    ensures stage == Closed(Fine, Pending) ==> event.step == Record(Completed)
    ensures stage == Closed(Fine, Pending) ==> next == Closed(Fine, CheckOf(event.reply))
    ensures !(stage.Closed? && stage.consumed == Fine && stage.audited != Pending)
  {
    OpenMoves(stage, event, next);
  }

  /** A run that consumed its approval has one record left to write, and ends with it. */
  lemma ConsumedAt(trace: seq<Event>, stages: seq<Stage>, k: nat)
    requires IsRun(trace, stages) && stages[|trace|] != Closed(Fine, Pending)
    requires k < |trace| && trace[k].step == ConsumeApproval && !Bad(trace[k].reply)
    ensures |trace| == k + 2 && trace[k + 1].step == Record(Completed)
    ensures stages[|trace|] == Closed(Fine, CheckOf(trace[k + 1].reply))
  {
    ConsumptionSteps(stages[k], trace[k], stages[k + 1]);
    ConsumptionSteps(stages[k + 1], trace[k + 1], stages[k + 2]);
    if k + 2 < |trace| {
      ConsumptionSteps(stages[k + 2], trace[k + 2], stages[k + 3]);
    }
  }

  lemma LostStage(trace: seq<Event>, stages: seq<Stage>)
    requires IsRun(trace, stages)
    ensures ApprovalLost(trace) <==> stages[|trace|] == Closed(Fine, Doomed)
  {
    var n := |trace|;
    if n >= 1 {
      ConsumptionSteps(stages[n - 1], trace[n - 1], stages[n]);
    }
    if n >= 2 {
      ConsumptionSteps(stages[n - 2], trace[n - 2], stages[n - 1]);
    }
  }

  // The driver --------------------------------------------------------------------------

  /** A verification that failed is on the trace. */
  ghost predicate VerifyFailed(trace: seq<Event>) {
    exists i :: 0 <= i < |trace| && trace[i].step == Verify && Bad(trace[i].reply)
  }

  /** A commit that succeeded is on the trace. */
  ghost predicate CommitDone(trace: seq<Event>) {
    exists c: nat :: CommitAt(trace, c)
  }

  /** The first time a step is taken. */
  ghost predicate FirstAt(trace: seq<Event>, step: Step, i: nat) {
    i < |trace| && trace[i].step == step && step !in TriedIn(trace, i)
  }

  /** The recovery steps of a trace, with the first time each is taken. */
  ghost predicate Seen(trace: seq<Event>, seen: map<Step, nat>) {
    && seen.Keys == Tried(trace) * RECOVERY
    && (forall step :: step in seen ==> FirstAt(trace, step, seen[step]))
  }

  function See(seen: map<Step, nat>, step: Step, n: nat): map<Step, nat> {
    if step in RECOVERY && step !in seen then seen[step := n] else seen
  }

  /** What a driver knows of its trace. */
  datatype Position = Position(stage: Stage, count: nat, failed: set<Step>, seen: map<Step, nat>, marks: Marks)

  /** Whether a verification failed, a commit succeeded, and a NOOP was tried. */
  datatype Marks = Marks(verifyFailed: bool, committed: bool, staged: bool)

  const START := Position(Preflight, 0, {}, map[], Marks(false, false, false))

  ghost predicate Reached(world: World, trace: seq<Event>, at: Position) {
    && Answered(world, trace) && Leads(trace, at.stage) && at.count == |trace|
    && at.failed == FailedSteps(trace) && Seen(trace, at.seen) && Marked(trace, at.marks)
  }

  /** Holds of every value; mentioning it is what lets the verifier look inside the sealed predicate. */
  ghost predicate Opened(trace: seq<Event>) {
    true
  }

  /** Equals `Reached`; the driver's methods carry it from step to step without looking inside. */
  ghost predicate SealedReached(world: World, trace: seq<Event>, at: Position) {
    forall t {:trigger Opened(t)} :: Opened(t) && t == trace ==> Reached(world, t, at)
  }

  lemma OpenReached(world: World, trace: seq<Event>, at: Position)
    ensures SealedReached(world, trace, at) <==> Reached(world, trace, at)
  {
    assert Opened(trace);
  }

  function Noted(marks: Marks, step: Step, reply: Reply): Marks {
    match step
    case Verify => marks.(verifyFailed := marks.verifyFailed || Bad(reply))
    case Commit => marks.(committed := marks.committed || !Bad(reply))
    case StageNoop => marks.(staged := true)
    case _ => marks
  }

  ghost function Advance(at: Position, step: Step, reply: Reply): Position
    requires Enabled(at.stage, step)
  {
    Position(
      Next(at.stage, step, reply), at.count + 1, at.failed + (if Bad(reply) then {step} else {}),
      See(at.seen, step, at.count), Noted(at.marks, step, reply))
  }

  lemma LeadsOn(trace: seq<Event>, stage: Stage, event: Event)
    requires Leads(trace, stage) && Enabled(stage, event.step)
    ensures Leads(trace + [event], Next(stage, event.step, event.reply))
  {
    var stages :| IsRun(trace, stages) && stages[|trace|] == stage;
    var next := Next(stage, event.step, event.reply);
    OpenMoves(stage, event, next);
    Extends(trace, stages, event, next);
  }

  lemma Extends(trace: seq<Event>, stages: seq<Stage>, event: Event, next: Stage)
    requires IsRun(trace, stages) && Moves(stages[|trace|], event, next)
    ensures Leads(trace + [event], next)
  {
    var longer, more := trace + [event], stages + [next];
    assert longer[|trace|] == event && more[|trace|] == stages[|trace|] && more[|trace| + 1] == next;
    forall i | 0 <= i < |longer|
      ensures Moves(more[i], longer[i], more[i + 1])
    {
      assert i < |trace| ==> longer[i] == trace[i] && more[i] == stages[i] && more[i + 1] == stages[i + 1];
    }
    assert IsRun(longer, more);
  }

  /** What one more event adds. */
  lemma SetsNext(trace: seq<Event>, event: Event)
    ensures var next := trace + [event];
      && FailedSteps(next) == FailedSteps(trace) + (if Bad(event.reply) then {event.step} else {})
      && Tried(next) == Tried(trace) + {event.step}
  {
    var next := trace + [event];
    assert next[|trace|] == event && forall i :: 0 <= i < |trace| ==> next[i] == trace[i];
  }

  lemma TriedBefore(trace: seq<Event>, event: Event, n: nat)
    requires n <= |trace|
    ensures TriedIn(trace + [event], n) == TriedIn(trace, n)
  {
    var next := trace + [event];
    assert forall i :: 0 <= i < n ==> next[i] == trace[i];
    assert forall step :: step in TriedIn(trace, n) ==> step in TriedIn(next, n);
  }

  lemma SeenNext(trace: seq<Event>, event: Event, seen: map<Step, nat>)
    requires Seen(trace, seen)
    ensures Seen(trace + [event], See(seen, event.step, |trace|))
  {
    var next := trace + [event];
    SetsNext(trace, event);
    forall step, i: nat | FirstAt(trace, step, i)
      ensures FirstAt(next, step, i)
    {
      TriedBefore(trace, event, i);
    }
    TriedBefore(trace, event, |trace|);
    assert next[|trace|] == event;
  }

  lemma FlagsNext(trace: seq<Event>, event: Event)
    ensures var next := trace + [event];
      && (VerifyFailed(next) <==> VerifyFailed(trace) || (event.step == Verify && Bad(event.reply)))
      && (CommitDone(next) <==> CommitDone(trace) || (event.step == Commit && !Bad(event.reply)))
  {
    var next := trace + [event];
    assert next[|trace|] == event && forall i :: 0 <= i < |trace| ==> next[i] == trace[i];
    assert CommitAt(next, |trace|) <==> event.step == Commit && !Bad(event.reply);
    assert forall c: nat :: c < |trace| ==> (CommitAt(next, c) <==> CommitAt(trace, c));
  }

  ghost predicate Marked(trace: seq<Event>, marks: Marks) {
    && marks.verifyFailed == VerifyFailed(trace) && marks.committed == CommitDone(trace)
    && (marks.staged <==> StageNoop in Tried(trace))
  }

  lemma MarksNext(trace: seq<Event>, event: Event, marks: Marks)
    requires Marked(trace, marks)
    ensures Marked(trace + [event], Noted(marks, event.step, event.reply))
  {
    SetsNext(trace, event);
    FlagsNext(trace, event);
  }

  lemma Advances(world: World, trace: seq<Event>, at: Position, step: Step, reply: Reply)
    requires SealedReached(world, trace, at) && Enabled(at.stage, step)
    requires at.count == |trace| ==> reply == Answer(world, at.count, step)
    ensures at.count == |trace| && SealedReached(world, trace + [Event(step, reply)], Advance(at, step, reply))
  {
    var event := Event(step, reply);
    OpenReached(world, trace, at);
    LeadsOn(trace, at.stage, event);
    SetsNext(trace, event);
    MarksNext(trace, event, at.marks);
    SeenNext(trace, event, at.seen);
    OpenReached(world, trace + [event], Advance(at, step, reply));
  }

  /** More steps have failed, but not the record of the failure itself. */
  ghost predicate Grows(before: set<Step>, after: set<Step>) {
    before <= after && (Record(Failed) in after ==> Record(Failed) in before)
  }

  /**
   How a part of the transaction ends: in the stage `good` after `steps` steps, or
   in the stage `bad` after at most as many, for a step that failed.
   */
  ghost predicate Ends(before: Position, after: Position, failure: Option<Step>, good: Stage, bad: Stage, steps: nat) {
    && after == before.(stage := if failure.None? then good else bad, count := after.count, failed := after.failed)
    && Grows(before.failed, after.failed) && (failure.Some? ==> failure.value in after.failed)
    && after.count <= before.count + steps && (failure.None? ==> after.count == before.count + steps)
  }

  datatype Settings = Settings(
    adminEmail: bool, runChecks: bool, liveGiven: bool, automaticRollback: bool, schemaAccepted: bool)

  /** The decision: skip the deploy of a NOOP, and whether the change touches the schema, if known. */
  datatype Deployment = Deployment(fastPath: bool, schema: Option<bool>)

  datatype RollbackStatus =
    | NotTried | Passed | RollbackFailed | RefusedInflight | CleanupPending
    | SkippedCommitted | SkippedNoBaseline | SkippedPolicy | SkippedAmbiguousCommit

  datatype Outcome =
    | Rejected
    | Released
    | Failing(cause: Step, rollbackFailed: bool)

  /** An accepted schema change runs fail-forward, whatever the site says. */
  function Automatic(settings: Settings, deployment: Deployment): bool {
    settings.automaticRollback && !(settings.schemaAccepted && (deployment.schema.None? || deployment.schema.value))
  }

  /**
   When a failed release is to be rolled back: the site says so, and no schema
   change was accepted, or the difference is known not to touch the schema.
   */
  predicate Wanted(settings: Settings, diff: Reply) {
    && settings.automaticRollback
    && (settings.schemaAccepted ==> diff.Difference? && diff.identified && diff.schema == Some(false))
  }

  lemma WantedIsAutomatic(settings: Settings, deployment: Deployment, diff: Reply)
    requires deployment.schema == SchemaOf(diff)
    ensures Automatic(settings, deployment) <==> Wanted(settings, diff)
  {
  }

  // How many steps a run takes, and what it is told on the way -------------------------------

  /** The steps up to the answer about the approval. */
  function ApprovalSteps(settings: Settings): nat {
    if settings.liveGiven then 2 else 3
  }

  /** The steps before the transaction. */
  function PreflightSteps(settings: Settings): nat {
    ApprovalSteps(settings) + 2 + if settings.runChecks then 1 else 0
  }

  /** The steps up to the completion record when everything is deployed anew; a NOOP takes fewer. */
  function CompletionSteps(settings: Settings): nat {
    PreflightSteps(settings) + 17
  }

  function RegistrySteps(world: World, n: nat, noop: bool): nat {
    if !noop then 2 else if Answer(world, n, KeepRegistry).Kept? then 1 else 3
  }

  /** A difference that needs no deploy. */
  predicate CleanNoop(diff: Reply) {
    diff.Difference? && diff.identified && diff.cleanNoop
  }

  /** Whether the change touches the schema, as far as a difference tells. */
  function SchemaOf(diff: Reply): Option<bool> {
    if diff.Difference? && diff.identified then diff.schema else None
  }

  /** An approval that belongs to this release. */
  predicate RelatedApproval(reply: Reply) {
    reply.Approval? && reply.related
  }

  /** None of the first `n` answers is a failure. */
  ghost predicate Smooth(world: World, n: nat) {
    forall i: nat, step :: i < n ==> !Bad(Answer(world, i, step))
  }

  lemma NotSmooth(world: World, trace: seq<Event>, at: Position, step: Step)
    requires SealedReached(world, trace, at) && step in at.failed
    ensures forall n :: n >= at.count ==> !Smooth(world, n)
  {
    OpenReached(world, trace, at);
    var i := FailedAt(trace, step);
    assert Bad(Answer(world, i, step));
  }

  class Driver {
    const world: World

    var trace: seq<Event>

    ghost var at: Position

    ghost predicate Valid()
      reads this
    {
      SealedReached(world, trace, at)
    }

    constructor (world: World)
      ensures Valid() && trace == [] && at == START && this.world == world
    {
      this.world := world;
      trace, at := [], START;
      assert IsRun([], [Preflight]);
      OpenReached(world, [], START);
    }

    method Do(step: Step) returns (reply: Reply)
      requires Valid() && Enabled(at.stage, step)
      modifies this
      ensures Valid() && at == Advance(old(at), step, reply) && reply == Answer(world, old(at).count, step)
    {
      reply := Answer(world, |trace|, step);
      OpenReached(world, trace, at);
      Advances(world, trace, at, step, reply);
      trace := trace + [Event(step, reply)];
      at := Advance(at, step, reply);
    }

    /** A NOOP that could be staged, or the full deploy path. */
    method DeploymentDecision() returns (failure: Option<Step>, deployment: Deployment)
      requires Valid() && at.stage == Deciding
      modifies this
      ensures Valid() && Ends(old(at).(marks := at.marks), at, failure,
        if deployment.fastPath then Staged else Deciding, Broken(false, false, false, None),
        if failure.Some? || deployment.fastPath then 2 else 1)
      ensures failure.Some? ==> failure == Some(StageNoop) && deployment == Deployment(false, None)
      ensures failure.Some? || deployment.fastPath <==> CleanNoop(Answer(world, old(at).count, CollectDiff))
      ensures at.marks ==
        old(at).marks.(staged := old(at).marks.staged || CleanNoop(Answer(world, old(at).count, CollectDiff)))
      ensures failure.None? ==> deployment.schema == SchemaOf(Answer(world, old(at).count, CollectDiff))
    {
      var diff := Do(CollectDiff);
      if !diff.Difference? || !diff.identified {
        return None, Deployment(false, None);
      }
      if !diff.cleanNoop {
        return None, Deployment(false, diff.schema);
      }
      var staged := Do(StageNoop);
      if Bad(staged) {
        return Some(StageNoop), Deployment(false, None);
      }
      return None, Deployment(true, diff.schema);
    }

    /** The mutating deploy, or nothing on the NOOP path; then the phase is recorded. */
    method ApplyRelease(fastPath: bool) returns (failure: Option<Step>, deployed: bool)
      requires Valid() && at.stage == if fastPath then Staged else Deciding
      modifies this
      ensures Valid() && Ends(old(at), at, failure, Checking(fastPath, Pending, Pending),
        Broken(deployed, false, false, None), if fastPath then 1 else 4)
      ensures failure.None? ==> deployed == !fastPath
      ensures failure.Some? ==> failure.value in {ClearEvidence, Deploy, FinalizeEvidence, Record(Deployed)}
    {
      deployed, failure := false, None;
      if !fastPath {
        failure, deployed := DeployAnew();
      }
      if failure.None? {
        var recorded := Do(Record(Deployed));
        failure := if Bad(recorded) then Some(Record(Deployed)) else None;
      }
    }

    method DeployAnew() returns (failure: Option<Step>, deployed: bool)
      requires Valid() && at.stage == Deciding
      modifies this
      ensures Valid() && Ends(old(at), at, failure, Applied, Broken(deployed, false, false, None), 3)
      ensures failure.None? ==> deployed
      ensures failure.Some? ==> failure.value in {ClearEvidence, Deploy, FinalizeEvidence}
    {
      var cleared := Do(ClearEvidence);
      if Bad(cleared) {
        return Some(ClearEvidence), false;
      }
      var applied := Do(Deploy);
      if Bad(applied) {
        return Some(Deploy), false;
      }
      var finalized := Do(FinalizeEvidence);
      return if Bad(finalized) then Some(FinalizeEvidence) else None, true;
    }

    /** The two read-only phases, in whichever order they end. */
    method VerifyAndWatch(fastPath: bool) returns (verification: Reply, stability: Reply)
      requires Valid() && at.stage == Checking(fastPath, Pending, Pending)
      modifies this
      ensures Valid() && (fastPath ==> stability == Done)
      ensures at == old(at).(
        stage := Settled(fastPath, CheckOf(verification), if fastPath then Pending else CheckOf(stability)),
        marks := old(at).marks.(verifyFailed := old(at).marks.verifyFailed || Bad(verification)), failed := at.failed,
        count := old(at).count + if fastPath then 1 else 2)
      ensures Grows(old(at).failed, at.failed)
      ensures (Bad(verification) ==> Verify in at.failed) && (Bad(stability) ==> WatchStability in at.failed)
    {
      stability := Done;
      if * {
        verification := Do(Verify);
        if !fastPath {
          stability := Do(WatchStability);
        }
      } else {
        if !fastPath {
          stability := Do(WatchStability);
        }
        verification := Do(Verify);
      }
    }

    /** Writes a report and records the phase it proves. */
    method RecordReport(report: Step, phase: Phase) returns (failure: Option<Step>)
      requires Valid() && Reports(at.stage, report, phase)
      modifies this
      ensures Valid() && Ends(old(at), at, failure, Next(old(at).stage, Record(phase), Done),
        Broken(old(at).stage.Checking? ==> !old(at).stage.noop, false, false, None), 2)
      ensures failure.Some? ==> failure.value in {report, Record(phase)}
    {
      failure := Write(report, phase);
      if failure.None? {
        var recorded := Do(Record(phase));
        failure := if Bad(recorded) then Some(Record(phase)) else None;
      }
    }

    method Write(report: Step, ghost phase: Phase) returns (failure: Option<Step>)
      requires Valid() && Reports(at.stage, report, phase)
      modifies this
      ensures Valid() && Ends(old(at), at, failure, old(at).stage,
        Broken(old(at).stage.Checking? ==> !old(at).stage.noop, false, false, None), 1)
      ensures failure.Some? ==> failure.value == report
    {
      var written := Do(report);
      failure := if Bad(written) then Some(report) else None;
    }

    /**
     Verification and the stability window run concurrently; both have ended
     before either result is acted on, and a failed verification is the one
     reported.
     */
    method RunVerificationAndStability(fastPath: bool) returns (failure: Option<Step>)
      requires Valid() && at.stage == Checking(fastPath, Pending, Pending) && !at.marks.verifyFailed
      modifies this
      ensures Valid() && Ends(old(at).(marks := old(at).marks.(verifyFailed := failure == Some(Verify))),
        at, failure, Ready(fastPath),
        Broken(!fastPath, false, false, None), if fastPath then 3 else 6)
      ensures failure.Some? ==>
        failure.value in {Verify, WatchStability, WriteVerification, WriteStability, Record(Verified), Record(Stable)}
    {
      var verification, stability := VerifyAndWatch(fastPath);
      if Bad(verification) {
        return Some(Verify);
      }
      failure := RecordReport(WriteVerification, Verified);
      if failure.Some? {
        return;
      }
      if Bad(stability) {
        return Some(WatchStability);
      }
      if !fastPath {
        failure := RecordReport(WriteStability, Stable);
      }
    }

    /** A step after the commit whose failure is only a warning. */
    method Tolerate(step: Step) returns (reply: Reply)
      requires Valid() && at.stage.Committed? && at.stage.next == step
      requires step.RollCpus? || step.KeepRegistry? || step.SyncRegistry? || step.Summarize?
      modifies this
      ensures Valid() && reply == Answer(world, old(at).count, step)
      ensures var noop := old(at).stage.noop;
        Ends(old(at), at, None, Committed(noop, NextClosing(noop, step, reply)), Stopped, 1)
    {
      reply := Do(step);
    }

    /**
     The installed resources are recorded, unless a NOOP keeps the last record.
     This fails the release exactly when the site file has to be read and cannot.
     */
    method RecordRegistry(fastPath: bool) returns (failure: Option<Step>)
      requires Valid() && at.stage == Committed(fastPath, if fastPath then KeepRegistry else ReloadSite)
      modifies this
      ensures Valid() && Ends(old(at), at, failure, Committed(fastPath, Summarize),
        Broken(!fastPath, true, false, None), RegistrySteps(world, old(at).count, fastPath))
      ensures failure == if RegistryFails(world, old(at).count, fastPath) then Some(ReloadSite) else None
    {
      if fastPath {
        var kept := Tolerate(KeepRegistry);
        if kept.Kept? {
          return None;
        }
      }
      failure := SyncRegistryFromSite(fastPath);
    }

    method SyncRegistryFromSite(fastPath: bool) returns (failure: Option<Step>)
      requires Valid() && at.stage == Committed(fastPath, ReloadSite)
      modifies this
      ensures Valid() && Ends(old(at), at, failure, Committed(fastPath, Summarize),
        Broken(!fastPath, true, false, None), 2)
      ensures failure == if Bad(Answer(world, old(at).count, ReloadSite)) then Some(ReloadSite) else None
    {
      var site := Do(ReloadSite);
      if Bad(site) {
        return Some(ReloadSite);
      }
      var synced := Tolerate(SyncRegistry);
      return None;
    }

    /**
     After the commit the release fails exactly when the registry record fails it
     or the completion cannot be recorded.
     */
    method CompleteRelease(fastPath: bool) returns (failure: Option<Step>)
      requires Valid() && at.stage == Committed(fastPath, RollCpus)
      modifies this
      ensures Valid() && Ends(old(at), at, failure, Closed(Pending, Pending), Broken(!fastPath, true, false, None),
        3 + RegistrySteps(world, old(at).count + 1, fastPath))
      ensures var n := old(at).count + 1;
        var recorded := Answer(world, n + RegistrySteps(world, n, fastPath) + 1, Record(Completed));
        failure ==
          if RegistryFails(world, n, fastPath) then Some(ReloadSite)
          else if Bad(recorded) then Some(Record(Completed)) else None
    {
      var rolled := Tolerate(RollCpus);
      failure := RecordRegistry(fastPath);
      if failure.Some? {
        return;
      }
      var summary := Tolerate(Summarize);
      var recorded := Do(Record(Completed));
      failure := if Bad(recorded) then Some(Record(Completed)) else None;
    }

    method CommitAndComplete(fastPath: bool) returns (failure: Option<Step>)
      requires Valid() && at.stage == Ready(fastPath) && !at.marks.committed
      modifies this
      ensures Valid() && Ends(old(at).(marks := old(at).marks.(committed := failure != Some(Commit))),
        at, failure, Closed(Pending, Pending),
        Broken(!fastPath, true, false, None), 4 + RegistrySteps(world, old(at).count + 2, fastPath))
      ensures failure.Some? ==> failure.value in {Commit, ReloadSite, Record(Completed)}
      ensures failure == Some(Commit) <==> Bad(Answer(world, old(at).count, Commit))
      ensures failure != Some(Commit) ==>
        (failure == Some(ReloadSite) <==> RegistryFails(world, old(at).count + 2, fastPath))
    {
      var committed := Do(Commit);
      if Bad(committed) {
        return Some(Commit);
      }
      failure := CompleteRelease(fastPath);
    }

    /** The body of the transaction: what the failure handler is told, and the flags it is given. */
    method Transact() returns (failure: Option<Step>, deployment: Deployment, deployed: bool, commitStarted: bool)
      requires Valid() && at.stage == Deciding && !at.marks.verifyFailed && !at.marks.committed
      modifies this
      ensures Valid() && Transacted(world, old(at), at, failure, deployed, commitStarted)
      ensures deployed ==> deployment.schema == SchemaOf(Answer(world, old(at).count, CollectDiff))
    {
      deployed, commitStarted := false, false;
      failure, deployment := DeploymentDecision();
      if failure.Some? {
        NotSmooth(world, trace, at, failure.value);
        return;
      }
      failure, deployed := ApplyRelease(deployment.fastPath);
      if failure.Some? {
        NotSmooth(world, trace, at, failure.value);
        return;
      }
      failure := RunVerificationAndStability(deployment.fastPath);
      if failure.Some? {
        NotSmooth(world, trace, at, failure.value);
        return;
      }
      commitStarted := true;
      failure := CommitAndComplete(deployment.fastPath);
      if failure.Some? {
        NotSmooth(world, trace, at, failure.value);
      }
    }

    // Recovery. The stage is a broken one throughout.

    method Recover(step: Step) returns (reply: Reply)
      requires Valid() && at.stage.Broken? && Enabled(at.stage, step)
      modifies this
      ensures Valid() && reply == Answer(world, old(at).count, step)
      ensures at == old(at).(
        stage := old(at).stage.(
          marked := old(at).stage.marked || (step == Record(Failed) && !Bad(reply)),
          live := if step == ReadLive && reply.State? then Some(reply.live) else old(at).stage.live),
        count := old(at).count + 1, failed := old(at).failed + (if Bad(reply) then {step} else {}),
        seen := See(old(at).seen, step, old(at).count))
    {
      reply := Do(step);
    }

    /** The live state, if it can be read. */
    method LiveState() returns (state: Option<Live>)
      requires Valid() && at.stage.Broken?
      modifies this
      ensures Valid() && Rests(old(at), at) && Idle(old(at), at)
      ensures at.stage.live == if state.Some? then state else old(at).stage.live
      ensures state == LiveIn(Answer(world, old(at).count, ReadLive))
      ensures at.seen == See(old(at).seen, ReadLive, old(at).count)
    {
      var reply := Recover(ReadLive);
      return if reply.State? then Some(reply.live) else None;
    }

    /** Whether the live release is a first installation with nothing to roll back to; read on demand. */
    method NoRollbackBaseline(known: Option<Live>) returns (first: bool)
      requires Valid() && at.stage.Broken?
      modifies this
      ensures Valid() && Rests(old(at), at) && Idle(old(at), at)
      ensures known.Some? ==> at == old(at) && first == (known.value.complete && known.value.firstInstall)
      ensures known.None? ==>
        var live := LiveIn(Answer(world, old(at).count, ReadLive));
        && at.seen == See(old(at).seen, ReadLive, old(at).count)
        && first == (live.Some? && live.value.complete && live.value.firstInstall)
    {
      var state := known;
      if state.None? {
        state := LiveState();
      }
      return state.Some? && state.value.complete && state.value.firstInstall;
    }

    /** The automatic rollback: the failure is marked first, and the management state aligned last. */
    method RollbackAfterFailure() returns (raised: Option<Step>, status: RollbackStatus)
      requires Valid() && at.stage.Broken?
      requires var stage := at.stage;
        stage.deployed && (stage.commitTried ==> stage.live.Some? && !CommittedLive(stage.live.value))
      modifies this
      ensures Valid() && Rests(old(at), at)
      ensures raised.Some? ==> raised == Some(Record(Failed)) && status == NotTried && Record(Failed) in at.failed
      ensures raised.Some? <==> Bad(Answer(world, old(at).count, Record(Failed)))
      ensures Record(Failed) !in old(at).seen ==>
        Record(Failed) in at.seen && at.seen[Record(Failed)] == old(at).count
      ensures raised.Some? ==> at.seen == See(old(at).seen, Record(Failed), old(at).count)
      ensures raised.None? ==> Grows(old(at).failed, at.failed) && at.stage.marked
      ensures raised.None? ==> RolledBack(world, old(at).count + 1, old(at).seen, at.seen, status)
    {
      var marked := Mark();
      if Bad(marked) {
        return Some(Record(Failed)), NotTried;
      }
      raised := None;
      status := RollBack();
    }

    method RollBack() returns (status: RollbackStatus)
      requires Valid() && at.stage.Broken? && Enabled(at.stage, AutomaticRollback)
      modifies this
      ensures Valid() && Rests(old(at), at) && Grows(old(at).failed, at.failed)
      ensures at.stage.marked == old(at).stage.marked
      ensures RolledBack(world, old(at).count, old(at).seen, at.seen, status)
    {
      var rolled := Recover(AutomaticRollback);
      if rolled.Refused? {
        return RefusedInflight;
      }
      if Bad(rolled) {
        var state := LiveState();
        return RollbackFailed;
      }
      status := AlignRolledBack();
    }

    /** After a rollback the live state is read, and the management state aligned with it. */
    method AlignRolledBack() returns (status: RollbackStatus)
      requires Valid() && at.stage.Broken?
      modifies this
      ensures Valid() && Rests(old(at), at) && Idle(old(at), at)
      ensures Keeps(old(at).seen, at.seen, AutomaticRollback)
      ensures CleanupRollback in at.seen <==> CleanupRollback in old(at).seen
      ensures
        var read, aligned := Answer(world, old(at).count, ReadLive), Answer(world, old(at).count + 1, AlignManagement);
        && (status == Passed <==> !Bad(read) && !Bad(aligned))
        && (status == RollbackFailed <==> read.Raised? || (!Bad(read) && aligned.Raised?))
        && status in {Passed, RollbackFailed, RefusedInflight}
    {
      var state := Recover(ReadLive);
      if state.Refused? {
        return RefusedInflight;
      }
      if Bad(state) {
        state := Recover(ReadLive);
        return RollbackFailed;
      }
      status := Align();
    }

    method Align() returns (status: RollbackStatus)
      requires Valid() && at.stage.Broken?
      modifies this
      ensures Valid() && Rests(old(at), at) && Idle(old(at), at) && at.stage == old(at).stage
      ensures at.seen == See(old(at).seen, AlignManagement, old(at).count)
      ensures var aligned := Answer(world, old(at).count, AlignManagement);
        status == if aligned.Refused? then RefusedInflight else if Bad(aligned) then RollbackFailed else Passed
    {
      var aligned := Recover(AlignManagement);
      status := if aligned.Refused? then RefusedInflight else if Bad(aligned) then RollbackFailed else Passed;
    }

    /** Cleaning up after a rollback succeeds when the live state says so afterwards. */
    method CleanUp() returns (clean: bool)
      requires Valid() && at.stage.Broken? && at.stage.live.Some? && OwnRollback(at.stage.live.value)
      requires at.stage.live.value.cleanupCompleted == Some(false)
      modifies this
      ensures Valid() && Rests(old(at), at) && Idle(old(at), at)
      ensures clean <==> Restored(at.stage.live)
      ensures CleanupRollback in at.seen && (AlignManagement in at.seen <==> AlignManagement in old(at).seen)
    {
      var cleaned := Recover(CleanupRollback);
      if Bad(cleaned) {
        return false;
      }
      var state := LiveState();
      if state.None? || !state.value.rolledBack || !state.value.rollbackPassed {
        return false;
      }
      return state.value.cleanupCompleted == Some(true);
    }

    /** A rollback the engine has already done is finished and aligned. */
    method FinishExistingRollback(known: Live) returns (status: RollbackStatus)
      requires Valid() && at.stage.Broken? && at.stage.live == Some(known)
      requires known.rolledBack && known.rollbackPassed && at.seen.Keys == {ReadLive}
      modifies this
      ensures Valid() && Rests(old(at), at) && Idle(old(at), at)
      ensures CleanupRollback in at.seen <==> known.cleanupCompleted == Some(false)
      ensures AlignManagement in at.seen <==> known.cleanupCompleted != Some(false) || Restored(at.stage.live)
      ensures status ==
        if AlignManagement !in at.seen then CleanupPending
        else if Bad(FirstReply(world, at.seen, AlignManagement)) then RollbackFailed else Passed
    {
      if known.cleanupCompleted == Some(false) {
        var clean := CleanUp();
        if !clean {
          return CleanupPending;
        }
      }
      var aligned := Recover(AlignManagement);
      status := if Bad(aligned) then RollbackFailed else Passed;
    }

    /**
     What is done about a failed release. A committed one is left alone, and so
     is one whose commit may have happened but cannot be read; a deployed one is
     rolled back if the site wants that and there is something to go back to.
     */
    method RecoverReleaseFailure(settings: Settings, deployment: Deployment, deployed: bool, commitStarted: bool)
        returns (raised: Option<Step>, status: RollbackStatus)
      requires Valid() && at.stage == Broken(deployed, commitStarted, false, None) && at.seen == map[]
      modifies this
      ensures Valid() && Rests(old(at), at)
      ensures Recovery(world, Automatic(settings, deployment), at, status)
      ensures raised.Some? <==> Record(Failed) in at.seen && Bad(FirstReply(world, at.seen, Record(Failed)))
      ensures raised.None? ==> Grows(old(at).failed, at.failed)
      ensures raised.Some? ==> raised == Some(Record(Failed)) && status == NotTried && Record(Failed) in at.failed
      ensures !deployed ==>
        && raised.None?
        && status in {NotTried, Passed, RollbackFailed, CleanupPending, SkippedCommitted, SkippedAmbiguousCommit}
      ensures deployed && !commitStarted && raised.None? ==>
        if Automatic(settings, deployment)
        then status == SkippedNoBaseline ||
          (AutomaticRollback in at.seen && status in {Passed, RollbackFailed, RefusedInflight})
        else status == SkippedPolicy
      ensures AutomaticRollback in at.seen ==> status in {Passed, RollbackFailed, RefusedInflight}
      ensures status == SkippedCommitted ==> at.stage.live.Some? && CommittedLive(at.stage.live.value)
      ensures Skipped(world, Automatic(settings, deployment), at, status)
    {
      raised, status := None, NotTried;
      var automatic := Automatic(settings, deployment);
      var state: Option<Live> := None;
      if !deployed || commitStarted {
        state := LiveState();
      }
      if state.Some? && state.value.rolledBack && state.value.rollbackPassed {
        status := FinishExistingRollback(state.value);
        return;
      }
      if state.Some? && CommittedLive(state.value) {
        return None, SkippedCommitted;
      }
      if deployed && automatic {
        var first := NoRollbackBaseline(state);
        if first {
          return None, SkippedNoBaseline;
        }
        if !(commitStarted && state.None?) {
          raised, status := RollbackAfterFailure();
          return;
        }
      }
      if deployed && !automatic {
        return None, SkippedPolicy;
      }
      if commitStarted && state.None? {
        return None, SkippedAmbiguousCommit;
      }
    }

    // The whole release.

    method Check(step: Step) returns (failure: Option<Step>, reply: Reply)
      requires Valid() && at.stage == Preflight && step in PREFLIGHT
      modifies this
      ensures Valid() && Ends(old(at), at, failure, if step == Prepare then Deciding else Preflight, Stopped, 1)
      ensures reply == Answer(world, old(at).count, step)
    {
      reply := Do(step);
      failure := if Bad(reply) then Some(step) else None;
    }

    /** The live state is read unless the caller has it. */
    method Inspect(settings: Settings) returns (failure: Option<Step>)
      requires Valid() && at.stage == Preflight
      modifies this
      ensures Valid() && Ends(old(at), at, failure, Preflight, Stopped, ApprovalSteps(settings))
    {
      var reply;
      failure, reply := Check(LoadSite);
      if failure.None? && !settings.liveGiven {
        failure, reply := Check(ReadState);
      }
      if failure.None? {
        failure, reply := Check(PlanProfile);
      }
    }

    /** Everything before the transaction; a failure here leaves nothing behind. */
    method RunPreflight(settings: Settings) returns (failure: Option<Step>, related: bool)
      requires Valid() && at.stage == Preflight
      modifies this
      ensures Valid() && Ends(old(at), at, failure, Deciding, Stopped, PreflightSteps(settings))
      ensures failure.None? ==>
        related == RelatedApproval(Answer(world, old(at).count + ApprovalSteps(settings), ResolveApproval))
    {
      related := false;
      failure := Inspect(settings);
      if failure.Some? {
        return;
      }
      var reply;
      failure, reply := Check(ResolveApproval);
      if failure.Some? {
        return;
      }
      related := RelatedApproval(reply);
      if settings.runChecks {
        failure, reply := Check(Checks);
        if failure.Some? {
          return;
        }
      }
      failure, reply := Check(Prepare);
    }

    /**
     The approval of a completed release is consumed, and the audit goes on its
     record, also when the approval was refused. Both must succeed; the approval
     is gone without the run being released exactly when only the record fails.
     */
    method ConsumeApprovalState(related: bool) returns (failure: Option<Step>)
      requires Valid() && at.stage == Closed(Pending, Pending)
      modifies this
      ensures Valid() && at == old(at).(
        stage := ConsumedStage(world, old(at).count, related), count := at.count, failed := at.failed)
      ensures failure.Some? ==> failure.value in at.failed
      ensures at.stage.consumed == Fine ==> at.count == old(at).count + 2
      ensures failure.None? <==> at.stage == if related then Closed(Fine, Fine) else Closed(Pending, Pending)
      ensures at.stage == Closed(Fine, Doomed) ==> failure == Some(Record(Completed))
    {
      if !related {
        return None;
      }
      var consumed := Consume();
      if consumed.Raised? {
        return Some(ConsumeApproval);
      }
      var audited := Audit();
      failure :=
        if Bad(audited) then Some(Record(Completed)) else if Bad(consumed) then Some(ConsumeApproval) else None;
    }

    method Consume() returns (consumed: Reply)
      requires Valid() && at.stage == Closed(Pending, Pending)
      modifies this
      ensures Valid() && consumed == Answer(world, old(at).count, ConsumeApproval)
      ensures at == old(at).(stage := Closed(CheckOf(consumed), if consumed.Raised? then Doomed else Pending),
        count := old(at).count + 1, failed := old(at).failed + if Bad(consumed) then {ConsumeApproval} else {})
    {
      consumed := Do(ConsumeApproval);
    }

    /** What became of the approval goes on record. */
    method Audit() returns (audited: Reply)
      requires Valid() && at.stage.Closed? && at.stage.consumed != Pending && at.stage.audited == Pending
      modifies this
      ensures Valid() && audited == Answer(world, old(at).count, Record(Completed))
      ensures at == old(at).(stage := Closed(old(at).stage.consumed, CheckOf(audited)), count := old(at).count + 1,
        failed := old(at).failed + if Bad(audited) then {Record(Completed)} else {})
    {
      audited := Do(Record(Completed));
    }

    /** What follows a failed transaction: recovery, and the failure on record. */
    method FailRelease(settings: Settings, cause: Step, deployment: Deployment, deployed: bool, commitStarted: bool)
        returns (outcome: Outcome)
      requires Valid() && at.stage == Broken(deployed, commitStarted, false, None) && at.seen == map[]
      requires cause in at.failed && Record(Failed) !in at.failed
      modifies this
      ensures Valid() && Rests(old(at), at) && outcome.Failing? && outcome.cause in at.failed
      ensures outcome.cause == if Record(Failed) in at.failed then Record(Failed) else cause
      ensures outcome.cause == Record(Failed) || at.stage.marked
      ensures Recovered(world, Automatic(settings, deployment), at, outcome)
    {
      var raised, status := Attempt(settings, deployment, deployed, commitStarted);
      if raised {
        outcome := Failing(Record(Failed), false);
        RaisedAfter(world, Automatic(settings, deployment), at, status, outcome);
      } else {
        outcome := MarkFailed(cause, status, Automatic(settings, deployment));
      }
    }

    method Attempt(settings: Settings, deployment: Deployment, deployed: bool, commitStarted: bool)
        returns (raised: bool, status: RollbackStatus)
      requires Valid() && at.stage == Broken(deployed, commitStarted, false, None) && at.seen == map[]
      modifies this
      ensures Valid() && Rests(old(at), at)
      ensures Recovery(world, Automatic(settings, deployment), at, status)
      ensures raised <==> Record(Failed) in at.seen && Bad(FirstReply(world, at.seen, Record(Failed)))
      ensures if raised then Record(Failed) in at.failed else Grows(old(at).failed, at.failed)
    {
      var marking;
      marking, status := RecoverReleaseFailure(settings, deployment, deployed, commitStarted);
      raised := marking.Some?;
    }

    method MarkFailed(cause: Step, status: RollbackStatus, ghost wanted: bool) returns (outcome: Outcome)
      requires Valid() && at.stage.Broken? && cause in at.failed && Record(Failed) !in at.failed
      requires Recovery(world, wanted, at, status)
      requires Record(Failed) in at.seen ==> !Bad(FirstReply(world, at.seen, Record(Failed)))
      modifies this
      ensures Valid() && Rests(old(at), at) && outcome.Failing?
      ensures outcome.cause == if Record(Failed) in at.failed then Record(Failed) else cause
      ensures Record(Failed) in at.failed || at.stage.marked
      ensures Recovered(world, wanted, at, outcome)
    {
      ghost var before := at;
      var marked := Mark();
      outcome := if Bad(marked) then Failing(Record(Failed), false) else Failing(cause, status == RollbackFailed);
      MarkedAfter(world, wanted, before, at, status, outcome);
    }

    method Mark() returns (marked: Reply)
      requires Valid() && at.stage.Broken?
      modifies this
      ensures Valid() && Rests(old(at), at) && at.seen == See(old(at).seen, Record(Failed), old(at).count)
      ensures at.stage == old(at).stage.(marked := at.stage.marked) && (!Bad(marked) ==> at.stage.marked)
      ensures at.count == old(at).count + 1
      ensures at.failed == old(at).failed + if Bad(marked) then {Record(Failed)} else {}
      ensures marked == Answer(world, old(at).count, Record(Failed))
    {
      marked := Recover(Record(Failed));
    }

    /**
     One release, over every way its steps may fail. A released run is
     completed and not marked failed; a run that fails in its transaction is
     marked failed unless that record cannot be written; a failed verification
     is the reported cause; after a commit only the site file and the records
     can fail the run.
     */
    method ExecuteRelease(settings: Settings) returns (outcome: Outcome, related: bool)
      requires Valid() && at == START
      modifies this
      ensures Valid() && Concluded(world, settings, at, outcome, related)
    {
      related := false;
      if settings.adminEmail {
        return Rejected, related;
      }
      var failure;
      failure, related := RunPreflight(settings);
      if failure.Some? {
        NotSmooth(world, trace, at, failure.value);
        return Failing(failure.value, false), related;
      }
      outcome := ExecuteTransaction(settings, related);
    }

    /** The transaction, and what follows it. */
    method ExecuteTransaction(settings: Settings, related: bool) returns (outcome: Outcome)
      requires Valid() && at == START.(stage := Deciding, count := PreflightSteps(settings), failed := at.failed)
      requires !settings.adminEmail && Record(Failed) !in at.failed
      requires related == RelatedApproval(Answer(world, ApprovalSteps(settings), ResolveApproval))
      modifies this
      ensures Valid() && Concluded(world, settings, at, outcome, related)
    {
      var failure, deployment, deployed, commitStarted := Transact();
      if failure.Some? {
        outcome := FailRelease(settings, failure.value, deployment, deployed, commitStarted);
        if deployed {
          WantedIsAutomatic(settings, deployment, Answer(world, PreflightSteps(settings), CollectDiff));
        }
        return;
      }
      failure := ConsumeApprovalState(related);
      outcome := if failure.Some? then Failing(failure.value, false) else Released;
    }
  }

  /** What becomes of the approval of a completed release, from step `n` on. */
  function ConsumedStage(world: World, n: nat, related: bool): (stage: Stage)
    ensures stage.Closed?
  {
    if !related then Closed(Pending, Pending)
    else
      var consumed := Answer(world, n, ConsumeApproval);
      var audited := Answer(world, n + 1, Record(Completed));
      Closed(CheckOf(consumed), if consumed.Raised? then Doomed else CheckOf(audited))
  }

  /** The report and the phase that a stage is ready to put on record. */
  predicate Reports(stage: Stage, report: Step, phase: Phase) {
    || (report == WriteVerification && phase == Verified && stage.Checking? && stage.verify == Fine && Ended(stage))
    || (report == WriteStability && phase == Stable && stage == Proven)
  }

  /** How the transaction ends. */
  ghost predicate Transacted(world: World, before: Position, after: Position, failure: Option<Step>, deployed: bool,
      commitStarted: bool) {
    && after == before.(
         stage := if failure.None? then Closed(Pending, Pending) else Broken(deployed, commitStarted, false, None),
         count := after.count, failed := after.failed,
         marks := Marks(failure == Some(Verify), after.marks.committed,
           before.marks.staged || CleanNoop(Answer(world, before.count, CollectDiff))))
    && Grows(before.failed, after.failed) && (failure.Some? ==> failure.value in after.failed)
    && (failure.None? && !CleanNoop(Answer(world, before.count, CollectDiff)) ==> after.count == before.count + 17)
    && (Smooth(world, before.count + 17) ==> failure.None?)
    && (after.marks.committed && failure.Some? ==> failure.value == ReloadSite || failure.value == Record(Completed))
    && (failure.None? ==> after.marks.committed)
  }

  ghost predicate Keeps(before: map<Step, nat>, after: map<Step, nat>, step: Step) {
    step in before ==> step in after && after[step] == before[step]
  }

  /** A broken release stays what it is, whatever recovery does. */
  ghost predicate Rests(before: Position, after: Position)
    requires before.stage.Broken?
  {
    && after.stage.Broken? && before.failed <= after.failed
    && after.stage.deployed == before.stage.deployed && after.stage.commitTried == before.stage.commitTried
    && after == before.(stage := after.stage, count := after.count, failed := after.failed, seen := after.seen)
    && Keeps(before.seen, after.seen, ReadLive) && Keeps(before.seen, after.seen, Record(Failed))
  }

  /** Nothing was marked or rolled back. */
  ghost predicate Idle(before: Position, after: Position)
    requires before.stage.Broken? && after.stage.Broken?
  {
    && Grows(before.failed, after.failed) && after.stage.marked == before.stage.marked
    && (AutomaticRollback in after.seen <==> AutomaticRollback in before.seen)
    && (Record(Failed) in after.seen <==> Record(Failed) in before.seen)
  }

  /**
   The rollback started at step `n`: it passed if the engine rolled back, the
   live state could be read and the management state aligned; else the first
   of these that did not succeed was refused, or failed.
   */
  ghost predicate RolledBack(world: World, n: nat, before: map<Step, nat>, after: map<Step, nat>,
      status: RollbackStatus) {
    && (AutomaticRollback !in before ==> AutomaticRollback in after && after[AutomaticRollback] == n)
    && (CleanupRollback in after <==> CleanupRollback in before)
    && status ==
         if RollbackBroke(world, n) then RollbackFailed
         else if RollbackPassed(world, n) then Passed else RefusedInflight
  }

  predicate RollbackPassed(world: World, n: nat) {
    && !Bad(Answer(world, n, AutomaticRollback)) && !Bad(Answer(world, n + 1, ReadLive))
    && !Bad(Answer(world, n + 2, AlignManagement))
  }

  predicate RollbackBroke(world: World, n: nat) {
    var rolled, read := Answer(world, n, AutomaticRollback), Answer(world, n + 1, ReadLive);
    || rolled.Raised?
    || (!Bad(rolled) && (read.Raised? || (!Bad(read) && Answer(world, n + 2, AlignManagement).Raised?)))
  }

  /** The live state that a reply tells. */
  function LiveIn(reply: Reply): Option<Live> {
    if reply.State? then Some(reply.live) else None
  }

  /** A rollback that the engine did on its own. */
  predicate OwnRollback(live: Live) {
    live.rolledBack && live.rollbackPassed
  }

  /** A rollback that is over, cleanup and all. */
  predicate Restored(live: Option<Live>) {
    live.Some? && OwnRollback(live.value) && live.value.cleanupCompleted == Some(true)
  }

  /**
   When the answer about the live state leaves a rollback to do: not over a first
   installation; and once a commit was started, only if the answer says that
   nothing is rolled back or committed yet.
   */
  predicate MayRollBack(commitTried: bool, answer: Reply) {
    if !answer.State? then !commitTried
    else
      && !(answer.live.complete && answer.live.firstInstall)
      && (commitTried ==> !OwnRollback(answer.live) && !(answer.live.complete && answer.live.committed))
  }

  /** The first reply to a recovery step. */
  function FirstReply(world: World, seen: map<Step, nat>, step: Step): Reply
    requires step in seen
  {
    Answer(world, seen[step], step)
  }

  /** The recovery of a release that reads the live state before all else and finds a rollback. */
  predicate Resumes(stage: Stage, answer: Reply)
    requires stage.Broken?
  {
    (!stage.deployed || stage.commitTried) && answer.State? && OwnRollback(answer.live)
  }

  ghost predicate Resumed(world: World, at: Position)
    requires at.stage.Broken?
  {
    var resumes := ReadLive in at.seen && Resumes(at.stage, FirstReply(world, at.seen, ReadLive));
    var pending := resumes && FirstReply(world, at.seen, ReadLive).live.cleanupCompleted == Some(false);
    && (CleanupRollback in at.seen <==> pending)
    && (AlignManagement in at.seen && AutomaticRollback !in at.seen <==>
          resumes && (pending ==> Restored(at.stage.live)))
  }

  ghost predicate RecoveryFailed(world: World, seen: map<Step, nat>) {
    if AutomaticRollback in seen then RollbackBroke(world, seen[AutomaticRollback])
    else AlignManagement in seen && Bad(FirstReply(world, seen, AlignManagement))
  }

  ghost predicate RollbackDue(world: World, wanted: bool, at: Position)
    requires at.stage.Broken?
  {
    && at.stage.deployed && wanted && ReadLive in at.seen
    && MayRollBack(at.stage.commitTried, FirstReply(world, at.seen, ReadLive))
  }

  /** What recovery does before the failure is on record: that record comes first if a rollback is due. */
  ghost predicate Recovery(world: World, wanted: bool, at: Position, status: RollbackStatus)
    requires at.stage.Broken?
  {
    && (ReadLive in at.seen <==> !at.stage.deployed || at.stage.commitTried || wanted)
    && (Record(Failed) in at.seen <==> RollbackDue(world, wanted, at))
    && (AutomaticRollback in at.seen <==>
          Record(Failed) in at.seen && !Bad(FirstReply(world, at.seen, Record(Failed))))
    && Resumed(world, at)
    && (status == RollbackFailed <==> RecoveryFailed(world, at.seen))
  }

  /** Why recovery leaves a release alone. */
  ghost predicate Skipped(world: World, wanted: bool, at: Position, status: RollbackStatus)
    requires at.stage.Broken? && Recovery(world, wanted, at, status)
  {
    var deployed, commitTried := at.stage.deployed, at.stage.commitTried;
    var live := if !deployed || commitTried then LiveIn(FirstReply(world, at.seen, ReadLive)) else None;
    var own := live.Some? && OwnRollback(live.value);
    var committed := live.Some? && CommittedLive(live.value);
    && (status == SkippedCommitted <==> committed && !own)
    && (status == SkippedPolicy <==> deployed && !wanted && !own && !committed)
    && (status == SkippedNoBaseline ==> deployed && wanted && !RollbackDue(world, wanted, at))
    && (status == SkippedAmbiguousCommit ==> commitTried && live.None? && !(deployed && !wanted))
    && (status == NotTried && Record(Failed) !in at.seen <==>
          !deployed && !own && !committed && !(commitTried && live.None?))
  }

  /** What recovery has done once the failure was put on record. */
  ghost predicate Recovered(world: World, wanted: bool, at: Position, outcome: Outcome)
    requires at.stage.Broken? && outcome.Failing?
  {
    && (ReadLive in at.seen <==> !at.stage.deployed || at.stage.commitTried || wanted)
    && Record(Failed) in at.seen
    && (AutomaticRollback in at.seen <==>
          RollbackDue(world, wanted, at) && !Bad(FirstReply(world, at.seen, Record(Failed))))
    && Resumed(world, at)
    && (outcome.rollbackFailed <==> outcome.cause != Record(Failed) && RecoveryFailed(world, at.seen))
  }

  lemma RaisedAfter(world: World, wanted: bool, at: Position, status: RollbackStatus, outcome: Outcome)
    requires at.stage.Broken? && Recovery(world, wanted, at, status)
    requires Record(Failed) in at.seen && Bad(FirstReply(world, at.seen, Record(Failed)))
    requires outcome == Failing(Record(Failed), false)
    ensures Recovered(world, wanted, at, outcome)
  {
  }

  lemma MarkedAfter(world: World, wanted: bool, before: Position, after: Position, status: RollbackStatus,
      outcome: Outcome)
    requires before.stage.Broken? && after.stage.Broken? && outcome.Failing?
    requires after.stage == before.stage.(marked := after.stage.marked)
    requires after.seen == See(before.seen, Record(Failed), before.count)
    requires Recovery(world, wanted, before, status)
    requires Record(Failed) in before.seen ==> !Bad(FirstReply(world, before.seen, Record(Failed)))
    requires outcome.rollbackFailed <==> outcome.cause != Record(Failed) && status == RollbackFailed
    ensures Recovered(world, wanted, after, outcome)
  {
  }

  /** How a completed run ends. */
  ghost predicate ConcludedClosed(world: World, settings: Settings, at: Position, outcome: Outcome, related: bool)
    requires at.stage.Closed?
  {
    && related == RelatedApproval(Answer(world, ApprovalSteps(settings), ResolveApproval))
    && (if related then at.stage.consumed != Pending else at.stage == Closed(Pending, Pending))
    && at.stage != Closed(Fine, Pending)
    && (at.stage == Closed(Fine, Doomed) ==> outcome == Failing(Record(Completed), false))
    && (!CleanNoop(Answer(world, PreflightSteps(settings), CollectDiff)) ==>
          && at.stage == ConsumedStage(world, CompletionSteps(settings), related)
          && (at.stage.consumed == Fine ==> at.count == CompletionSteps(settings) + 2))
  }

  /** How a run ends that broke off in its transaction. */
  ghost predicate ConcludedBroken(world: World, settings: Settings, at: Position, outcome: Outcome)
    requires at.stage.Broken?
  {
    && outcome.Failing?
    && Recovered(world, Wanted(settings, Answer(world, PreflightSteps(settings), CollectDiff)), at, outcome)
    && (outcome.cause == Record(Failed) <==> Record(Failed) in at.failed)
    && (outcome.cause == Record(Failed) || at.stage.marked)
    && (at.marks.verifyFailed ==> outcome.cause == Verify || outcome.cause == Record(Failed))
    && (at.marks.committed ==>
          outcome.cause == ReloadSite || outcome.cause == Record(Completed) || outcome.cause == Record(Failed))
  }

  ghost predicate Concluded(world: World, settings: Settings, at: Position, outcome: Outcome, related: bool) {
    && (outcome.Rejected? <==> settings.adminEmail)
    && (at.stage == Preflight || at.stage.Stopped? || at.stage.Broken? || at.stage.Closed?)
    && (outcome.Failing? ==> outcome.cause in at.failed && at.stage != Preflight)
    && (outcome.Released? <==> at.stage == if related then Closed(Fine, Fine) else Closed(Pending, Pending))
    && (at.stage.Closed? ==> ConcludedClosed(world, settings, at, outcome, related))
    && (if at.stage.Broken? then ConcludedBroken(world, settings, at, outcome)
        else !at.marks.verifyFailed && (outcome.Failing? ==> !outcome.rollbackFailed))
    && (at.marks.committed ==> at.stage.Broken? || at.stage.Closed?)
    && (at.marks.staged <==>
          && (at.stage.Broken? || at.stage.Closed?)
          && CleanNoop(Answer(world, PreflightSteps(settings), CollectDiff)))
    && (!settings.adminEmail && Smooth(world, CompletionSteps(settings)) ==> at.stage.Closed?)
  }

  /** What the end of a run says about its trace. */
  lemma EndFacts(trace: seq<Event>, stage: Stage)
    requires Leads(trace, stage) && (stage.Preflight? || stage.Stopped? || stage.Broken? || stage.Closed?)
    ensures Record(Completed) in Succeeded(trace) <==> stage.Closed?
    ensures ConsumeApproval in Tried(trace) <==> stage.Closed? && stage.consumed != Pending
    ensures ConsumeApproval in Succeeded(trace) <==> stage.Closed? && stage.consumed == Fine
    ensures stage.Closed? ==> Record(Failed) !in Tried(trace) && Commit in Succeeded(trace)
    ensures stage.Stopped? || stage.Preflight? ==> Tried(trace) <= PREFLIGHT
    ensures stage.Broken? && stage.marked ==> Record(Failed) in Succeeded(trace)
  {
    var stages :| IsRun(trace, stages) && stages[|trace|] == stage;
    FactsAt(trace, stages, |trace|);
  }

  /** Why a run that committed is not completed: the site file, or else the completion record. */
  lemma CommittedCause(trace: seq<Event>, stages: seq<Stage>)
    requires IsRun(trace, stages) && CommitDone(trace) && stages[|trace|].Broken?
    ensures ReloadSite in FailedSteps(trace) <==> Record(Completed) !in FailedSteps(trace)
  {
    var c: nat :| CommitAt(trace, c);
    OnTrace(trace, c);
    FactsAt(trace, stages, |trace|);
    if ReloadSite in FailedSteps(trace) {
      ReloadBreaks(trace, stages);
    }
    if ReloadSite in Tried(trace) && ReloadSite !in Succeeded(trace) {
      var i :| 0 <= i < |trace| && trace[i].step == ReloadSite;
      OnTrace(trace, i);
    } else {
      var i :| 0 <= i < |trace| && trace[i].step == Record(Completed);
      OnTrace(trace, i);
    }
  }

  // A whole run, told by its trace -----------------------------------------------------------

  /** Released means completed, with the approval consumed and that on record. */
  ghost predicate ReleasedExactly(trace: seq<Event>, outcome: Outcome, related: bool) {
    && (outcome.Released? <==>
          && Record(Completed) in Succeeded(trace)
          && (related ==> ConsumeApproval in Succeeded(trace) && !ApprovalLost(trace)))
    && (outcome.Released? ==> Record(Failed) !in Tried(trace))
  }

  /**
   An approval is consumed in a failing run if and only if the run ends with that
   consumption and a record that fails; so once an approval is consumed, the run
   fails if and only if the next record does.
   */
  ghost predicate ApprovalExact(world: World, trace: seq<Event>, outcome: Outcome, related: bool) {
    && (ConsumeApproval in Tried(trace) <==> related && Record(Completed) in Succeeded(trace))
    && (ConsumeApproval in Tried(trace) ==> Record(Failed) !in Tried(trace))
    && (outcome.Failing? && ConsumeApproval in Succeeded(trace) <==> ApprovalLost(trace))
    && (ApprovalLost(trace) ==> outcome == Failing(Record(Completed), false))
    && forall k: nat :: k < |trace| && trace[k].step == ConsumeApproval && !Bad(trace[k].reply) ==>
         |trace| == k + 2 && (outcome.Failing? <==> Bad(Answer(world, k + 1, Record(Completed))))
  }

  /**
   The cause that is reported is a step that failed, a failed verification if
   there was one, and the failure is on record unless that record failed.
   */
  ghost predicate FailureReported(settings: Settings, trace: seq<Event>, outcome: Outcome) {
    && (outcome.Failing? ==> outcome.cause in FailedSteps(trace))
    && (outcome.Failing? && Record(Completed) !in Succeeded(trace) ==>
          Tried(trace) <= PREFLIGHT || Record(Failed) in Succeeded(trace) || outcome.cause == Record(Failed))
    && (VerifyFailed(trace) ==> outcome.Failing? && (outcome.cause == Verify || outcome.cause == Record(Failed)))
    && (AutomaticRollback in Tried(trace) ==> settings.automaticRollback && outcome.Failing?)
  }

  /**
   A run that gets as far as its transaction stages a NOOP, rather than deploy, if
   and only if the difference is identified and clean.
   */
  ghost predicate NoopExact(world: World, settings: Settings, trace: seq<Event>) {
    var diff := Answer(world, PreflightSteps(settings), CollectDiff);
    StageNoop in Tried(trace) <==>
      !(Tried(trace) <= PREFLIGHT) && diff.Difference? && diff.identified && diff.cleanNoop
  }

  /**
   A failed release reads the live state unless it was deployed, no commit was
   tried and no rollback is wanted. It is rolled back if and only if it was
   deployed, a rollback is wanted, the live state first read leaves one to do,
   and the failure could be put on record before.
   */
  ghost predicate RollbackExact(world: World, settings: Settings, trace: seq<Event>) {
    var wanted := Wanted(settings, Answer(world, PreflightSteps(settings), CollectDiff));
    && (ReadLive in Tried(trace) <==>
          && Record(Failed) in Tried(trace)
          && (Deploy !in Succeeded(trace) || Commit in Tried(trace) || wanted))
    && (AutomaticRollback in Tried(trace) <==>
          && Deploy in Succeeded(trace) && wanted
          && (exists r: nat :: FirstAt(trace, ReadLive, r) && MayRollBack(Commit in Tried(trace), trace[r].reply))
          && (exists f: nat :: FirstAt(trace, Record(Failed), f) && !Bad(trace[f].reply)))
  }

  /** The live state first read tells of a rollback that the engine did on its own. */
  ghost predicate ResumesAt(trace: seq<Event>, r: nat) {
    && FirstAt(trace, ReadLive, r) && trace[r].reply.State? && OwnRollback(trace[r].reply.live)
    && (Deploy !in Succeeded(trace) || Commit in Tried(trace))
  }

  /**
   A rollback that the engine did on its own is cleaned up if that is pending,
   and then the management state is aligned if the cleanup restored everything.
   The run reports a failed rollback if and only if the rollback it tried broke
   off, or the alignment with the engine's failed.
   */
  ghost predicate ResumeExact(world: World, trace: seq<Event>, outcome: Outcome) {
    && (CleanupRollback in Tried(trace) <==> exists r: nat ::
          ResumesAt(trace, r) && trace[r].reply.live.cleanupCompleted == Some(false))
    && (AlignManagement in Tried(trace) && AutomaticRollback !in Tried(trace) <==> exists r: nat ::
          && ResumesAt(trace, r)
          && (trace[r].reply.live.cleanupCompleted == Some(false) ==> Restored(LastLive(trace, |trace|))))
    && (outcome.Failing? && outcome.rollbackFailed <==>
          && outcome.Failing? && Record(Failed) in Tried(trace) && outcome.cause != Record(Failed)
          && if AutomaticRollback in Tried(trace)
             then exists i: nat :: FirstAt(trace, AutomaticRollback, i) && RollbackBroke(world, i)
             else exists a: nat :: FirstAt(trace, AlignManagement, a) && Bad(trace[a].reply))
  }

  /**
   A run that committed is not completed if and only if the site file or the
   completion record fails it, and it reports which. The site file fails it if
   and only if the registry record had to read it and could not.
   */
  ghost predicate RegistryExact(world: World, trace: seq<Event>, outcome: Outcome) {
    && (forall c: nat :: CommitAt(trace, c) ==>
          (ReloadSite in FailedSteps(trace) <==> RegistryFails(world, c + 2, StageNoop in Tried(trace))))
    && (ReloadSite in FailedSteps(trace) ==> CommitDone(trace) && Record(Completed) !in Succeeded(trace))
    && (CommitDone(trace) && Record(Completed) !in Succeeded(trace) ==>
          && outcome.Failing?
          && outcome.cause ==
               if Record(Failed) in FailedSteps(trace) then Record(Failed)
               else if ReloadSite in FailedSteps(trace) then ReloadSite else Record(Completed))
  }

  /** A world whose first answers are no failures has the release completed, with its approval. */
  ghost predicate CompletedWhenSmooth(world: World, settings: Settings, trace: seq<Event>, related: bool) {
    && (!settings.adminEmail && Smooth(world, CompletionSteps(settings)) ==> Record(Completed) in Succeeded(trace))
    && (Record(Completed) in Succeeded(trace) ==>
          && Commit in Succeeded(trace)
          && var approval := Answer(world, ApprovalSteps(settings), ResolveApproval);
             related == (approval.Approval? && approval.related))
    && (Record(Completed) in Succeeded(trace) && !CleanNoop(Answer(world, PreflightSteps(settings), CollectDiff)) ==>
          && (ConsumeApproval in Succeeded(trace) <==>
                related && !Bad(Answer(world, CompletionSteps(settings), ConsumeApproval)))
          && (ConsumeApproval in Succeeded(trace) ==> |trace| == CompletionSteps(settings) + 2))
  }

  /** What the position of a run that is over says about its trace. */
  lemma TraceEnd(world: World, trace: seq<Event>, at: Position)
    requires SealedReached(world, trace, at)
    requires at.stage.Preflight? || at.stage.Stopped? || at.stage.Broken? || at.stage.Closed?
    ensures |trace| == at.count && FailedSteps(trace) == at.failed
    ensures Record(Completed) in Succeeded(trace) <==> at.stage.Closed?
    ensures ConsumeApproval in Tried(trace) <==> at.stage.Closed? && at.stage.consumed != Pending
    ensures ConsumeApproval in Succeeded(trace) <==> at.stage.Closed? && at.stage.consumed == Fine
    ensures at.stage.Closed? ==> Record(Failed) !in Tried(trace) && Commit in Succeeded(trace)
    ensures ApprovalLost(trace) <==> at.stage == Closed(Fine, Doomed)
  {
    OpenReached(world, trace, at);
    EndFacts(trace, at.stage);
    var stages :| IsRun(trace, stages) && stages[|trace|] == at.stage;
    LostStage(trace, stages);
  }

  lemma ReleasedEnd(world: World, settings: Settings, trace: seq<Event>, at: Position, outcome: Outcome, related: bool)
    requires SealedReached(world, trace, at) && Concluded(world, settings, at, outcome, related)
    ensures ReleasedExactly(trace, outcome, related) && CompletedWhenSmooth(world, settings, trace, related)
  {
    TraceEnd(world, trace, at);
    assert at.stage.Closed? ==> at.stage.audited.Pending? || at.stage.audited.Fine? || at.stage.audited.Doomed?;
  }

  lemma ApprovalEnd(world: World, settings: Settings, trace: seq<Event>, at: Position, outcome: Outcome, related: bool)
    requires SealedReached(world, trace, at) && Concluded(world, settings, at, outcome, related)
    ensures ApprovalExact(world, trace, outcome, related)
  {
    TraceEnd(world, trace, at);
    forall k: nat | k < |trace| && trace[k].step == ConsumeApproval && !Bad(trace[k].reply)
      ensures |trace| == k + 2 && (outcome.Failing? <==> Bad(Answer(world, k + 1, Record(Completed))))
    {
      OnTrace(trace, k);
      LastRecord(world, trace, at, k);
    }
  }

  /** The record after a consumed approval decides how the run ends. */
  lemma LastRecord(world: World, trace: seq<Event>, at: Position, k: nat)
    requires SealedReached(world, trace, at) && at.stage != Closed(Fine, Pending)
    requires k < |trace| && trace[k].step == ConsumeApproval && !Bad(trace[k].reply)
    ensures |trace| == k + 2 && at.stage == Closed(Fine, CheckOf(Answer(world, k + 1, Record(Completed))))
  {
    OpenReached(world, trace, at);
    var stages :| IsRun(trace, stages) && stages[|trace|] == at.stage;
    ConsumedAt(trace, stages, k);
  }

  lemma FailureEnd(world: World, settings: Settings, trace: seq<Event>, at: Position, outcome: Outcome, related: bool)
    requires SealedReached(world, trace, at) && Concluded(world, settings, at, outcome, related)
    ensures FailureReported(settings, trace, outcome)
  {
    RecoveryFacts(world, settings, trace, at, outcome, related);
    SeenFirst(world, trace, at.seen, AutomaticRollback);
    OpenReached(world, trace, at);
    EndFacts(trace, at.stage);
  }

  /** What the site file did to a run that is over. */
  lemma SiteFileEnd(world: World, trace: seq<Event>, at: Position)
    requires SealedReached(world, trace, at) && !at.stage.Committed?
    ensures at.marks.committed <==> CommitDone(trace)
    ensures forall c: nat :: CommitAt(trace, c) ==>
      (ReloadSite in FailedSteps(trace) <==> RegistryFails(world, c + 2, StageNoop in Tried(trace)))
    ensures ReloadSite in FailedSteps(trace) ==> at.stage.Broken? && at.marks.committed
    ensures at.marks.committed && at.stage.Broken? ==>
      (ReloadSite in FailedSteps(trace) <==> Record(Completed) !in FailedSteps(trace))
  {
    OpenReached(world, trace, at);
    var stages :| IsRun(trace, stages) && stages[|trace|] == at.stage;
    forall c: nat | CommitAt(trace, c)
      ensures ReloadSite in FailedSteps(trace) <==> RegistryFails(world, c + 2, StageNoop in Tried(trace))
    {
      RegistryBreaksIff(world, trace, stages, c);
    }
    if ReloadSite in FailedSteps(trace) {
      ReloadBreaks(trace, stages);
      var c := SucceededAt(trace, |trace|, Commit);
      assert CommitAt(trace, c);
    }
    if at.marks.committed && at.stage.Broken? {
      CommittedCause(trace, stages);
    }
  }

  lemma RegistryEnd(world: World, settings: Settings, trace: seq<Event>, at: Position, outcome: Outcome, related: bool)
    requires SealedReached(world, trace, at) && Concluded(world, settings, at, outcome, related)
    ensures RegistryExact(world, trace, outcome)
  {
    TraceEnd(world, trace, at);
    SiteFileEnd(world, trace, at);
  }

  /** What the stage of a run that is over says about the recovery of the run. */
  lemma RecoveryFacts(world: World, settings: Settings, trace: seq<Event>, at: Position, outcome: Outcome,
      related: bool)
    requires SealedReached(world, trace, at) && Concluded(world, settings, at, outcome, related)
    ensures Answered(world, trace) && Seen(trace, at.seen)
    ensures !at.stage.Broken? ==> at.seen == map[]
    ensures at.stage.Broken? ==>
      && (at.stage.deployed <==> Deploy in Succeeded(trace)) && (at.stage.commitTried <==> Commit in Tried(trace))
      && at.stage.live == LastLive(trace, |trace|)
  {
    OpenReached(world, trace, at);
    var stages :| IsRun(trace, stages) && stages[|trace|] == at.stage;
    FactsAt(trace, stages, |trace|);
    LiveIsLast(trace, stages, |trace|);
    BrokenOrNot(at.stage, Tried(trace), Succeeded(trace));
  }

  lemma BrokenOrNot(stage: Stage, tried: set<Step>, done: set<Step>)
    requires Facts(stage, tried, done)
    ensures !stage.Broken? ==> tried !! RECOVERY
    ensures stage.Broken? ==> (stage.deployed <==> Deploy in done) && (stage.commitTried <==> Commit in tried)
  {
    match stage
    case Broken(_, _, _, _) =>
    case Stopped =>
    case _ =>
  }

  /** There is one first time. */
  lemma FirstUnique(trace: seq<Event>, step: Step, i: nat, j: nat)
    requires FirstAt(trace, step, i) && FirstAt(trace, step, j)
    ensures i == j
  {
  }

  lemma SeenFirst(world: World, trace: seq<Event>, seen: map<Step, nat>, step: Step)
    requires Answered(world, trace) && Seen(trace, seen) && step in RECOVERY
    ensures step in seen <==> step in Tried(trace)
    ensures step in seen ==>
      && FirstAt(trace, step, seen[step]) && FirstReply(world, seen, step) == trace[seen[step]].reply
      && (forall i: nat :: FirstAt(trace, step, i) ==> i == seen[step])
    ensures step !in seen ==> forall i: nat :: !FirstAt(trace, step, i)
  {
    forall i: nat | FirstAt(trace, step, i)
      ensures step in seen && i == seen[step]
    {
      assert trace[i].step in Tried(trace);
      FirstUnique(trace, step, i, seen[step]);
    }
  }

  lemma RollbackEnd(world: World, settings: Settings, trace: seq<Event>, at: Position, outcome: Outcome, related: bool)
    requires SealedReached(world, trace, at) && Concluded(world, settings, at, outcome, related)
    ensures RollbackExact(world, settings, trace)
  {
    RecoveryFacts(world, settings, trace, at, outcome, related);
    SeenFirst(world, trace, at.seen, ReadLive);
    SeenFirst(world, trace, at.seen, Record(Failed));
    SeenFirst(world, trace, at.seen, AutomaticRollback);
  }

  lemma NoopEnd(world: World, settings: Settings, trace: seq<Event>, at: Position, outcome: Outcome, related: bool)
    requires SealedReached(world, trace, at) && Concluded(world, settings, at, outcome, related)
    ensures NoopExact(world, settings, trace)
  {
    RecoveryFacts(world, settings, trace, at, outcome, related);
    SeenFirst(world, trace, at.seen, Record(Failed));
    OpenReached(world, trace, at);
    EndFacts(trace, at.stage);
    if at.stage.Closed? {
      var c := SucceededAt(trace, |trace|, Commit);
      OnTrace(trace, c);
    }
    assert Commit !in PREFLIGHT && Record(Failed) !in PREFLIGHT;
  }

  lemma ResumeEnd(world: World, settings: Settings, trace: seq<Event>, at: Position, outcome: Outcome, related: bool)
    requires SealedReached(world, trace, at) && Concluded(world, settings, at, outcome, related)
    ensures ResumeExact(world, trace, outcome)
  {
    RecoveryFacts(world, settings, trace, at, outcome, related);
    SeenFirst(world, trace, at.seen, ReadLive);
    SeenFirst(world, trace, at.seen, CleanupRollback);
    SeenFirst(world, trace, at.seen, AlignManagement);
    SeenFirst(world, trace, at.seen, AutomaticRollback);
  }

  /** A whole run in a world that answers its steps in any way. */
  method Release(world: World, settings: Settings) returns (outcome: Outcome, related: bool, trace: seq<Event>)
    ensures Follows(trace) && Answered(world, trace) && (outcome.Rejected? <==> settings.adminEmail)
    ensures ReleasedExactly(trace, outcome, related)
    ensures ApprovalExact(world, trace, outcome, related)
    ensures FailureReported(settings, trace, outcome)
    ensures NoopExact(world, settings, trace)
    ensures RollbackExact(world, settings, trace) && ResumeExact(world, trace, outcome)
    ensures RegistryExact(world, trace, outcome)
    ensures CompletedWhenSmooth(world, settings, trace, related)
  {
    var driver := new Driver(world);
    outcome, related := driver.ExecuteRelease(settings);
    trace := driver.trace;
    ReleasedEnd(world, settings, trace, driver.at, outcome, related);
    ApprovalEnd(world, settings, trace, driver.at, outcome, related);
    FailureEnd(world, settings, trace, driver.at, outcome, related);
    RegistryEnd(world, settings, trace, driver.at, outcome, related);
    RollbackEnd(world, settings, trace, driver.at, outcome, related);
    ResumeEnd(world, settings, trace, driver.at, outcome, related);
    NoopEnd(world, settings, trace, driver.at, outcome, related);
    OpenReached(world, trace, driver.at);
  }

  // Two promises that fail -----------------------------------------------------------------

  /** What `Release` promises about a run. */
  ghost predicate RunOf(world: World, settings: Settings, outcome: Outcome, related: bool, trace: seq<Event>) {
    && Follows(trace) && Answered(world, trace) && (outcome.Rejected? <==> settings.adminEmail)
    && ReleasedExactly(trace, outcome, related) && ApprovalExact(world, trace, outcome, related)
    && FailureReported(settings, trace, outcome) && RegistryExact(world, trace, outcome)
    && NoopExact(world, settings, trace) && RollbackExact(world, settings, trace) && ResumeExact(world, trace, outcome)
    && CompletedWhenSmooth(world, settings, trace, related)
  }

  /** A world in which only the site file cannot be read. */
  function WithoutSiteFile(): World {
    (n: nat, step: Step) => if step == ReloadSite then Raised else Done
  }

  /** In that world any release commits and is then reported as failed for the site file. */
  method SiteFileFailsRelease(settings: Settings) returns (outcome: Outcome, related: bool, trace: seq<Event>)
    requires !settings.adminEmail
    ensures RunOf(WithoutSiteFile(), settings, outcome, related, trace)
    ensures CommitDone(trace) && FailedSteps(trace) == {ReloadSite}
    ensures outcome.Failing? && outcome.cause == ReloadSite
  {
    outcome, related, trace := Release(WithoutSiteFile(), settings);
    OnlySiteFile(WithoutSiteFile(), settings, outcome, related, trace);
  }

  /** So does every run there can be in it. */
  lemma OnlySiteFile(world: World, settings: Settings, outcome: Outcome, related: bool, trace: seq<Event>)
    requires !outcome.Rejected?
    requires forall n: nat, step :: Answer(world, n, step) == if step == ReloadSite then Raised else Done
    requires Answered(world, trace) && ReleasedExactly(trace, outcome, related)
    requires CompletedWhenSmooth(world, settings, trace, related)
    requires FailureReported(settings, trace, outcome) && RegistryExact(world, trace, outcome)
    ensures FailedSteps(trace) == {ReloadSite} && CommitDone(trace) && outcome.Failing? && outcome.cause == ReloadSite
  {
    OnlyReloads(world, trace);
    if outcome.Released? {
      var c := SucceededAt(trace, |trace|, Commit);
      assert CommitAt(trace, c) && RegistryFails(world, c + 2, StageNoop in Tried(trace));
    }
  }

  lemma OnlyReloads(world: World, trace: seq<Event>)
    requires forall n: nat, step :: Answer(world, n, step) == if step == ReloadSite then Raised else Done
    requires Answered(world, trace)
    ensures FailedSteps(trace) <= {ReloadSite}
  {
  }

  /** A world with an approval in which everything succeeds until the record after its consumption. */
  function WithoutLastRecord(settings: Settings): World {
    (n: nat, step: Step) =>
      if n > CompletionSteps(settings) then Raised else if step == ResolveApproval then Approval(true) else Done
  }

  /** In that world any release is completed, consumes its approval and fails. */
  method LastRecordLosesApproval(settings: Settings) returns (outcome: Outcome, related: bool, trace: seq<Event>)
    requires !settings.adminEmail
    ensures RunOf(WithoutLastRecord(settings), settings, outcome, related, trace)
    ensures Record(Completed) in Succeeded(trace) && ApprovalLost(trace)
    ensures outcome == Failing(Record(Completed), false)
  {
    outcome, related, trace := Release(WithoutLastRecord(settings), settings);
    OnlyLastRecord(WithoutLastRecord(settings), settings, outcome, related, trace);
  }

  /** So does every run there can be in it. */
  lemma OnlyLastRecord(world: World, settings: Settings, outcome: Outcome, related: bool, trace: seq<Event>)
    requires !settings.adminEmail && Answered(world, trace) && CompletedWhenSmooth(world, settings, trace, related)
    requires ReleasedExactly(trace, outcome, related) && ApprovalExact(world, trace, outcome, related)
    requires outcome.Rejected? <==> settings.adminEmail
    requires world == WithoutLastRecord(settings)
    ensures Record(Completed) in Succeeded(trace) && ApprovalLost(trace)
    ensures outcome == Failing(Record(Completed), false)
  {
    assert Smooth(world, CompletionSteps(settings));
    var k := SucceededAt(trace, |trace|, ConsumeApproval);
  }
}
