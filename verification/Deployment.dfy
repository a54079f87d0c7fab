/**
 * Publication of a boot bundle into a TFTP tree: staging, marker, no-clobber rename or exchange,
 * clean-up, and whether the commit state that `publish` reports is true. Other processes may
 * replace, remove or edit the destination before and after every rename and exchange and between
 * the checks; every primitive may fail at each of its points.
 */
module Deployment {
  import opened Wrappers

  const MARKER: string := ".aros-board-deploy"
  const MARKER_CONTENT: string := "AROS board deployment directory\n"

  /** A directory: its identity and its complete content by relative path. */
  datatype Dir = Dir(id: nat, entries: map<string, string>)

  predicate Managed(d: Dir) { MARKER in d.entries && d.entries[MARKER] == MARKER_CONTENT }

  /** A change of the destination by somebody else. */
  datatype Drift = Keeps | Becomes(destination: Option<Dir>)

  // ----- errors of the publication primitives -----

  datatype Class = Conflict | Io | CommitStateUncertain

  datatype Error = Error(class_: Class, rollbackIncomplete: bool)

  /** `must_retain_stage`. */
  predicate MustRetainStage(e: Error) { e.rollbackIncomplete || e.class_ == CommitStateUncertain }

  /** Where `publish_prepared_tree_noclobber` fails: before the rename, at the sync, or at the identity probe. */
  datatype NoClobberFault = NoFault | BeforeRename | ParentSync | IdentityProbe

  /** Where `exchange_prepared_tree_if_unchanged` fails; an unresolved failure may or may not have swapped back. */
  datatype ExchangeFault =
    | NoFailure | BeforeExchange | InstalledUnreadable | PreviousUnreadable
    | Unresolved(swapped: bool) | ExchangeSync | IdentityMeasure

  datatype Environment = Environment(
    createsStage: bool, stageId: nat, copies: bool, marks: bool,
    driftBeforeMeasure: Drift, measures: bool,
    driftBeforeRename: Drift, noClobber: NoClobberFault, driftAfterRename: Drift,
    driftBeforeMarker: Drift, markerReadable: bool,
    driftBeforeExchange: Drift, exchange: ExchangeFault,
    driftAtExchange: Drift, driftAfterExchange: Drift, driftBeforeUndo: Drift, driftAfterUndo: Drift,
    removesPrevious: bool, cleansUp: bool)

  datatype CommitState = RolledBack | Committed | Indeterminate

  datatype Report = Published | Failed(state: CommitState)

  /** What the new deployment has to contain. */
  function Expected(snapshot: map<string, string>): map<string, string> {
    snapshot[MARKER := MARKER_CONTENT]
  }

  /**
   * Destination and stage path; what others last left at the destination while our tree was not
   * there; whether our rename or exchange is in effect; whether others touched the destination
   * since; and what this run removed.
   */
  datatype World = World(
    destination: Option<Dir>, stage: Option<Dir>, others: Option<Dir>, installed: bool, edited: bool, removed: seq<Dir>)

  function Drifted(w: World, d: Drift): World {
    match d
    case Keeps => w
    case Becomes(now) =>
      if w.installed then w.(destination := now, edited := true) else w.(destination := now, others := now)
  }

  function Removed(w: World): World {
    w.(stage := None, removed := w.removed + if w.stage.Some? then [w.stage.value] else [])
  }

  // ----- the primitives, one contract each -----

  predicate Bound(d: Option<Dir>, id: nat) { d.Some? && d.value.id == id }

  /** A tree read through its open handle differs from what was measured: it was edited in place. */
  predicate EditedInPlace(now: Option<Dir>, measured: Dir) { Bound(now, measured.id) && now != Some(measured) }

  /** `publish_prepared_tree_noclobber`: the probe after the rename returns its I/O error as it is. */
  function NoClobber(w: World, env: Environment): (World, Option<Error>)
    requires w.stage.Some?
  {
    if w.destination.Some? then (w, Some(Error(Conflict, false)))
    else if env.noClobber.BeforeRename? then (w, Some(Error(Io, false)))
    else
      var renamed := Drifted(w.(destination := w.stage, stage := None, installed := true), env.driftAfterRename);
      if env.noClobber.ParentSync? then (renamed, Some(Error(CommitStateUncertain, false)))
      else if env.noClobber.IdentityProbe? then (renamed, Some(Error(Io, false)))
      else if !Bound(renamed.destination, w.stage.value.id) then (renamed, Some(Error(CommitStateUncertain, false)))
      else (renamed, None)
  }

  function Swapped(w: World, installed: bool): World {
    w.(destination := w.stage, stage := w.destination, installed := installed)
  }

  /** The trees after the swap do not verify, or could not be read. */
  predicate Suspicious(now: World, ours: Dir, measured: Dir, fault: ExchangeFault) {
    || EditedInPlace(now.destination, ours) || EditedInPlace(now.stage, measured)
    || fault.InstalledUnreadable? || fault.PreviousUnreadable? || fault.Unresolved?
  }

  /** The measured tree is back, and the stage holds what stood at the destination when it was read. */
  predicate Restored(undone: World, now: World, measured: Dir) {
    undone.destination == Some(measured) && undone.stage == now.destination
  }

  /** `exchange_prepared_tree_if_unchanged`: a plain error only with the original namespace restored. */
  function Exchange(w: World, measured: Dir, env: Environment): (World, Option<Error>)
    requires w.stage.Some?
  {
    var fault, ours := env.exchange, w.stage.value;
    if w.destination != Some(measured) || fault.BeforeExchange? then (w, Some(Error(Io, false)))
    else
      var at := Drifted(w, env.driftAtExchange);
      if at.destination.None? then (at, Some(Error(Io, false)))
      else
        var now := Drifted(Swapped(at, true), env.driftAfterExchange);
        var bound := Bound(now.destination, ours.id) && Bound(now.stage, measured.id);
        if Suspicious(now, ours, measured, fault) then
          if !bound then (now, Some(Error(CommitStateUncertain, true)))
          else
            // Both bindings have been read; the compensating exchange comes after, on what stands there then.
            var pre := Drifted(now, env.driftBeforeUndo);
            if fault == Unresolved(true) || pre.destination.None? then (pre, Some(Error(CommitStateUncertain, true)))
            else
              var undone := Drifted(Swapped(pre, false), env.driftAfterUndo);
              if Restored(undone, now, measured) && !fault.Unresolved? && !fault.InstalledUnreadable? then
                (undone, Some(Error(Io, false)))
              else (undone, Some(Error(CommitStateUncertain, true)))
        else if !bound || fault.ExchangeSync? || fault.IdentityMeasure? then (now, Some(Error(CommitStateUncertain, false)))
        else (now, None)
  }

  // ----- what a run amounts to -----

  datatype Run = Run(world: World, report: Report, cleanup: bool, markerSeenOn: Option<Dir>)

  /** Publication when nothing was measured at the destination. */
  function FirstPublication(w: World, env: Environment): Run
    requires w.stage.Some?
  {
    var (after, error) := NoClobber(Drifted(w, env.driftBeforeRename), env);
    if error.None? then Run(after, Published, false, None)
    else if MustRetainStage(error.value) then Run(after, Failed(Indeterminate), false, None)
    else Run(after, Failed(RolledBack), true, None)
  }

  /** Replacement of a measured destination: marker, exchange, removal of the previous tree. */
  function Replacement(w: World, measured: Dir, env: Environment): Run
    requires w.stage.Some?
  {
    var looked := Drifted(w, env.driftBeforeMarker);
    if !env.markerReadable || looked.destination.None? || !Managed(looked.destination.value) then
      Run(looked, Failed(RolledBack), true, None)
    else
      var (after, error) := Exchange(Drifted(looked, env.driftBeforeExchange), measured, env);
      if error.Some? && MustRetainStage(error.value) then Run(after, Failed(Indeterminate), false, looked.destination)
      else if error.Some? then Run(after, Failed(RolledBack), true, looked.destination)
      else if !env.removesPrevious then Run(after, Failed(Committed), false, looked.destination)
      else Run(Removed(after), Published, false, looked.destination)
  }

  function StagePublication(w: World, snapshot: map<string, string>, env: Environment): Run
    requires w.stage.Some?
  {
    var id := w.stage.value.id;
    if !env.copies then Run(w, Failed(RolledBack), true, None)
    else if !env.marks || MARKER in snapshot then Run(w.(stage := Some(Dir(id, snapshot))), Failed(RolledBack), true, None)
    else
      var staged := Drifted(w.(stage := Some(Dir(id, Expected(snapshot)))), env.driftBeforeMeasure);
      if !env.measures then Run(staged, Failed(RolledBack), true, None)
      else if staged.destination.None? then FirstPublication(staged, env)
      else Replacement(staged, staged.destination.value, env)
  }

  function Initial(destination: Option<Dir>): World { World(destination, None, destination, false, false, []) }

  function Publication(destination: Option<Dir>, snapshot: map<string, string>, env: Environment): Run {
    var start := Initial(destination);
    if !env.createsStage then Run(start, Failed(RolledBack), false, None)
    else
      var run := StagePublication(start.(stage := Some(Dir(env.stageId, map[]))), snapshot, env);
      if run.cleanup && env.cleansUp then run.(world := Removed(run.world)) else run
  }

  // ----- is the report true? -----

  /** Our tree stands at the destination, with exactly the new content unless others edited it since. */
  ghost predicate Deployed(w: World, ours: Dir) {
    w.installed && Bound(w.destination, ours.id) && (w.edited || w.destination == Some(ours))
  }

  /** What `publish` promises about each reported state. */
  ghost predicate Truthful(run: Run, ours: Dir) {
    var w := run.world;
    match run.report
    case Published => Deployed(w, ours) && w.stage.None? && (forall d <- w.removed :: Some(d) == w.others)
    case Failed(RolledBack) => !w.installed && w.destination == w.others && (forall d <- w.removed :: d.id == ours.id)
    case Failed(Committed) => Deployed(w, ours) && w.removed == [] && w.others.Some? && w.stage == w.others
    case Failed(Indeterminate) =>
      // Nothing was removed: the displaced tree still stands at one of the two places, and so does
      // the new one unless others took it away.
      && w.removed == []
      && (w.others.Some? ==> w.others == w.destination || w.others == w.stage)
      && (w.edited || w.destination == Some(ours) || w.stage == Some(ours))
  }

  /** The one defective path: the rename went through and then its identity probe failed. */
  ghost predicate ProbeFailedAfterRename(destination: Option<Dir>, env: Environment) {
    var measured := Drifted(Initial(destination), env.driftBeforeMeasure);
    && env.createsStage && env.copies && env.marks && env.measures
    && measured.destination.None? && Drifted(measured, env.driftBeforeRename).destination.None?
    && env.noClobber.IdentityProbe?
  }

  /** A world in which our tree is still on the stage and nothing has happened yet but drift. */
  ghost predicate Waiting(w: World, ours: Dir) {
    w.stage == Some(ours) && w.destination == w.others && !w.installed && !w.edited && w.removed == []
  }

  lemma DriftKeepsWaiting(w: World, d: Drift, ours: Dir)
    requires Waiting(w, ours)
    ensures Waiting(Drifted(w, d), ours)
  {
  }

  /** What the no-clobber rename guarantees: nothing is ever displaced, and only a failed probe hides a rename. */
  lemma NoClobberOutcome(w: World, ours: Dir, env: Environment)
    requires Waiting(w, ours)
    ensures var (after, error) := NoClobber(w, env);
      && after.removed == [] && after.others == w.others && (after.installed ==> after.others.None? && after.stage.None?)
      && (error.None? ==> Deployed(after, ours))
      && (error.Some? && MustRetainStage(error.value) ==> after.installed)
      && (error.Some? && !MustRetainStage(error.value) ==>
            if w.destination.None? && env.noClobber.IdentityProbe? then after.installed else after == w)
  {
  }

  lemma FirstPublicationIsTrue(w: World, ours: Dir, env: Environment)
    requires Waiting(w, ours)
    ensures var run := FirstPublication(w, env);
      Truthful(run, ours) <==> !(Drifted(w, env.driftBeforeRename).destination.None? && env.noClobber.IdentityProbe?)
    ensures var run := FirstPublication(w, env);
      run.cleanup && !run.world.installed ==> run.world.stage == Some(ours) && run.world.removed == []
    ensures var run := FirstPublication(w, env);
      run.cleanup && run.world.installed ==> run.world.stage.None? && !Truthful(run, ours)
  {
    DriftKeepsWaiting(w, env.driftBeforeRename, ours);
  }

  /** What the exchange guarantees: success, a plain error and an uncertain one, each with its world. */
  lemma ExchangeOutcome(w: World, measured: Dir, ours: Dir, env: Environment)
    requires Waiting(w, ours)
    ensures var (after, error) := Exchange(w, measured, env);
      && after.removed == []
      && (error.None? ==> Deployed(after, ours) && after.others.Some? && after.stage == after.others == Some(measured))
      && (error.Some? && !MustRetainStage(error.value) ==>
            !after.installed && after.destination == after.others && Bound(after.stage, ours.id))
      && (error.Some? && MustRetainStage(error.value) ==>
            && (after.others.Some? ==> after.others == after.destination || after.others == after.stage)
            && (after.edited || after.destination == Some(ours) || after.stage == Some(ours)))
  {
    DriftKeepsWaiting(w, env.driftAtExchange, ours);
  }

  lemma ReplacementIsTrue(w: World, measured: Dir, ours: Dir, env: Environment)
    requires Waiting(w, ours)
    ensures var run := Replacement(w, measured, env);
      Truthful(run, ours) && (run.cleanup ==> run.report == Failed(RolledBack) && Bound(run.world.stage, ours.id))
  {
    DriftKeepsWaiting(w, env.driftBeforeMarker, ours);
    var looked := Drifted(w, env.driftBeforeMarker);
    DriftKeepsWaiting(looked, env.driftBeforeExchange, ours);
    ExchangeOutcome(Drifted(looked, env.driftBeforeExchange), measured, ours, env);
  }

  function Ours(snapshot: map<string, string>, env: Environment): Dir { Dir(env.stageId, Expected(snapshot)) }

  /** A run that reached the measurement of the destination. */
  ghost predicate Measures(snapshot: map<string, string>, env: Environment) {
    env.createsStage && env.copies && env.marks && MARKER !in snapshot && env.measures
  }

  /** Until the measurement nothing can go wrong but a clean refusal. */
  lemma EarlyExitIsTrue(destination: Option<Dir>, snapshot: map<string, string>, env: Environment)
    requires !Measures(snapshot, env)
    ensures var run := Publication(destination, snapshot, env);
      Truthful(run, Ours(snapshot, env)) && run.report == Failed(RolledBack) && !run.world.installed
  {
  }

  /** After it the run is the rename or the exchange, with the clean-up when asked for. */
  lemma MeasuredRun(destination: Option<Dir>, snapshot: map<string, string>, env: Environment) returns (w: World, run: Run)
    requires Measures(snapshot, env)
    ensures Waiting(w, Ours(snapshot, env))
    ensures w.destination == Drifted(Initial(destination), env.driftBeforeMeasure).destination
    ensures run == if w.destination.None? then FirstPublication(w, env) else Replacement(w, w.destination.value, env)
    ensures Publication(destination, snapshot, env) ==
      if run.cleanup && env.cleansUp then run.(world := Removed(run.world)) else run
  {
    var begun := Initial(destination).(stage := Some(Dir(env.stageId, map[])));
    w := Drifted(begun.(stage := Some(Ours(snapshot, env))), env.driftBeforeMeasure);
    run := StagePublication(begun, snapshot, env);
  }

  /** The reported state is true exactly when the run did not take the defective path. */
  lemma ReportIsTrueExactly(destination: Option<Dir>, snapshot: map<string, string>, env: Environment)
    ensures Truthful(Publication(destination, snapshot, env), Ours(snapshot, env))
       <==> !(MARKER !in snapshot && ProbeFailedAfterRename(destination, env))
  {
    if !Measures(snapshot, env) {
      EarlyExitIsTrue(destination, snapshot, env);
    } else {
      var ours := Ours(snapshot, env);
      var w, run := MeasuredRun(destination, snapshot, env);
      if w.destination.None? { FirstPublicationIsTrue(w, ours, env); } else { ReplacementIsTrue(w, w.destination.value, ours, env); }
    }
  }

  const QUIET: Environment := Environment(
    true, 0, true, true, Keeps, true, Keeps, NoFault, Keeps, Keeps, true, Keeps, NoFailure, Keeps, Keeps, Keeps, Keeps, true, true)

  /** On that path the new tree is in place while the report says that nothing was published. */
  lemma ProbeFailureMisreports(snapshot: map<string, string>, id: nat)
    requires MARKER !in snapshot
    ensures var env := QUIET.(noClobber := IdentityProbe, stageId := id);
      var run := Publication(None, snapshot, env);
      run.report == Failed(RolledBack) && Deployed(run.world, Ours(snapshot, env)) && run.world.others.None?
  {
    var env := QUIET.(noClobber := IdentityProbe, stageId := id);
    var w, run := MeasuredRun(None, snapshot, env);
  }

  // ----- exactly when a run publishes -----

  /** What stands at the destination after others had their chance. */
  function Then(d: Option<Dir>, drift: Drift): Option<Dir> {
    match drift case Keeps => d case Becomes(now) => now
  }

  /** Nothing stood there, nothing failed, and the directory found after the rename is the staged one. */
  ghost predicate PublishesFirst(destination: Option<Dir>, snapshot: map<string, string>, env: Environment) {
    var measured := Then(destination, env.driftBeforeMeasure);
    && Measures(snapshot, env) && measured.None? && Then(measured, env.driftBeforeRename).None?
    && env.noClobber.NoFault? && Bound(Then(Some(Ours(snapshot, env)), env.driftAfterRename), env.stageId)
  }

  /** A marked tree was seen, the measured one stands there at the exchange, nothing failed, and nothing moved after it. */
  ghost predicate PublishesReplacing(destination: Option<Dir>, snapshot: map<string, string>, env: Environment) {
    var ours := Ours(snapshot, env);
    var measured := Then(destination, env.driftBeforeMeasure);
    var looked := Then(measured, env.driftBeforeMarker);
    var ready := Then(looked, env.driftBeforeExchange);
    && Measures(snapshot, env) && measured.Some?
    && env.markerReadable && looked.Some? && Managed(looked.value)
    && ready == measured && Then(ready, env.driftAtExchange) == measured
    && env.exchange.NoFailure? && Then(Some(ours), env.driftAfterExchange) == Some(ours)
  }

  /** A rename without a fault goes through exactly when the way is free and the tree is still there afterwards. */
  lemma NoClobberSucceeds(w: World, ours: Dir, env: Environment)
    requires Waiting(w, ours)
    ensures var (after, error) := NoClobber(w, env);
      && (error.None? <==>
            w.destination.None? && env.noClobber.NoFault? && Bound(Then(Some(ours), env.driftAfterRename), ours.id))
      && (error.None? ==> after.destination == Then(Some(ours), env.driftAfterRename) && after.stage.None?)
  {
  }

  lemma ExchangeSucceeds(w: World, measured: Dir, ours: Dir, env: Environment)
    requires Waiting(w, ours)
    ensures var (after, error) := Exchange(w, measured, env);
      && (error.None? <==>
            && w.destination == Some(measured) && Then(w.destination, env.driftAtExchange) == Some(measured)
            && env.exchange.NoFailure? && Then(Some(ours), env.driftAfterExchange) == Some(ours))
      && (error.None? ==> after.destination == Some(ours))
  {
    DriftKeepsWaiting(w, env.driftAtExchange, ours);
  }

  /** Exactly when a run reports success or a commit, and what then stands at the destination. */
  lemma PublishedExactly(destination: Option<Dir>, snapshot: map<string, string>, env: Environment)
    ensures var run := Publication(destination, snapshot, env);
      && (run.report == Published <==>
            || PublishesFirst(destination, snapshot, env)
            || (PublishesReplacing(destination, snapshot, env) && env.removesPrevious))
      && (run.report == Failed(Committed) <==> PublishesReplacing(destination, snapshot, env) && !env.removesPrevious)
      && (PublishesReplacing(destination, snapshot, env) || (PublishesFirst(destination, snapshot, env) && env.driftAfterRename.Keeps?) ==>
            run.world.destination == Some(Dir(env.stageId, snapshot[MARKER := MARKER_CONTENT])))
  {
    if !Measures(snapshot, env) {
      EarlyExitIsTrue(destination, snapshot, env);
    } else {
      var ours := Ours(snapshot, env);
      var w, run := MeasuredRun(destination, snapshot, env);
      assert w.destination == Then(destination, env.driftBeforeMeasure);
      if w.destination.None? {
        FirstPublishes(w, ours, env);
      } else {
        ReplacementPublishes(w, w.destination.value, ours, env);
      }
    }
  }

  lemma FirstPublishes(w: World, ours: Dir, env: Environment)
    requires Waiting(w, ours)
    ensures var run := FirstPublication(w, env);
      && (run.report == Published <==>
            && Then(w.destination, env.driftBeforeRename).None?
            && env.noClobber.NoFault? && Bound(Then(Some(ours), env.driftAfterRename), ours.id))
      && (run.report == Published ==> run.world.destination == Then(Some(ours), env.driftAfterRename) && !run.cleanup)
      && run.report != Failed(Committed)
  {
    DriftKeepsWaiting(w, env.driftBeforeRename, ours);
    NoClobberSucceeds(Drifted(w, env.driftBeforeRename), ours, env);
  }

  lemma ReplacementPublishes(w: World, measured: Dir, ours: Dir, env: Environment)
    requires Waiting(w, ours)
    ensures var run := Replacement(w, measured, env);
      var looked := Then(w.destination, env.driftBeforeMarker);
      var ready := Then(looked, env.driftBeforeExchange);
      var goes := env.markerReadable && looked.Some? && Managed(looked.value)
                  && ready == Some(measured) && Then(ready, env.driftAtExchange) == Some(measured)
                  && env.exchange.NoFailure? && Then(Some(ours), env.driftAfterExchange) == Some(ours);
      && (run.report == Published <==> goes && env.removesPrevious)
      && (run.report == Failed(Committed) <==> goes && !env.removesPrevious)
      && (goes ==> run.world.destination == Some(ours) && !run.cleanup)
  {
    var looked := Drifted(w, env.driftBeforeMarker);
    DriftKeepsWaiting(w, env.driftBeforeMarker, ours);
    DriftKeepsWaiting(looked, env.driftBeforeExchange, ours);
    ExchangeSucceeds(Drifted(looked, env.driftBeforeExchange), measured, ours, env);
  }

  // ----- exactly when the commit state stays open -----

  /** The rename went through, and then its sync failed or another directory stood there. */
  ghost predicate RenameUncertain(destination: Option<Dir>, snapshot: map<string, string>, env: Environment) {
    var measured := Then(destination, env.driftBeforeMeasure);
    && Measures(snapshot, env) && measured.None? && Then(measured, env.driftBeforeRename).None?
    && (env.noClobber.ParentSync?
        || (env.noClobber.NoFault? && !Bound(Then(Some(Ours(snapshot, env)), env.driftAfterRename), env.stageId)))
  }

  /** The exchange of `at` against the new tree was noticed to be wrong and taken back without a trace. */
  ghost predicate CleanUndo(at: Option<Dir>, measured: Dir, ours: Dir, env: Environment) {
    var now := Then(Some(ours), env.driftAfterExchange);
    && Bound(now, ours.id) && Bound(at, measured.id)
    && (now != Some(ours) || at != Some(measured) || env.exchange.PreviousUnreadable?)
    && !env.exchange.InstalledUnreadable? && !env.exchange.Unresolved?
    && Then(now, env.driftBeforeUndo) == now && Then(at, env.driftAfterUndo) == Some(measured)
  }

  /** The exchange took place, did not succeed, and was not cleanly taken back. */
  ghost predicate ExchangeUncertain(destination: Option<Dir>, snapshot: map<string, string>, env: Environment) {
    var measured := Then(destination, env.driftBeforeMeasure);
    var looked := Then(measured, env.driftBeforeMarker);
    var ready := Then(looked, env.driftBeforeExchange);
    var at := Then(ready, env.driftAtExchange);
    && Measures(snapshot, env) && measured.Some?
    && env.markerReadable && looked.Some? && Managed(looked.value)
    && ready == measured && !env.exchange.BeforeExchange? && at.Some?
    && !PublishesReplacing(destination, snapshot, env) && !CleanUndo(at, measured.value, Ours(snapshot, env), env)
  }

  lemma NoClobberUncertain(w: World, ours: Dir, env: Environment)
    requires Waiting(w, ours)
    ensures var error := NoClobber(w, env).1;
      error.Some? && MustRetainStage(error.value) <==>
        && w.destination.None?
        && (env.noClobber.ParentSync?
            || (env.noClobber.NoFault? && !Bound(Then(Some(ours), env.driftAfterRename), ours.id)))
  {
  }

  lemma ExchangeRefused(w: World, measured: Dir, ours: Dir, env: Environment)
    requires Waiting(w, ours)
    ensures var error := Exchange(w, measured, env).1;
      var at := Then(w.destination, env.driftAtExchange);
      error.Some? && !MustRetainStage(error.value) <==>
        || w.destination != Some(measured) || env.exchange.BeforeExchange? || at.None?
        || CleanUndo(at, measured, ours, env)
  {
    DriftKeepsWaiting(w, env.driftAtExchange, ours);
  }

  /** Exactly when the reported commit state is indeterminate; in all other failing runs but the committed ones it is rolled back. */
  lemma IndeterminateExactly(destination: Option<Dir>, snapshot: map<string, string>, env: Environment)
    ensures Publication(destination, snapshot, env).report == Failed(Indeterminate) <==>
      RenameUncertain(destination, snapshot, env) || ExchangeUncertain(destination, snapshot, env)
  {
    if !Measures(snapshot, env) {
      EarlyExitIsTrue(destination, snapshot, env);
    } else {
      var ours := Ours(snapshot, env);
      var w, run := MeasuredRun(destination, snapshot, env);
      assert w.destination == Then(destination, env.driftBeforeMeasure);
      if w.destination.None? {
        DriftKeepsWaiting(w, env.driftBeforeRename, ours);
        NoClobberUncertain(Drifted(w, env.driftBeforeRename), ours, env);
      } else {
        ReplacementUncertain(w, w.destination.value, ours, env);
      }
    }
  }

  lemma ReplacementUncertain(w: World, measured: Dir, ours: Dir, env: Environment)
    requires Waiting(w, ours)
    ensures var looked := Then(w.destination, env.driftBeforeMarker);
      var ready := Then(looked, env.driftBeforeExchange);
      var at := Then(ready, env.driftAtExchange);
      Replacement(w, measured, env).report == Failed(Indeterminate) <==>
        && env.markerReadable && looked.Some? && Managed(looked.value)
        && ready == Some(measured) && !env.exchange.BeforeExchange? && at.Some?
        && !(at == Some(measured) && env.exchange.NoFailure? && Then(Some(ours), env.driftAfterExchange) == Some(ours))
        && !CleanUndo(at, measured, ours, env)
  {
    var looked := Drifted(w, env.driftBeforeMarker);
    DriftKeepsWaiting(w, env.driftBeforeMarker, ours);
    DriftKeepsWaiting(looked, env.driftBeforeExchange, ours);
    var ready := Drifted(looked, env.driftBeforeExchange);
    ExchangeSucceeds(ready, measured, ours, env);
    ExchangeRefused(ready, measured, ours, env);
  }

  // ----- is only a managed destination replaced? -----

  /** The run put its tree in the place of one that somebody had put there. */
  ghost predicate Replaced(run: Run) { run.world.installed && run.world.others.Some? }

  /** A tree that somebody put at the destination and that this run moved away from there, by either exchange. */
  ghost function Displaced(w: World, ours: Dir): Option<Dir> {
    if w.installed then w.others else if w.stage.Some? && w.stage.value.id != ours.id then w.stage else None
  }

  /** The world in which the compensating exchange takes place. */
  ghost function BeforeUndo(w: World, env: Environment): World {
    Drifted(Drifted(Swapped(Drifted(w, env.driftAtExchange), true), env.driftAfterExchange), env.driftBeforeUndo)
  }

  /** The exchange is taken back: something is suspicious, both bindings still stood, and there is something to swap with. */
  ghost predicate TakenBack(w: World, measured: Dir, ours: Dir, env: Environment) {
    var now := Drifted(Swapped(Drifted(w, env.driftAtExchange), true), env.driftAfterExchange);
    && Suspicious(now, ours, measured, env.exchange)
    && Bound(now.destination, ours.id) && Bound(now.stage, measured.id)
    && env.exchange != Unresolved(true) && BeforeUndo(w, env).destination.Some?
  }

  /** The first exchange takes place. */
  ghost predicate Exchanges(w: World, measured: Dir, env: Environment) {
    && w.destination == Some(measured) && !env.exchange.BeforeExchange?
    && Drifted(w, env.driftAtExchange).destination.Some?
  }

  /** Exactly when the exchange leaves the new tree in the place of another one, and exactly what it displaces. */
  lemma ExchangeReplaces(w: World, measured: Dir, ours: Dir, env: Environment)
    requires Waiting(w, ours)
    ensures var after := Exchange(w, measured, env).0;
      && (after.installed <==> Exchanges(w, measured, env) && !TakenBack(w, measured, ours, env))
      && Displaced(after, ours) ==
           if !Exchanges(w, measured, env) then None
           else if !TakenBack(w, measured, ours, env) then Drifted(w, env.driftAtExchange).destination
           else if Bound(BeforeUndo(w, env).destination, ours.id) then None
           else BeforeUndo(w, env).destination
  {
    DriftKeepsWaiting(w, env.driftAtExchange, ours);
  }

  /** The world in which the exchange is called, once the marker check has passed on a measured destination. */
  ghost function Ready(destination: Option<Dir>, snapshot: map<string, string>, env: Environment): World {
    Drifted(Drifted(Drifted(Initial(destination).(stage := Some(Ours(snapshot, env))),
      env.driftBeforeMeasure), env.driftBeforeMarker), env.driftBeforeExchange)
  }

  /** The run reaches its first exchange: a destination was measured, a managed one was seen, the measured one is there again. */
  ghost predicate ReachesExchange(destination: Option<Dir>, snapshot: map<string, string>, env: Environment) {
    var measured := Drifted(Initial(destination), env.driftBeforeMeasure).destination;
    var looked := Drifted(Drifted(Initial(destination), env.driftBeforeMeasure), env.driftBeforeMarker).destination;
    && Measures(snapshot, env) && measured.Some?
    && env.markerReadable && looked.Some? && Managed(looked.value)
    && Exchanges(Ready(destination, snapshot, env), measured.value, env)
  }

  ghost predicate UndoesExchange(destination: Option<Dir>, snapshot: map<string, string>, env: Environment)
    requires ReachesExchange(destination, snapshot, env)
  {
    var measured := Drifted(Initial(destination), env.driftBeforeMeasure).destination.value;
    TakenBack(Ready(destination, snapshot, env), measured, Ours(snapshot, env), env)
  }

  /**
   * The first race: an unmanaged tree stands at the destination at the moment of the exchange,
   * although the marker check just before had seen a managed one there.
   */
  ghost predicate MarkerRace(destination: Option<Dir>, snapshot: map<string, string>, env: Environment) {
    && ReachesExchange(destination, snapshot, env) && !UndoesExchange(destination, snapshot, env)
    && !Managed(Drifted(Ready(destination, snapshot, env), env.driftAtExchange).destination.value)
  }

  /**
   * The second race: an unmanaged tree has taken the place of the new one when the exchange is
   * taken back, although the new one had stood there when the bindings were read.
   */
  ghost predicate UndoRace(destination: Option<Dir>, snapshot: map<string, string>, env: Environment) {
    && ReachesExchange(destination, snapshot, env) && UndoesExchange(destination, snapshot, env)
    && var standing := BeforeUndo(Ready(destination, snapshot, env), env).destination.value;
    standing.id != env.stageId && !Managed(standing)
  }

  /** A first publication displaces nothing. */
  lemma FirstPublicationDisplacesNothing(w: World, ours: Dir, env: Environment)
    requires Waiting(w, ours)
    ensures var run := FirstPublication(w, env);
      !Replaced(run) && Displaced(run.world, ours).None? && Displaced(Removed(run.world), ours).None?
  {
    DriftKeepsWaiting(w, env.driftBeforeRename, ours);
    NoClobberOutcome(Drifted(w, env.driftBeforeRename), ours, env);
  }

  /** What a replacement displaces, and what it has seen before. */
  lemma ReplacementReplaces(w: World, measured: Dir, ours: Dir, env: Environment)
    requires Waiting(w, ours)
    ensures var run := Replacement(w, measured, env);
      var looked := Drifted(w, env.driftBeforeMarker);
      var ready := Drifted(looked, env.driftBeforeExchange);
      var goes := env.markerReadable && looked.destination.Some? && Managed(looked.destination.value)
                  && Exchanges(ready, measured, env);
      && (run.world.installed <==> goes && !TakenBack(ready, measured, ours, env))
      && Displaced(run.world, ours) == (if goes then Displaced(Exchange(ready, measured, env).0, ours) else None)
      && (run.cleanup ==> Displaced(run.world, ours) == Displaced(Removed(run.world), ours))
      && (goes ==> run.markerSeenOn == looked.destination)
      && (run.world.installed && (run.report == Published || run.report == Failed(Committed)) ==> run.world.others == Some(measured))
  {
    var looked := Drifted(w, env.driftBeforeMarker);
    DriftKeepsWaiting(w, env.driftBeforeMarker, ours);
    DriftKeepsWaiting(looked, env.driftBeforeExchange, ours);
    var ready := Drifted(looked, env.driftBeforeExchange);
    ExchangeReplaces(ready, measured, ours, env);
    ExchangeOutcome(ready, measured, ours, env);
  }

  /** What a run displaces is what its exchange displaces, if it gets there. */
  lemma RunDisplaces(destination: Option<Dir>, snapshot: map<string, string>, env: Environment)
    ensures var run := Publication(destination, snapshot, env);
      && (Replaced(run) <==> ReachesExchange(destination, snapshot, env) && !UndoesExchange(destination, snapshot, env))
      && Displaced(run.world, Ours(snapshot, env)) == ExchangeDisplaces(destination, snapshot, env)
  {
    if Measures(snapshot, env) {
      var ours := Ours(snapshot, env);
      var w, run := MeasuredRun(destination, snapshot, env);
      FirstPublicationDisplacesNothing(w, ours, env);
      assert w == Drifted(Initial(destination).(stage := Some(ours)), env.driftBeforeMeasure);
      if w.destination.Some? { ReplacementReplaces(w, w.destination.value, ours, env); }
      if ReachesExchange(destination, snapshot, env) {
        ExchangeReplaces(Ready(destination, snapshot, env), w.destination.value, ours, env);
      }
    } else {
      EarlyExitIsTrue(destination, snapshot, env);
    }
  }

  ghost function ExchangeDisplaces(destination: Option<Dir>, snapshot: map<string, string>, env: Environment): Option<Dir> {
    if !ReachesExchange(destination, snapshot, env) then None
    else
      var measured := Drifted(Initial(destination), env.driftBeforeMeasure).destination.value;
      Displaced(Exchange(Ready(destination, snapshot, env), measured, env).0, Ours(snapshot, env))
  }

  /** The exchange is only reached past a valid marker; success and commit are only reported of the measured tree. */
  lemma RunSeesMarker(destination: Option<Dir>, snapshot: map<string, string>, env: Environment)
    requires ReachesExchange(destination, snapshot, env)
    ensures var run := Publication(destination, snapshot, env);
      && run.markerSeenOn.Some? && Managed(run.markerSeenOn.value)
      && (run.world.installed && (run.report == Published || run.report == Failed(Committed)) ==>
            run.world.others == Drifted(Initial(destination), env.driftBeforeMeasure).destination)
  {
    var ours := Ours(snapshot, env);
    var w, run := MeasuredRun(destination, snapshot, env);
    assert w == Drifted(Initial(destination).(stage := Some(ours)), env.driftBeforeMeasure);
    ReplacementReplaces(w, w.destination.value, ours, env);
  }

  /** A tree is displaced only after a valid marker was seen, and if the report says success or commit it is the measured one. */
  lemma ReplacedOnlyAfterMarker(destination: Option<Dir>, snapshot: map<string, string>, env: Environment)
    requires Displaced(Publication(destination, snapshot, env).world, Ours(snapshot, env)).Some?
    ensures var run := Publication(destination, snapshot, env);
      && run.markerSeenOn.Some? && ".aros-board-deploy" in run.markerSeenOn.value.entries
      && run.markerSeenOn.value.entries[".aros-board-deploy"] == "AROS board deployment directory\n"
      && (run.report == Published || run.report == Failed(Committed) ==>
            Replaced(run) && run.world.others == Drifted(Initial(destination), env.driftBeforeMeasure).destination)
  {
    RunDisplaces(destination, snapshot, env);
    RunSeesMarker(destination, snapshot, env);
    ReportIsTrueExactly(destination, snapshot, env);
  }

  /** An unmanaged tree is displaced exactly in one of the two races; without a drift it never is. */
  lemma UnmanagedDisplacedExactly(destination: Option<Dir>, snapshot: map<string, string>, env: Environment)
    ensures var displaced := Displaced(Publication(destination, snapshot, env).world, Ours(snapshot, env));
      displaced.Some? && !Managed(displaced.value) <==>
        MarkerRace(destination, snapshot, env) || UndoRace(destination, snapshot, env)
    ensures MarkerRace(destination, snapshot, env) ==> env.driftBeforeExchange.Becomes? || env.driftAtExchange.Becomes?
    ensures UndoRace(destination, snapshot, env) ==> env.driftBeforeUndo.Becomes?
  {
    RunDisplaces(destination, snapshot, env);
    if ReachesExchange(destination, snapshot, env) {
      var ours := Ours(snapshot, env);
      var ready := Ready(destination, snapshot, env);
      var measured := Drifted(Initial(destination), env.driftBeforeMeasure).destination.value;
      ExchangeReplaces(ready, measured, ours, env);
    }
  }

  /** The second race as a run: an edit after the exchange, then a foreign tree just before it is taken back. */
  lemma UndoRaceDisplacesForeignTree(old_: Dir, foreign: Dir, snapshot: map<string, string>, id: nat, edit: map<string, string>)
    requires Managed(old_) && !Managed(foreign) && MARKER !in snapshot && edit != Expected(snapshot)
    requires id != old_.id && id != foreign.id && old_.id != foreign.id
    ensures
      var env := QUIET.(stageId := id, driftAfterExchange := Becomes(Some(Dir(id, edit))), driftBeforeUndo := Becomes(Some(foreign)));
      var run := Publication(Some(old_), snapshot, env);
      && UndoRace(Some(old_), snapshot, env) && run.report == Failed(Indeterminate)
      && run.world.stage == Some(foreign) && run.world.destination == Some(old_) && !Replaced(run)
  {
    var env := QUIET.(stageId := id, driftAfterExchange := Becomes(Some(Dir(id, edit))), driftBeforeUndo := Becomes(Some(foreign)));
    var w, run := MeasuredRun(Some(old_), snapshot, env);
    ReplacementReplaces(w, old_, Ours(snapshot, env), env);
  }

  /** A marker that appears only while it is looked at lets a foreign tree be replaced and removed. */
  lemma MarkerRaceReplacesForeignTree(foreign: Dir, snapshot: map<string, string>, id: nat)
    requires !Managed(foreign) && MARKER !in snapshot && id != foreign.id
    ensures
      var marked := foreign.(entries := foreign.entries[MARKER := MARKER_CONTENT]);
      var env := QUIET.(stageId := id, driftBeforeMarker := Becomes(Some(marked)), driftBeforeExchange := Becomes(Some(foreign)));
      var run := Publication(Some(foreign), snapshot, env);
      && MarkerRace(Some(foreign), snapshot, env) && run.report == Published
      && Replaced(run) && run.world.others == Some(foreign) && run.world.removed == [foreign]
  {
    var marked := foreign.(entries := foreign.entries[MARKER := MARKER_CONTENT]);
    var env := QUIET.(stageId := id, driftBeforeMarker := Becomes(Some(marked)), driftBeforeExchange := Becomes(Some(foreign)));
    var w, run := MeasuredRun(Some(foreign), snapshot, env);
    assert Managed(marked);
    ReplacementReplaces(w, foreign, Ours(snapshot, env), env);
  }

  // ----- the program -----

  class Site {
    var world: World
    ghost var markerSeenOn: Option<Dir>

    constructor (destination: Option<Dir>)
      ensures world == Initial(destination) && markerSeenOn.None?
    {
      world, markerSeenOn := Initial(destination), None;
    }

    /** Whatever other processes do to the destination. */
    method Suffer(d: Drift)
      modifies this`world
      ensures world == Drifted(old(world), d)
    {
      world := Drifted(world, d);
    }

    /** The no-clobber rename: an error that allows clean-up leaves everything as it was, unless the probe hid the rename. */
    method PublishNoClobber(env: Environment) returns (error: Option<Error>)
      requires world.stage.Some? && Waiting(world, world.stage.value)
      modifies this`world
      ensures (world, error) == NoClobber(old(world), env)
      ensures world.removed == [] && (world.installed ==> world.others.None? && world.stage.None?)
      ensures error.None? ==> Deployed(world, old(world.stage.value))
      ensures error.Some? && !MustRetainStage(error.value) && !env.noClobber.IdentityProbe? ==> world == old(world)
    {
      NoClobberOutcome(world, world.stage.value, env);
      var (after, e) := NoClobber(world, env);
      world, error := after, e;
    }

    /** The exchange: success, a plain error with the original namespace, or an uncertain one with nothing removed. */
    method ExchangeIfUnchanged(measured: Dir, env: Environment) returns (error: Option<Error>)
      requires world.stage.Some? && Waiting(world, world.stage.value)
      modifies this`world
      ensures (world, error) == Exchange(old(world), measured, env)
      ensures world.removed == []
      ensures error.None? ==> Deployed(world, old(world.stage.value)) && world.stage == world.others == Some(measured)
      ensures error.Some? && !MustRetainStage(error.value) ==> !world.installed && world.destination == world.others
    {
      ExchangeOutcome(world, measured, world.stage.value, env);
      var (after, e) := Exchange(world, measured, env);
      world, error := after, e;
    }

    /** `stage_and_publish`: the report, and whether `publish` has to remove the stage. */
    method StageAndPublish(snapshot: map<string, string>, env: Environment) returns (r: Report, cleanup: bool)
      requires world.stage.Some? && Waiting(world, world.stage.value) && markerSeenOn.None?
      modifies this
      ensures Run(world, r, cleanup, markerSeenOn) == StagePublication(old(world), snapshot, env)
    {
      var id := world.stage.value.id;
      if !env.copies { return Failed(RolledBack), true; }
      world := world.(stage := Some(Dir(id, snapshot)));
      if !env.marks || MARKER in snapshot { return Failed(RolledBack), true; }
      world := world.(stage := Some(Dir(id, snapshot[MARKER := MARKER_CONTENT])));
      Suffer(env.driftBeforeMeasure);
      if !env.measures { return Failed(RolledBack), true; }
      var measured := world.destination;
      if measured.None? {
        Suffer(env.driftBeforeRename);
        var error := PublishNoClobber(env);
        if error.None? { return Published, false; }
        if MustRetainStage(error.value) { return Failed(Indeterminate), false; }
        return Failed(RolledBack), true;
      }
      Suffer(env.driftBeforeMarker);
      if !env.markerReadable || world.destination.None? || !Managed(world.destination.value) { return Failed(RolledBack), true; }
      markerSeenOn := world.destination;
      Suffer(env.driftBeforeExchange);
      var error := ExchangeIfUnchanged(measured.value, env);
      if error.Some? {
        if MustRetainStage(error.value) { return Failed(Indeterminate), false; }
        return Failed(RolledBack), true;
      }
      if !env.removesPrevious { return Failed(Committed), false; }
      world := Removed(world);
      return Published, false;
    }

    /** `publish`: create the stage, run, and clean up when the failure asks for it. */
    method Publish(snapshot: map<string, string>, env: Environment) returns (r: Report)
      requires world == Initial(world.destination) && markerSeenOn.None?
      modifies this
      ensures Run(world, r, Publication(old(world.destination), snapshot, env).cleanup, markerSeenOn)
           == Publication(old(world.destination), snapshot, env)
      ensures !(MARKER !in snapshot && ProbeFailedAfterRename(old(world.destination), env)) <==>
        Truthful(Run(world, r, false, markerSeenOn), Ours(snapshot, env))
      ensures r == Published <==>
        || PublishesFirst(old(world.destination), snapshot, env)
        || (PublishesReplacing(old(world.destination), snapshot, env) && env.removesPrevious)
      ensures r == Failed(Committed) <==> PublishesReplacing(old(world.destination), snapshot, env) && !env.removesPrevious
      ensures var displaced := Displaced(world, Ours(snapshot, env));
        displaced.Some? && !Managed(displaced.value) <==>
          MarkerRace(old(world.destination), snapshot, env) || UndoRace(old(world.destination), snapshot, env)
    {
      ReportIsTrueExactly(world.destination, snapshot, env);
      PublishedExactly(world.destination, snapshot, env);
      UnmanagedDisplacedExactly(world.destination, snapshot, env);
      if !env.createsStage { return Failed(RolledBack); }
      world := world.(stage := Some(Dir(env.stageId, map[])));
      var cleanup;
      r, cleanup := StageAndPublish(snapshot, env);
      if cleanup && env.cleansUp { world := Removed(world); }
    }
  }
}
