/**
 * Release admission, recheck and start as jobs over one remote repository: any number of jobs,
 * any interleaving of their API calls, main moving, runs finishing or being run again and foreign
 * tags appearing in between. Tag refs are created once and never updated or deleted. A run and its
 * jobs are read by two calls, and the second one does not name the attempt.
 */
module ReleaseAutomation {
  import opened Wrappers

  datatype Workflow = Ci | CodeQl

  datatype RunId = RunId(id: nat, attempt: nat)

  /** A run attempt on a commit that ended in success, and one with every required job successful; such facts stay true. */
  datatype Fact =
    | RunSucceeded(workflow: Workflow, commit: nat, run: RunId)
    | JobsSucceeded(workflow: Workflow, commit: nat, run: RunId)

  datatype Receipt = Receipt(ruleset: nat, policy: nat, checkedAt: int)

  datatype Candidate = Candidate(
    commit: nat, version: string, pull: nat, ci: RunId, codeQl: RunId, governance: Option<Receipt>)

  datatype Creator = Foreign | ByJob(job: nat)

  datatype Tag = Tag(commit: nat, object_: nat, creator: Creator, ci: RunId, codeQl: RunId)

  datatype Dispatch = Dispatch(job: nat, version: string)

  /** What a job was started for; `saved` is the output of an earlier job. */
  datatype Mode = Admit | Recheck(saved: Candidate) | Start(saved: Candidate, draft: nat)

  datatype Progress =
    | AtMain
    | AtPolicy
    | AtPulls(governance: Receipt)
    | AtCi(governance: Receipt, pull: nat)
    | AtCiJobs(governance: Receipt, pull: nat, ci: RunId)
    | AtCodeQl(governance: Receipt, pull: nat, ci: RunId)
    | AtCodeQlJobs(governance: Receipt, pull: nat, ci: RunId, codeQl: RunId)
    | AtTag(governance: Receipt, pull: nat, ci: RunId, codeQl: RunId)
    | AtReleases(governance: Receipt, pull: nat, ci: RunId, codeQl: RunId)
    | Passed(candidate: Candidate)
    | DraftChecked(candidate: Candidate)
    | Normalised(candidate: Candidate)
    | Annotated(candidate: Candidate, object_: nat)
    | RefCreated(candidate: Candidate, object_: nat)
    | RefVerified(candidate: Candidate, object_: nat)
    | Dispatched(candidate: Candidate)
    | Stopped

  /** `policyAt` is the time at which the tag policy, and a presented receipt, was checked. */
  datatype Job = Job(mode: Mode, head: nat, version: string, progress: Progress, policyAt: int)

  /** `attempts` counts how often a run has been started; a run that is not listed has one attempt. */
  datatype World = World(
    now: int, main: nat, everMain: set<nat>, facts: set<Fact>, attempts: map<nat, nat>,
    tags: map<string, Tag>, dispatches: seq<Dispatch>, jobs: seq<Job>)

  /** One answer of the remote side; `lost` means the effect happened but the response did not arrive. */
  datatype Answer = Answer(ok: bool, number: nat, run: RunId, object_: nat, ruleset: nat, policy: nat, lost: bool)

  datatype Step =
    | Tick(seconds: nat)
    | MoveMain(commit: nat)
    | Finish(fact: Fact)
    | Rerun(run: nat)
    | SpawnAdmit(head: nat, version: string)
    | SpawnRecheck(from: nat, head: nat, version: string)
    | SpawnStart(from: nat, head: nat, version: string, draft: nat)
    | ForeignTag(version: string, commit: nat)
    | Advance(job: nat, answer: Answer)

  /** The current attempt of a run. */
  function Attempt(w: World, run: nat): nat {
    if run in w.attempts then w.attempts[run] else 1
  }

  function SavedReceipt(mode: Mode): Option<Receipt> {
    match mode case Admit => None case Recheck(saved) => saved.governance case Start(saved, _) => saved.governance
  }

  /** The receipt window of `tag_policy`. */
  predicate ReceiptCurrent(r: Receipt, now: int) { -60 <= now - r.checkedAt <= 900 }

  /** `tag_policy`: a presented receipt must be current and match, otherwise a new one is written. */
  function Governance(mode: Mode, a: Answer, now: int): Option<Receipt> {
    var saved := SavedReceipt(mode);
    if !a.ok then None
    else if saved.None? then Some(Receipt(a.ruleset, a.policy, now))
    else if ReceiptCurrent(saved.value, now) && saved.value.ruleset == a.ruleset && saved.value.policy == a.policy then saved
    else None
  }

  /** The comparison after admission: recheck and start demand exactly the saved candidate. */
  predicate Agrees(mode: Mode, c: Candidate) {
    match mode case Admit => true case Recheck(saved) => saved == c case Start(saved, _) => saved == c
  }

  /** Reading a run gives its current attempt with that attempt's conclusion. */
  predicate RunRead(w: World, workflow: Workflow, commit: nat, run: RunId) {
    run.attempt == Attempt(w, run.id) && RunSucceeded(workflow, commit, run) in w.facts
  }

  /** Reading the jobs of a run gives those of its attempt at that time, whichever it is. */
  predicate JobsRead(w: World, workflow: Workflow, commit: nat, id: nat) {
    JobsSucceeded(workflow, commit, RunId(id, Attempt(w, id))) in w.facts
  }

  /** The next point of a job, as far as it depends on reads only. */
  function ReadStep(w: World, job: Job, a: Answer): Progress {
    match job.progress
    case AtMain => if a.ok && w.main == job.head then AtPolicy else Stopped
    case AtPolicy =>
      var g := Governance(job.mode, a, w.now);
      if g.None? then Stopped else AtPulls(g.value)
    case AtPulls(g) => if a.ok then AtCi(g, a.number) else Stopped
    case AtCi(g, pull) => if a.ok && RunRead(w, Ci, job.head, a.run) then AtCiJobs(g, pull, a.run) else Stopped
    case AtCiJobs(g, pull, ci) => if a.ok && JobsRead(w, Ci, job.head, ci.id) then AtCodeQl(g, pull, ci) else Stopped
    case AtCodeQl(g, pull, ci) =>
      if a.ok && RunRead(w, CodeQl, job.head, a.run) then AtCodeQlJobs(g, pull, ci, a.run) else Stopped
    case AtCodeQlJobs(g, pull, ci, codeQl) =>
      if a.ok && JobsRead(w, CodeQl, job.head, codeQl.id) then AtTag(g, pull, ci, codeQl) else Stopped
    case AtTag(g, pull, ci, codeQl) =>
      if a.ok && job.version !in w.tags then AtReleases(g, pull, ci, codeQl) else Stopped
    case AtReleases(g, pull, ci, codeQl) =>
      var c := Candidate(job.head, job.version, pull, ci, codeQl, Some(g));
      if a.ok && Agrees(job.mode, c) then Passed(c) else Stopped
    case Passed(c) => if job.mode.Start? then (if a.ok then DraftChecked(c) else Stopped) else job.progress
    case DraftChecked(c) => if a.ok then Normalised(c) else Stopped
    case Normalised(c) => if a.ok then Annotated(c, a.object_) else Stopped
    case RefCreated(c, object_) =>
      if a.ok && job.version in w.tags && w.tags[job.version].object_ == object_ then RefVerified(c, object_) else Stopped
    case _ => job.progress
  }

  function WithProgress(w: World, j: nat, p: Progress): World
    requires j < |w.jobs|
  {
    w.(jobs := w.jobs[j := w.jobs[j].(progress := p)])
  }

  predicate Enabled(w: World, s: Step) {
    match s
    case ForeignTag(version, _) => version !in w.tags
    case Advance(j, _) => j < |w.jobs|
    case SpawnRecheck(j, _, _) => j < |w.jobs| && w.jobs[j].mode.Admit? && w.jobs[j].progress.Passed?
    case SpawnStart(j, _, _, _) => j < |w.jobs| && w.jobs[j].mode.Recheck? && w.jobs[j].progress.Passed?
    case _ => true
  }

  function Spawned(w: World, mode: Mode, head: nat, version: string): World {
    w.(jobs := w.jobs + [Job(mode, head, version, AtMain, 0)])
  }

  function Next(w: World, s: Step): World
    requires Enabled(w, s)
  {
    match s
    case Tick(seconds) => w.(now := w.now + seconds)
    case MoveMain(commit) => w.(main := commit, everMain := w.everMain + {commit})
    case Finish(fact) => w.(facts := w.facts + {fact})
    case Rerun(run) => w.(attempts := w.attempts[run := Attempt(w, run) + 1])
    case SpawnAdmit(head, version) => Spawned(w, Admit, head, version)
    case SpawnRecheck(j, head, version) => Spawned(w, Recheck(w.jobs[j].progress.candidate), head, version)
    case SpawnStart(j, head, version, draft) => Spawned(w, Start(w.jobs[j].progress.candidate, draft), head, version)
    case ForeignTag(version, commit) => w.(tags := w.tags[version := Tag(commit, 0, Foreign, RunId(0, 0), RunId(0, 0))])
    case Advance(j, a) => Advanced(w, j, a)
  }

  /** One API call of a job; all but two only read. */
  function Advanced(w: World, j: nat, a: Answer): World
    requires j < |w.jobs|
  {
    var job := w.jobs[j];
    match job.progress
    case Annotated(c, object_) =>
      // Creating the ref: refused when it exists, otherwise done, even if the response is lost.
      if !a.ok || job.version in w.tags then WithProgress(w, j, Stopped)
      else
        WithProgress(w, j, if a.lost then Stopped else RefCreated(c, object_)).(
          tags := w.tags[job.version := Tag(job.head, object_, ByJob(j), c.ci, c.codeQl)])
    case RefVerified(c, _) =>
      if !a.ok then WithProgress(w, j, Stopped)
      else
        WithProgress(w, j, if a.lost then Stopped else Dispatched(c)).(
          dispatches := w.dispatches + [Dispatch(j, job.version)])
    case AtPolicy =>
      w.(jobs := w.jobs[j := job.(progress := ReadStep(w, job, a), policyAt := w.now)])
    case _ => WithProgress(w, j, ReadStep(w, job, a))
  }

  // ----- what every step keeps -----

  /** This very attempt ended in success with every required job. */
  ghost predicate Complete(w: World, workflow: Workflow, commit: nat, run: RunId) {
    RunSucceeded(workflow, commit, run) in w.facts && JobsSucceeded(workflow, commit, run) in w.facts
  }

  /** What the two reads of one job show: the attempt succeeded, and it or a later one had all required jobs. */
  ghost predicate Covered(w: World, workflow: Workflow, commit: nat, run: RunId) {
    && RunSucceeded(workflow, commit, run) in w.facts
    && exists k: nat :: run.attempt <= k <= Attempt(w, run.id) && JobsSucceeded(workflow, commit, RunId(run.id, k)) in w.facts
  }

  /** A later read that finds the same attempt still current closes the gap. */
  lemma CoveredIsComplete(w: World, workflow: Workflow, commit: nat, run: RunId)
    requires Covered(w, workflow, commit, run) && RunRead(w, workflow, commit, run)
    ensures Complete(w, workflow, commit, run)
  {
  }

  /** Commit and both runs are real: once main, and both attempts complete. */
  ghost predicate Qualified(w: World, commit: nat, ci: RunId, codeQl: RunId) {
    commit in w.everMain && Complete(w, Ci, commit, ci) && Complete(w, CodeQl, commit, codeQl)
  }

  /** What an admission knows of its candidate. */
  ghost predicate Admissible(w: World, c: Candidate) {
    c.commit in w.everMain && Covered(w, Ci, c.commit, c.ci) && Covered(w, CodeQl, c.commit, c.codeQl)
  }

  /** In a recheck or start job a run that equals the saved one is complete. */
  ghost predicate Confirmed(w: World, job: Job, workflow: Workflow, run: RunId) {
    !job.mode.Admit? && job.mode.saved.commit == job.head
      && run == (match workflow case Ci => job.mode.saved.ci case CodeQl => job.mode.saved.codeQl)
    ==> Complete(w, workflow, job.head, run)
  }

  /** The run just read, and the run whose jobs have been read as well. */
  ghost predicate Read(w: World, job: Job, workflow: Workflow, run: RunId) {
    && RunSucceeded(workflow, job.head, run) in w.facts && run.attempt <= Attempt(w, run.id)
    && Confirmed(w, job, workflow, run)
  }

  ghost predicate Checked(w: World, job: Job, workflow: Workflow, run: RunId) {
    Covered(w, workflow, job.head, run) && Confirmed(w, job, workflow, run)
  }

  /** The receipt in use was written or accepted at `policyAt`, not more than 900 seconds old then. */
  ghost predicate ReceiptUsed(job: Job, g: Receipt) {
    && ReceiptCurrent(g, job.policyAt)
    && (SavedReceipt(job.mode).Some? ==> SavedReceipt(job.mode).value == g)
  }

  ghost predicate GoodCandidate(w: World, job: Job, c: Candidate) {
    && c.commit == job.head && c.version == job.version && Agrees(job.mode, c)
    && Admissible(w, c) && (!job.mode.Admit? ==> Qualified(w, c.commit, c.ci, c.codeQl))
    && c.governance.Some? && ReceiptUsed(job, c.governance.value)
  }

  /** The admitted candidate, from the pass point on. */
  function CandidateOf(p: Progress): Option<Candidate> {
    match p
    case Passed(c) => Some(c)
    case DraftChecked(c) => Some(c)
    case Normalised(c) => Some(c)
    case Annotated(c, _) => Some(c)
    case RefCreated(c, _) => Some(c)
    case RefVerified(c, _) => Some(c)
    case Dispatched(c) => Some(c)
    case _ => None
  }

  ghost predicate Owns(w: World, j: nat, job: Job) {
    job.version in w.tags && w.tags[job.version].creator == ByJob(j)
  }

  ghost predicate JobOk(w: World, j: nat, job: Job) {
    (!job.mode.Admit? ==> Admissible(w, job.mode.saved)) && ProgressOk(w, j, job)
  }

  ghost predicate ProgressOk(w: World, j: nat, job: Job) {
    match job.progress
    case AtMain => true
    case Stopped => true
    case AtPolicy => job.head in w.everMain
    case AtPulls(g) => job.head in w.everMain && ReceiptUsed(job, g)
    case AtCi(g, _) => job.head in w.everMain && ReceiptUsed(job, g)
    case AtCiJobs(g, _, ci) => job.head in w.everMain && ReceiptUsed(job, g) && Read(w, job, Ci, ci)
    case AtCodeQl(g, _, ci) => job.head in w.everMain && ReceiptUsed(job, g) && Checked(w, job, Ci, ci)
    case AtCodeQlJobs(g, _, ci, codeQl) =>
      job.head in w.everMain && ReceiptUsed(job, g) && Checked(w, job, Ci, ci) && Read(w, job, CodeQl, codeQl)
    case AtTag(g, _, ci, codeQl) =>
      job.head in w.everMain && ReceiptUsed(job, g) && Checked(w, job, Ci, ci) && Checked(w, job, CodeQl, codeQl)
    case AtReleases(g, _, ci, codeQl) =>
      job.head in w.everMain && ReceiptUsed(job, g) && Checked(w, job, Ci, ci) && Checked(w, job, CodeQl, codeQl)
    case Passed(c) => GoodCandidate(w, job, c)
    case DraftChecked(c) => GoodCandidate(w, job, c) && job.mode.Start?
    case Normalised(c) => GoodCandidate(w, job, c) && job.mode.Start?
    case Annotated(c, _) => GoodCandidate(w, job, c) && job.mode.Start?
    case RefCreated(c, _) => GoodCandidate(w, job, c) && job.mode.Start? && Owns(w, j, job)
    case RefVerified(c, _) => GoodCandidate(w, job, c) && job.mode.Start? && Owns(w, j, job)
    case Dispatched(c) => GoodCandidate(w, job, c) && job.mode.Start? && Owns(w, j, job)
  }

  ghost predicate TagOk(w: World, version: string, t: Tag) {
    t.creator.ByJob? ==>
      && Qualified(w, t.commit, t.ci, t.codeQl)
      && t.creator.job < |w.jobs| && w.jobs[t.creator.job].version == version && w.jobs[t.creator.job].head == t.commit
      && w.jobs[t.creator.job].mode.Start?
  }

  ghost predicate DispatchOk(w: World, d: Dispatch) {
    && d.version in w.tags && w.tags[d.version].creator == ByJob(d.job)
    && d.job < |w.jobs| && (w.jobs[d.job].progress.Dispatched? || w.jobs[d.job].progress.Stopped?)
    && CurrentlyGoverned(w.jobs[d.job])
  }

  /** A start job whose saved candidate carries a receipt that was at most 900 seconds old at its policy check. */
  ghost predicate CurrentlyGoverned(job: Job) {
    job.mode.Start? && job.mode.saved.governance.Some? && ReceiptCurrent(job.mode.saved.governance.value, job.policyAt)
  }

  ghost predicate Invariant(w: World) {
    && w.main in w.everMain
    && (forall j :: 0 <= j < |w.jobs| ==> JobOk(w, j, w.jobs[j]))
    && (forall v :: v in w.tags ==> TagOk(w, v, w.tags[v]))
    && (forall i :: 0 <= i < |w.dispatches| ==> DispatchOk(w, w.dispatches[i]))
    && (forall i, k :: 0 <= i < k < |w.dispatches| ==> w.dispatches[i].job != w.dispatches[k].job)
  }

  /** Facts, attempts, past main commits, tags and jobs are only ever added to. */
  ghost predicate Grows(w: World, w': World) {
    && w.everMain <= w'.everMain && w.facts <= w'.facts && (forall r :: Attempt(w, r) <= Attempt(w', r))
    && (forall v :: v in w.tags ==> v in w'.tags && w'.tags[v] == w.tags[v])
    && |w.jobs| <= |w'.jobs|
    && forall j :: 0 <= j < |w.jobs| ==>
         && w'.jobs[j].version == w.jobs[j].version && w'.jobs[j].head == w.jobs[j].head
         && w'.jobs[j].mode == w.jobs[j].mode
  }

  lemma JobGrows(w: World, j: nat, job: Job)
    requires j < |w.jobs| && job.version == w.jobs[j].version && job.head == w.jobs[j].head && job.mode == w.jobs[j].mode
    ensures Grows(w, w.(jobs := w.jobs[j := job]))
  {
  }

  lemma TagGrows(w: World, w': World, version: string, t: Tag)
    requires Grows(w, w') && w'.tags == w.tags && version !in w.tags
    ensures Grows(w, w'.(tags := w.tags[version := t]))
  {
  }

  lemma DispatchGrows(w: World, w': World, d: Dispatch)
    requires Grows(w, w')
    ensures Grows(w, w'.(dispatches := w.dispatches + [d]))
  {
  }

  lemma AdvanceGrows(w: World, j: nat, a: Answer)
    requires j < |w.jobs|
    ensures Grows(w, Advanced(w, j, a)) && |Advanced(w, j, a).jobs| == |w.jobs|
  {
    var next := Advanced(w, j, a);
    JobGrows(w, j, next.jobs[j]);
    var moved := w.(jobs := w.jobs[j := next.jobs[j]]);
    if w.jobs[j].progress.Annotated? && w.jobs[j].version !in w.tags && a.ok {
      TagGrows(w, moved, w.jobs[j].version, next.tags[w.jobs[j].version]);
    } else if w.jobs[j].progress.RefVerified? && a.ok {
      DispatchGrows(w, moved, Dispatch(j, w.jobs[j].version));
    } else {
      assert next == moved;
    }
  }

  lemma StepGrows(w: World, s: Step)
    requires Enabled(w, s)
    ensures Grows(w, Next(w, s))
  {
    if s.Advance? { AdvanceGrows(w, s.job, s.answer); }
  }

  lemma CoveredStays(w: World, w': World, workflow: Workflow, commit: nat, run: RunId)
    requires Grows(w, w') && Covered(w, workflow, commit, run)
    ensures Covered(w', workflow, commit, run)
  {
    var k: nat :| run.attempt <= k <= Attempt(w, run.id) && JobsSucceeded(workflow, commit, RunId(run.id, k)) in w.facts;
    assert JobsSucceeded(workflow, commit, RunId(run.id, k)) in w'.facts && Attempt(w, run.id) <= Attempt(w', run.id);
  }

  lemma AdmissibleStays(w: World, w': World, c: Candidate)
    requires Grows(w, w') && Admissible(w, c)
    ensures Admissible(w', c)
  {
    CoveredStays(w, w', Ci, c.commit, c.ci);
    CoveredStays(w, w', CodeQl, c.commit, c.codeQl);
  }

  lemma JobStays(w: World, w': World, j: nat, job: Job)
    requires Grows(w, w') && JobOk(w, j, job)
    ensures JobOk(w', j, job)
  {
    if !job.mode.Admit? { AdmissibleStays(w, w', job.mode.saved); }
    ProgressStays(w, w', j, job);
  }

  lemma ProgressStays(w: World, w': World, j: nat, job: Job)
    requires Grows(w, w') && ProgressOk(w, j, job)
    ensures ProgressOk(w', j, job)
  {
    var c := CandidateOf(job.progress);
    if c.Some? { AdmissibleStays(w, w', c.value); }
    match job.progress
    case AtCodeQl(_, _, ci) => CoveredStays(w, w', Ci, job.head, ci);
    case AtCodeQlJobs(_, _, ci, _) => CoveredStays(w, w', Ci, job.head, ci);
    case AtTag(_, _, ci, codeQl) =>
      CoveredStays(w, w', Ci, job.head, ci);
      CoveredStays(w, w', CodeQl, job.head, codeQl);
    case AtReleases(_, _, ci, codeQl) =>
      CoveredStays(w, w', Ci, job.head, ci);
      CoveredStays(w, w', CodeQl, job.head, codeQl);
    case _ =>
  }

  lemma TagStays(w: World, w': World, v: string)
    requires Grows(w, w') && v in w.tags && TagOk(w, v, w.tags[v])
    ensures TagOk(w', v, w'.tags[v])
  {
  }

  /** Reading a run: a saved run that is still current is complete by now. */
  lemma RunReadIsRead(w: World, job: Job, workflow: Workflow, run: RunId)
    requires !job.mode.Admit? ==> Admissible(w, job.mode.saved)
    requires RunRead(w, workflow, job.head, run)
    ensures Read(w, job, workflow, run)
  {
    if !job.mode.Admit? && job.mode.saved.commit == job.head
       && run == (match workflow case Ci => job.mode.saved.ci case CodeQl => job.mode.saved.codeQl)
    {
      CoveredIsComplete(w, workflow, job.head, run);
    }
  }

  /** Reading the jobs afterwards shows those of the current attempt, which is the same or a later one. */
  lemma JobsReadIsChecked(w: World, job: Job, workflow: Workflow, run: RunId)
    requires Read(w, job, workflow, run) && JobsRead(w, workflow, job.head, run.id)
    ensures Checked(w, job, workflow, run)
  {
  }

  /** The job after a read. */
  function NextJob(w: World, job: Job, a: Answer): Job {
    job.(progress := ReadStep(w, job, a), policyAt := if job.progress.AtPolicy? then w.now else job.policyAt)
  }

  lemma EarlyReadOk(w: World, j: nat, job: Job, a: Answer)
    requires w.main in w.everMain && ProgressOk(w, j, job)
    requires job.progress.AtMain? || job.progress.AtPolicy? || job.progress.AtPulls?
    ensures ProgressOk(w, j, NextJob(w, job, a))
  {
    var g := Governance(job.mode, a, w.now);
    assert g.Some? ==> ReceiptCurrent(g.value, w.now);
  }

  lemma RunReadOk(w: World, j: nat, job: Job, a: Answer)
    requires JobOk(w, j, job) && (job.progress.AtCi? || job.progress.AtCodeQl?)
    ensures ProgressOk(w, j, NextJob(w, job, a))
  {
    var workflow := if job.progress.AtCi? then Ci else CodeQl;
    if RunRead(w, workflow, job.head, a.run) { RunReadIsRead(w, job, workflow, a.run); }
  }

  lemma JobsReadOk(w: World, j: nat, job: Job, a: Answer)
    requires JobOk(w, j, job) && (job.progress.AtCiJobs? || job.progress.AtCodeQlJobs?)
    ensures ProgressOk(w, j, NextJob(w, job, a))
  {
    var workflow := if job.progress.AtCiJobs? then Ci else CodeQl;
    var run := if job.progress.AtCiJobs? then job.progress.ci else job.progress.codeQl;
    if JobsRead(w, workflow, job.head, run.id) { JobsReadIsChecked(w, job, workflow, run); }
  }

  /** Passing: a recheck or start job that agrees with its saved candidate has found both attempts still current. */
  lemma LateReadOk(w: World, j: nat, job: Job, a: Answer)
    requires JobOk(w, j, job) && (job.progress.AtTag? || job.progress.AtReleases?)
    ensures ProgressOk(w, j, NextJob(w, job, a))
  {
  }

  lemma StartReadOk(w: World, j: nat, job: Job, a: Answer)
    requires JobOk(w, j, job) && (CandidateOf(job.progress).Some? || job.progress.Stopped?)
    requires !job.progress.Annotated? && !job.progress.RefVerified?
    ensures ProgressOk(w, j, NextJob(w, job, a))
  {
  }

  lemma ReadStepOk(w: World, j: nat, job: Job, a: Answer)
    requires w.main in w.everMain && JobOk(w, j, job)
    requires !job.progress.Annotated? && !job.progress.RefVerified?
    ensures JobOk(w, j, NextJob(w, job, a))
  {
    var p := job.progress;
    if p.AtMain? || p.AtPolicy? || p.AtPulls? { EarlyReadOk(w, j, job, a); }
    else if p.AtCi? || p.AtCodeQl? { RunReadOk(w, j, job, a); }
    else if p.AtCiJobs? || p.AtCodeQlJobs? { JobsReadOk(w, j, job, a); }
    else if p.AtTag? || p.AtReleases? { LateReadOk(w, j, job, a); }
    else { StartReadOk(w, j, job, a); }
  }

  lemma AdvancedJob(w: World, j: nat, a: Answer)
    requires j < |w.jobs|
    ensures var w' := Next(w, Advance(j, a));
      && (!w.jobs[j].progress.Annotated? && !w.jobs[j].progress.RefVerified? ==> w'.jobs[j] == NextJob(w, w.jobs[j], a))
      && forall k :: 0 <= k < |w.jobs| && k != j ==> w'.jobs[k] == w.jobs[k]
  {
  }

  /** Creating the ref and dispatching: the job keeps its candidate and owns the tag. */
  lemma WriteStepOk(w: World, j: nat, a: Answer)
    requires j < |w.jobs| && JobOk(w, j, w.jobs[j])
    requires w.jobs[j].progress.Annotated? || w.jobs[j].progress.RefVerified?
    ensures var w' := Next(w, Advance(j, a)); JobOk(w', j, w'.jobs[j])
  {
    var w' := Next(w, Advance(j, a));
    StepGrows(w, Advance(j, a));
    JobStays(w, w', j, w.jobs[j]);
  }

  lemma AdvanceKeepsJobs(w: World, j: nat, a: Answer)
    requires Invariant(w) && j < |w.jobs|
    ensures var w' := Next(w, Advance(j, a)); forall k :: 0 <= k < |w'.jobs| ==> JobOk(w', k, w'.jobs[k])
  {
    var w' := Next(w, Advance(j, a));
    StepGrows(w, Advance(j, a));
    AdvancedJob(w, j, a);
    assert |w'.jobs| == |w.jobs|;
    forall k | 0 <= k < |w'.jobs| ensures JobOk(w', k, w'.jobs[k]) {
      assert JobOk(w, k, w.jobs[k]);
      if k != j {
        JobStays(w, w', k, w.jobs[k]);
      } else if w.jobs[j].progress.Annotated? || w.jobs[j].progress.RefVerified? {
        WriteStepOk(w, j, a);
      } else {
        ReadStepOk(w, j, w.jobs[j], a);
        JobStays(w, w', j, w'.jobs[j]);
      }
    }
  }

  lemma DispatchStays(w: World, s: Step, d: Dispatch)
    requires Enabled(w, s) && DispatchOk(w, d)
    ensures DispatchOk(Next(w, s), d)
  {
    StepGrows(w, s);
  }

  lemma StepKeepsTags(w: World, s: Step)
    requires Enabled(w, s) && Invariant(w)
    ensures var w' := Next(w, s); forall v :: v in w'.tags ==> TagOk(w', v, w'.tags[v])
  {
    var w' := Next(w, s);
    StepGrows(w, s);
    forall v | v in w'.tags ensures TagOk(w', v, w'.tags[v]) {
      if v in w.tags {
        TagStays(w, w', v);
      } else if s.Advance? {
        assert JobOk(w, s.job, w.jobs[s.job]);
      }
    }
  }

  lemma StepKeepsDispatches(w: World, s: Step)
    requires Enabled(w, s) && Invariant(w)
    ensures var w' := Next(w, s);
      && (forall i :: 0 <= i < |w'.dispatches| ==> DispatchOk(w', w'.dispatches[i]))
      && (forall i, k :: 0 <= i < k < |w'.dispatches| ==> w'.dispatches[i].job != w'.dispatches[k].job)
  {
    var w' := Next(w, s);
    assert w.dispatches <= w'.dispatches && |w'.dispatches| <= |w.dispatches| + 1;
    forall i | 0 <= i < |w'.dispatches| ensures DispatchOk(w', w'.dispatches[i]) {
      if i < |w.dispatches| {
        DispatchStays(w, s, w.dispatches[i]);
      } else {
        assert JobOk(w, s.job, w.jobs[s.job]);
      }
    }
    forall i, k | 0 <= i < k < |w'.dispatches| ensures w'.dispatches[i].job != w'.dispatches[k].job {
      if k == |w.dispatches| { assert DispatchOk(w, w.dispatches[i]); }
    }
  }

  lemma StepKeepsInvariant(w: World, s: Step)
    requires Enabled(w, s) && Invariant(w)
    ensures Invariant(Next(w, s))
  {
    StepGrows(w, s);
    StepKeepsTags(w, s);
    StepKeepsDispatches(w, s);
    if s.Advance? {
      AdvanceKeepsJobs(w, s.job, s.answer);
    } else {
      OtherStepKeepsJobs(w, s);
    }
  }

  lemma OtherStepKeepsJobs(w: World, s: Step)
    requires Enabled(w, s) && Invariant(w) && !s.Advance?
    ensures var w' := Next(w, s); forall j :: 0 <= j < |w'.jobs| ==> JobOk(w', j, w'.jobs[j])
  {
    var w' := Next(w, s);
    StepGrows(w, s);
    forall j | 0 <= j < |w'.jobs| ensures JobOk(w', j, w'.jobs[j]) {
      if j < |w.jobs| {
        JobStays(w, w', j, w.jobs[j]);
      } else if s.SpawnRecheck? || s.SpawnStart? {
        assert JobOk(w, s.from, w.jobs[s.from]);
        AdmissibleStays(w, w', w.jobs[s.from].progress.candidate);
      }
    }
  }

  // ----- whole runs -----

  ghost predicate IsRun(w: World, steps: seq<Step>)
    decreases |steps|, 0
  {
    steps == [] || (IsRun(w, steps[..|steps| - 1]) && Enabled(After(w, steps[..|steps| - 1]), steps[|steps| - 1]))
  }

  ghost function After(w: World, steps: seq<Step>): World
    requires IsRun(w, steps)
    decreases |steps|, 1
  {
    if steps == [] then w else Next(After(w, steps[..|steps| - 1]), steps[|steps| - 1])
  }

  ghost predicate Initial(w: World) {
    && w.main in w.everMain && w.dispatches == [] && w.jobs == []
    && (forall v :: v in w.tags ==> w.tags[v].creator.Foreign?)
  }

  lemma {:induction false} RunInvariant(w: World, steps: seq<Step>)
    requires Initial(w) && IsRun(w, steps)
    ensures Invariant(After(w, steps))
  {
    if steps != [] {
      RunInvariant(w, steps[..|steps| - 1]);
      StepKeepsInvariant(After(w, steps[..|steps| - 1]), steps[|steps| - 1]);
    }
  }

  /** At most one qualification is ever dispatched per version, by the job that created its tag. */
  lemma AtMostOneDispatch(w: World, steps: seq<Step>, i: nat, k: nat)
    requires Initial(w) && IsRun(w, steps)
    requires var d := After(w, steps).dispatches; i < |d| && k < |d| && d[i].version == d[k].version
    ensures i == k
  {
    RunInvariant(w, steps);
    var now := After(w, steps);
    assert DispatchOk(now, now.dispatches[i]) && DispatchOk(now, now.dispatches[k]);
  }

  /** A dispatched version has a tag on the dispatching job's admitted commit, with both runs successful and a current receipt. */
  lemma DispatchedIsQualified(w: World, steps: seq<Step>, i: nat)
    requires Initial(w) && IsRun(w, steps) && i < |After(w, steps).dispatches|
    ensures var now := After(w, steps);
      var d := now.dispatches[i];
      && d.version in now.tags && d.job < |now.jobs|
      && var t := now.tags[d.version];
      && t.creator == ByJob(d.job) && t.commit == now.jobs[d.job].head && now.jobs[d.job].version == d.version
      && Qualified(now, t.commit, t.ci, t.codeQl) && CurrentlyGoverned(now.jobs[d.job])
  {
    RunInvariant(w, steps);
    var now := After(w, steps);
    assert DispatchOk(now, now.dispatches[i]) && TagOk(now, now.dispatches[i].version, now.tags[now.dispatches[i].version]);
  }

  /** A version keeps its first tag for ever: later steps can neither move nor remove it. */
  lemma {:induction false} TagsArePermanent(w: World, steps: seq<Step>, n: nat, version: string)
    requires IsRun(w, steps) && n <= |steps|
    requires IsRun(w, steps[..n]) && version in After(w, steps[..n]).tags
    ensures version in After(w, steps).tags && After(w, steps).tags[version] == After(w, steps[..n]).tags[version]
  {
    if n == |steps| {
      assert steps[..n] == steps;
    } else {
      assert steps[..|steps| - 1][..n] == steps[..n];
      TagsArePermanent(w, steps[..|steps| - 1], n, version);
      StepGrows(After(w, steps[..|steps| - 1]), steps[|steps| - 1]);
    }
  }

  /** From its pass point to its dispatch a recheck or start job holds its saved candidate, with a current receipt. */
  lemma PassedReceiptIsCurrent(w: World, steps: seq<Step>, j: nat)
    requires Initial(w) && IsRun(w, steps) && j < |After(w, steps).jobs|
    requires CandidateOf(After(w, steps).jobs[j].progress).Some? && !After(w, steps).jobs[j].mode.Admit?
    ensures var job := After(w, steps).jobs[j];
      && Some(job.mode.saved) == CandidateOf(job.progress)
      && job.mode.saved.governance.Some? && job.policyAt - job.mode.saved.governance.value.checkedAt <= 900
  {
    RunInvariant(w, steps);
    assert JobOk(After(w, steps), j, After(w, steps).jobs[j]);
  }

  /** A receipt that is too old when the policy is read stops the job at that very step. */
  lemma StaleReceiptStops(w: World, j: nat, a: Answer)
    requires j < |w.jobs| && w.jobs[j].progress.AtPolicy?
    requires SavedReceipt(w.jobs[j].mode).Some? && w.now - SavedReceipt(w.jobs[j].mode).value.checkedAt > 900
    ensures Next(w, Advance(j, a)).jobs[j].progress.Stopped?
  {
  }

  /** From its pass point on, a recheck or start job stands on two complete attempts, although each job reads runs and jobs apart. */
  lemma RecheckedIsQualified(w: World, steps: seq<Step>, j: nat)
    requires Initial(w) && IsRun(w, steps) && j < |After(w, steps).jobs|
    requires CandidateOf(After(w, steps).jobs[j].progress).Some? && !After(w, steps).jobs[j].mode.Admit?
    ensures var c := CandidateOf(After(w, steps).jobs[j].progress).value;
      c.commit == After(w, steps).jobs[j].head && Qualified(After(w, steps), c.commit, c.ci, c.codeQl)
  {
    RunInvariant(w, steps);
    assert JobOk(After(w, steps), j, After(w, steps).jobs[j]);
  }

  /** An admission alone knows of its runs only that they succeeded and that these or later attempts had all jobs. */
  lemma AdmittedIsCovered(w: World, steps: seq<Step>, j: nat)
    requires Initial(w) && IsRun(w, steps) && j < |After(w, steps).jobs|
    requires CandidateOf(After(w, steps).jobs[j].progress).Some?
    ensures Admissible(After(w, steps), CandidateOf(After(w, steps).jobs[j].progress).value)
  {
    RunInvariant(w, steps);
    assert JobOk(After(w, steps), j, After(w, steps).jobs[j]);
  }

  // ----- exactly when a job passes, and exactly when a start job dispatches -----

  /** The job after reads with the given answers, nothing else happening in between. */
  function RunReads(w: World, job: Job, answers: seq<Answer>): Job
    decreases |answers|
  {
    if answers == [] then job else RunReads(w, NextJob(w, job, answers[0]), answers[1..])
  }

  /** The answers of an admission: main, policy, pull request, CI run and jobs, CodeQL run and jobs, tag, releases. */
  const ADMISSION_READS: nat := 9

  ghost predicate AllOk(answers: seq<Answer>) { forall i :: 0 <= i < |answers| ==> answers[i].ok }

  /** The receipt a job goes on with: its saved one if that is current and matches, otherwise a new one. */
  function ReceiptFor(w: World, job: Job, a: Answer): Receipt {
    if SavedReceipt(job.mode).Some? then SavedReceipt(job.mode).value else Receipt(a.ruleset, a.policy, w.now)
  }

  function CandidateFrom(w: World, job: Job, answers: seq<Answer>): Candidate
    requires |answers| == ADMISSION_READS
  {
    Candidate(job.head, job.version, answers[2].number, answers[3].run, answers[5].run, Some(ReceiptFor(w, job, answers[1])))
  }

  /** Everything an admission, recheck or start has to find. */
  ghost predicate Passes(w: World, job: Job, answers: seq<Answer>)
    requires |answers| == ADMISSION_READS
  {
    && AllOk(answers) && w.main == job.head
    && (SavedReceipt(job.mode).Some? ==>
          var saved := SavedReceipt(job.mode).value;
          && -60 <= w.now - saved.checkedAt <= 900
          && saved.ruleset == answers[1].ruleset && saved.policy == answers[1].policy)
    && answers[3].run.attempt == Attempt(w, answers[3].run.id) && answers[5].run.attempt == Attempt(w, answers[5].run.id)
    && Complete(w, Ci, job.head, answers[3].run) && Complete(w, CodeQl, job.head, answers[5].run)
    && job.version !in w.tags
    && (!job.mode.Admit? ==> job.mode.saved == CandidateFrom(w, job, answers))
  }

  lemma {:induction false} StoppedStays(w: World, job: Job, answers: seq<Answer>)
    requires job.progress.Stopped?
    ensures RunReads(w, job, answers).progress.Stopped?
    decreases |answers|
  {
    if answers != [] { StoppedStays(w, NextJob(w, job, answers[0]), answers[1..]); }
  }

  lemma OneRead(w: World, job: Job, answers: seq<Answer>)
    requires answers != []
    ensures RunReads(w, job, answers) == RunReads(w, NextJob(w, job, answers[0]), answers[1..])
    ensures NextJob(w, job, answers[0]).progress.Stopped? ==> RunReads(w, job, answers).progress.Stopped?
  {
    if NextJob(w, job, answers[0]).progress.Stopped? { StoppedStays(w, NextJob(w, job, answers[0]), answers[1..]); }
  }

  /** From the CI run on: two runs with their jobs, then the tag and the releases. */
  lemma LaterReads(w: World, job: Job, answers: seq<Answer>, g: Receipt, pull: nat)
    requires job.progress == AtCi(g, pull) && |answers| == 6
    ensures var r := RunReads(w, job, answers);
      var c := Candidate(job.head, job.version, pull, answers[0].run, answers[2].run, Some(g));
      if && AllOk(answers) && RunRead(w, Ci, job.head, answers[0].run) && JobsRead(w, Ci, job.head, answers[0].run.id)
         && RunRead(w, CodeQl, job.head, answers[2].run) && JobsRead(w, CodeQl, job.head, answers[2].run.id)
         && job.version !in w.tags && Agrees(job.mode, c)
      then r == job.(progress := Passed(c)) else r.progress.Stopped?
  {
    OneRead(w, job, answers);
    var j1 := NextJob(w, job, answers[0]);
    OneRead(w, j1, answers[1..]);
    var j2 := NextJob(w, j1, answers[1]);
    assert answers[1..][1..] == answers[2..];
    OneRead(w, j2, answers[2..]);
    var j3 := NextJob(w, j2, answers[2]);
    assert answers[2..][1..] == answers[3..];
    if !j3.progress.Stopped? { LastReads(w, j3, answers[3..]); } else { StoppedStays(w, j3, answers[3..]); }
    assert AllOk(answers) <==> answers[0].ok && answers[1].ok && answers[2].ok && AllOk(answers[3..]) by {
      assert forall i :: 0 <= i < 3 ==> answers[3..][i] == answers[i + 3];
    }
  }

  lemma LastReads(w: World, job: Job, answers: seq<Answer>)
    requires job.progress.AtCodeQlJobs? && |answers| == 3
    ensures var r := RunReads(w, job, answers);
      var p := job.progress;
      var c := Candidate(job.head, job.version, p.pull, p.ci, p.codeQl, Some(p.governance));
      if AllOk(answers) && JobsRead(w, CodeQl, job.head, p.codeQl.id) && job.version !in w.tags && Agrees(job.mode, c)
      then r == job.(progress := Passed(c)) else r.progress.Stopped?
  {
    OneRead(w, job, answers);
    var j1 := NextJob(w, job, answers[0]);
    OneRead(w, j1, answers[1..]);
    var j2 := NextJob(w, j1, answers[1]);
    assert answers[1..][1..] == answers[2..];
    OneRead(w, j2, answers[2..]);
    assert answers[2..][1..] == [];
    assert AllOk(answers) <==> answers[0].ok && answers[1].ok && answers[2].ok;
  }

  /** A job passes exactly when it finds everything; a no at any read, or any other mismatch, stops it. */
  lemma PassesExactly(w: World, job: Job, answers: seq<Answer>)
    requires job.progress.AtMain? && |answers| == ADMISSION_READS
    ensures if Passes(w, job, answers)
      then RunReads(w, job, answers) == job.(progress := Passed(CandidateFrom(w, job, answers)), policyAt := w.now)
      else RunReads(w, job, answers).progress.Stopped?
  {
    OneRead(w, job, answers);
    var j1 := NextJob(w, job, answers[0]);
    OneRead(w, j1, answers[1..]);
    var j2 := NextJob(w, j1, answers[1]);
    assert answers[1..][1..] == answers[2..];
    OneRead(w, j2, answers[2..]);
    var j3 := NextJob(w, j2, answers[2]);
    assert answers[2..][1..] == answers[3..];
    if j3.progress.AtCi? { LaterReads(w, j3, answers[3..], j3.progress.governance, j3.progress.pull); }
    else { StoppedStays(w, j3, answers[3..]); }
    assert AllOk(answers) <==> answers[0].ok && answers[1].ok && answers[2].ok && AllOk(answers[3..]) by {
      assert forall i :: 0 <= i < 6 ==> answers[3..][i] == answers[i + 3];
    }
  }

  /** The world after a job has made its calls, nothing else happening in between. */
  function RunJob(w: World, j: nat, answers: seq<Answer>): World
    requires j < |w.jobs|
    decreases |answers|
  {
    if answers == [] then w else RunJob(Advanced(w, j, answers[0]), j, answers[1..])
  }

  /** How far a job has come; the ref is created at point 12 and the dispatch sent at point 14. */
  function Point(p: Progress): nat {
    match p
    case AtMain => 0 case AtPolicy => 1 case AtPulls(_) => 2 case AtCi(_, _) => 3 case AtCiJobs(_, _, _) => 4
    case AtCodeQl(_, _, _) => 5 case AtCodeQlJobs(_, _, _, _) => 6 case AtTag(_, _, _, _) => 7 case AtReleases(_, _, _, _) => 8
    case Passed(_) => 9 case DraftChecked(_) => 10 case Normalised(_) => 11 case Annotated(_, _) => 12
    case RefCreated(_, _) => 13 case RefVerified(_, _) => 14 case Dispatched(_) => 15 case Stopped => 0
  }

  function WithJob(w: World, j: nat, job: Job): World
    requires j < |w.jobs|
  {
    w.(jobs := w.jobs[j := job])
  }

  lemma ReadAct(w: World, j: nat, a: Answer)
    requires j < |w.jobs| && Point(w.jobs[j].progress) < 12
    ensures Advanced(w, j, a) == WithJob(w, j, NextJob(w, w.jobs[j], a))
    ensures Point(NextJob(w, w.jobs[j], a).progress) <= Point(w.jobs[j].progress) + 1
  {
  }

  lemma {:induction false} FrameReads(w: World, j: nat, other: Job, job: Job, answers: seq<Answer>)
    requires j < |w.jobs|
    ensures RunReads(WithJob(w, j, other), job, answers) == RunReads(w, job, answers)
    decreases |answers|
  {
    if answers != [] {
      NextJobFrame(w, j, other, job, answers[0]);
      FrameReads(w, j, other, NextJob(w, job, answers[0]), answers[1..]);
    }
  }

  lemma NextJobFrame(w: World, j: nat, other: Job, job: Job, a: Answer)
    requires j < |w.jobs|
    ensures NextJob(WithJob(w, j, other), job, a) == NextJob(w, job, a)
  {
  }

  /** As long as it only reads, a job changes nothing but itself. */
  lemma {:induction false} ReadsAct(w: World, j: nat, answers: seq<Answer>)
    requires j < |w.jobs| && Point(w.jobs[j].progress) + |answers| <= 12
    ensures RunJob(w, j, answers) == WithJob(w, j, RunReads(w, w.jobs[j], answers))
    decreases |answers|
  {
    if answers == [] {
      assert w.jobs[j := w.jobs[j]] == w.jobs;
    } else {
      ReadAct(w, j, answers[0]);
      var next := NextJob(w, w.jobs[j], answers[0]);
      var w1 := WithJob(w, j, next);
      ReadsAct(w1, j, answers[1..]);
      FrameReads(w, j, next, next, answers[1..]);
      var last := RunReads(w, next, answers[1..]);
      assert w.jobs[j := next][j := last] == w.jobs[j := last];
    }
  }

  lemma {:induction false} RunJobConcat(w: World, j: nat, a: seq<Answer>, b: seq<Answer>)
    requires j < |w.jobs|
    ensures |RunJob(w, j, a).jobs| == |w.jobs| && RunJob(w, j, a + b) == RunJob(RunJob(w, j, a), j, b)
    decreases |a|
  {
    if a == [] {
      assert a + b == b;
    } else {
      assert (a + b)[1..] == a[1..] + b;
      RunJobConcat(Advanced(w, j, a[0]), j, a[1..], b);
    }
  }

  /** The calls of a start job behind its admission: draft, normalise, annotate, create the ref, read it back, dispatch. */
  const START_CALLS: nat := 6

  /** The three calls up to the tag object change nothing outside the job. */
  lemma DraftCalls(w: World, j: nat, answers: seq<Answer>, c: Candidate)
    requires j < |w.jobs| && w.jobs[j].progress == Passed(c) && w.jobs[j].mode.Start? && |answers| == 3
    ensures RunJob(w, j, answers) == WithJob(w, j, w.jobs[j].(progress :=
      if AllOk(answers) then Annotated(c, answers[2].object_) else Stopped))
  {
    var job := w.jobs[j];
    ReadsAct(w, j, answers);
    OneRead(w, job, answers);
    var j1 := NextJob(w, job, answers[0]);
    OneRead(w, j1, answers[1..]);
    var j2 := NextJob(w, j1, answers[1]);
    assert answers[1..][1..] == answers[2..];
    OneRead(w, j2, answers[2..]);
    assert answers[2..][1..] == [];
    StoppedIs(w, job, answers);
    assert AllOk(answers) <==> answers[0].ok && answers[1].ok && answers[2].ok;
  }

  /** A job that stops has changed nothing but its point, once its policy has been read. */
  lemma {:induction false} StoppedIs(w: World, job: Job, answers: seq<Answer>)
    requires !job.progress.AtMain? && !job.progress.AtPolicy?
    ensures RunReads(w, job, answers) == job.(progress := RunReads(w, job, answers).progress)
    decreases |answers|
  {
    if answers != [] { StoppedIs(w, NextJob(w, job, answers[0]), answers[1..]); }
  }

  /** Creating the ref of a free version: done whenever it is not refused, even if the response is lost. */
  lemma CreateCall(w: World, j: nat, a: Answer, c: Candidate, object_: nat)
    requires j < |w.jobs| && w.jobs[j].progress == Annotated(c, object_) && w.jobs[j].version !in w.tags
    ensures var job := w.jobs[j];
      Advanced(w, j, a) == WithJob(w, j, job.(progress := if a.ok && !a.lost then RefCreated(c, object_) else Stopped)).(
        tags := if a.ok then w.tags[job.version := Tag(job.head, object_, ByJob(j), c.ci, c.codeQl)] else w.tags)
  {
  }

  /** Reading the ref back and dispatching. */
  lemma DispatchCalls(w: World, j: nat, answers: seq<Answer>, c: Candidate, object_: nat)
    requires j < |w.jobs| && w.jobs[j].progress == RefCreated(c, object_) && |answers| == 2
    requires w.jobs[j].version in w.tags && w.tags[w.jobs[j].version].object_ == object_
    ensures var r := RunJob(w, j, answers);
      && r.tags == w.tags && |r.jobs| == |w.jobs|
      && r.dispatches == w.dispatches + (if AllOk(answers) then [Dispatch(j, w.jobs[j].version)] else [])
      && r.jobs[j].progress == (if AllOk(answers) && !answers[1].lost then Dispatched(c) else Stopped)
  {
    var w1 := Advanced(w, j, answers[0]);
    assert w1 == WithJob(w, j, w.jobs[j].(progress := if answers[0].ok then RefVerified(c, object_) else Stopped));
    assert answers[1..][1..] == [];
    assert RunJob(w, j, answers) == RunJob(w1, j, answers[1..]) == Advanced(w1, j, answers[1]);
    assert AllOk(answers) <==> answers[0].ok && answers[1].ok;
  }

  /** The three calls that create the ref, read it back and dispatch. */
  lemma TagCalls(w: World, j: nat, answers: seq<Answer>, c: Candidate, object_: nat)
    requires j < |w.jobs| && w.jobs[j].progress == Annotated(c, object_) && |answers| == 3 && w.jobs[j].version !in w.tags
    ensures var job, r := w.jobs[j], RunJob(w, j, answers);
      var sent := AllOk(answers) && !answers[0].lost;
      && r.tags == (if answers[0].ok then w.tags[job.version := Tag(job.head, object_, ByJob(j), c.ci, c.codeQl)] else w.tags)
      && r.dispatches == w.dispatches + (if sent then [Dispatch(j, job.version)] else [])
      && |r.jobs| == |w.jobs| && r.jobs[j].progress == (if sent && !answers[2].lost then Dispatched(c) else Stopped)
  {
    CreateCall(w, j, answers[0], c, object_);
    var w1 := Advanced(w, j, answers[0]);
    assert RunJob(w, j, answers) == RunJob(w1, j, answers[1..]);
    if w1.jobs[j].progress.Stopped? { StoppedJob(w1, j, answers[1..]); }
    else { DispatchCalls(w1, j, answers[1..], c, object_); }
    assert AllOk(answers) <==> answers[0].ok && AllOk(answers[1..]) by {
      assert forall i :: 0 <= i < 2 ==> answers[1..][i] == answers[i + 1];
    }
  }

  /** Exactly what a start job does with its answers: the tag, the one dispatch, and where it ends. */
  lemma StartExactly(w: World, j: nat, answers: seq<Answer>)
    requires j < |w.jobs| && w.jobs[j].progress.AtMain? && w.jobs[j].mode.Start?
    requires |answers| == ADMISSION_READS + START_CALLS
    ensures var job, r := w.jobs[j], RunJob(w, j, answers);
      var passes := Passes(w, job, answers[..9]);
      var tagged := passes && AllOk(answers[9..13]);
      var sent := passes && AllOk(answers[9..]) && !answers[12].lost;
      && r.tags == (if tagged then w.tags[job.version := Tag(job.head, answers[11].object_, ByJob(j), answers[3].run, answers[5].run)]
                    else w.tags)
      && r.dispatches == w.dispatches + (if sent then [Dispatch(j, job.version)] else [])
      && |r.jobs| == |w.jobs|
      && (if sent && !answers[14].lost then r.jobs[j].progress == Dispatched(CandidateFrom(w, job, answers[..9]))
          else r.jobs[j].progress.Stopped?)
  {
    var job := w.jobs[j];
    var found, drafts, tags := answers[..9], answers[9..12], answers[12..];
    assert answers == found + (drafts + tags);
    PassesExactly(w, job, found);
    ReadsAct(w, j, found);
    RunJobConcat(w, j, found, drafts + tags);
    var w1 := RunJob(w, j, found);
    RunJobConcat(w1, j, drafts, tags);
    AllOkParts(answers);
    if Passes(w, job, found) {
      var c := CandidateFrom(w, job, found);
      DraftCalls(w1, j, drafts, c);
      var w2 := RunJob(w1, j, drafts);
      if AllOk(drafts) { TagCalls(w2, j, tags, c, drafts[2].object_); } else { StoppedJob(w2, j, tags); }
    } else {
      StoppedJob(w1, j, drafts);
      StoppedJob(RunJob(w1, j, drafts), j, tags);
    }
  }

  lemma AllOkParts(answers: seq<Answer>)
    requires |answers| == ADMISSION_READS + START_CALLS
    ensures AllOk(answers[9..]) <==> AllOk(answers[9..12]) && AllOk(answers[12..])
    ensures AllOk(answers[9..13]) <==> AllOk(answers[9..12]) && answers[12].ok
  {
    assert answers[9..] == answers[9..12] + answers[12..];
    assert answers[9..13] == answers[9..12] + [answers[12]];
    assert forall i :: 0 <= i < 3 ==> answers[9..][i] == answers[9..12][i] && answers[9..][i + 3] == answers[12..][i];
    assert forall i :: 0 <= i < 3 ==> answers[9..13][i] == answers[9..12][i];
    assert answers[9..13][3] == answers[12];
  }

  lemma {:induction false} StoppedJob(w: World, j: nat, answers: seq<Answer>)
    requires j < |w.jobs| && w.jobs[j].progress.Stopped?
    ensures RunJob(w, j, answers) == w
    decreases |answers|
  {
    if answers != [] {
      ReadAct(w, j, answers[0]);
      assert w.jobs[j := w.jobs[j]] == w.jobs;
      StoppedJob(w, j, answers[1..]);
    }
  }

  // ----- the whole chain -----

  lemma OneMore(w: World, steps: seq<Step>, s: Step)
    requires IsRun(w, steps) && Enabled(After(w, steps), s)
    ensures IsRun(w, steps + [s]) && After(w, steps + [s]) == Next(After(w, steps), s)
  {
    assert (steps + [s])[..|steps|] == steps;
  }

  function Advances(j: nat, answers: seq<Answer>): seq<Step> {
    if answers == [] then [] else [Advance(j, answers[0])] + Advances(j, answers[1..])
  }

  /** The calls of one job are a run. */
  lemma {:induction false} JobIsRun(w: World, steps: seq<Step>, j: nat, answers: seq<Answer>)
    requires IsRun(w, steps) && j < |After(w, steps).jobs|
    ensures IsRun(w, steps + Advances(j, answers)) && After(w, steps + Advances(j, answers)) == RunJob(After(w, steps), j, answers)
    decreases |answers|
  {
    if answers == [] {
      assert steps + Advances(j, answers) == steps;
    } else {
      OneCall(w, steps, j, answers[0]);
      JobIsRun(w, steps + [Advance(j, answers[0])], j, answers[1..]);
      OneStepOff(steps, j, answers);
    }
  }

  lemma OneCall(w: World, steps: seq<Step>, j: nat, a: Answer)
    requires IsRun(w, steps) && j < |After(w, steps).jobs|
    ensures IsRun(w, steps + [Advance(j, a)]) && After(w, steps + [Advance(j, a)]) == Advanced(After(w, steps), j, a)
    ensures j < |Advanced(After(w, steps), j, a).jobs|
  {
    OneMore(w, steps, Advance(j, a));
    AdvanceGrows(After(w, steps), j, a);
  }

  lemma OneStepOff(steps: seq<Step>, j: nat, answers: seq<Answer>)
    requires answers != []
    ensures steps + Advances(j, answers) == steps + [Advance(j, answers[0])] + Advances(j, answers[1..])
  {
  }

  /** All answers yes, with one CI and one CodeQL run. */
  function Yes(n: nat, number: nat, ci: RunId, codeQl: RunId, object_: nat, ruleset: nat, policy: nat): (r: seq<Answer>)
    ensures |r| == n && AllOk(r)
  {
    seq(n, i requires 0 <= i < n => Answer(true, number, if i < 5 then ci else codeQl, object_, ruleset, policy, false))
  }

  /** A spawned job that finds everything passes, and nothing else changes. */
  lemma PassLeg(w: World, steps: seq<Step>, spawn: Step, job: Job, answers: seq<Answer>) returns (more: seq<Step>)
    requires IsRun(w, steps) && Enabled(After(w, steps), spawn) && |answers| == ADMISSION_READS && job.progress.AtMain?
    requires var now := After(w, steps);
      Next(now, spawn) == now.(jobs := now.jobs + [job]) && Passes(now, job, answers)
    ensures IsRun(w, more)
    ensures var now := After(w, steps);
      After(w, more) == now.(jobs := now.jobs + [job.(progress := Passed(CandidateFrom(now, job, answers)), policyAt := now.now)])
  {
    var now := After(w, steps);
    var j := |now.jobs|;
    OneMore(w, steps, spawn);
    JobIsRun(w, steps + [spawn], j, answers);
    more := steps + [spawn] + Advances(j, answers);
    var w1 := Next(now, spawn);
    assert Passes(w1, job, answers);
    PassesExactly(w1, job, answers);
    ReadsAct(w1, j, answers);
    var last := RunReads(w1, job, answers);
    assert (now.jobs + [job])[j := last] == now.jobs + [last];
  }

  /** Admission and recheck of a free version on an unchanged, completely checked head both pass. */
  lemma TwoPass(w: World, version: string, answers: seq<Answer>) returns (steps: seq<Step>)
    requires |answers| == ADMISSION_READS && Passes(w, Job(Admit, w.main, version, AtMain, 0), answers)
    ensures IsRun(w, steps)
    ensures var c := CandidateFrom(w, Job(Admit, w.main, version, AtMain, 0), answers);
      After(w, steps) == w.(jobs := w.jobs
        + [Job(Admit, w.main, version, Passed(c), w.now)] + [Job(Recheck(c), w.main, version, Passed(c), w.now)])
  {
    var admit := Job(Admit, w.main, version, AtMain, 0);
    var c := CandidateFrom(w, admit, answers);
    steps := PassLeg(w, [], SpawnAdmit(w.main, version), admit, answers);
    var now := After(w, steps);
    var recheck := Job(Recheck(c), w.main, version, AtMain, 0);
    assert now.jobs[|w.jobs|].progress == Passed(c);
    assert Passes(now, recheck, answers) && CandidateFrom(now, recheck, answers) == c;
    steps := PassLeg(w, steps, SpawnRecheck(|w.jobs|, w.main, version), recheck, answers);
  }

  /**
   * A free version on an unchanged head with two complete current attempts: admission, recheck and
   * start with yes answers create its tag on that head and send exactly one dispatch.
   */
  lemma ChainDispatches(w: World, version: string, number: nat, ci: RunId, codeQl: RunId, object_: nat, ruleset: nat, policy: nat)
    returns (steps: seq<Step>)
    requires version !in w.tags && ci.attempt == Attempt(w, ci.id) && codeQl.attempt == Attempt(w, codeQl.id)
    requires Complete(w, Ci, w.main, ci) && Complete(w, CodeQl, w.main, codeQl)
    ensures IsRun(w, steps)
    ensures var now := After(w, steps);
      && now.tags == w.tags[version := Tag(w.main, object_, ByJob(|w.jobs| + 2), ci, codeQl)]
      && now.dispatches == w.dispatches + [Dispatch(|w.jobs| + 2, version)]
      && |now.jobs| == |w.jobs| + 3 && now.jobs[|w.jobs| + 2].progress.Dispatched?
  {
    var answers := Yes(9, number, ci, codeQl, object_, ruleset, policy);
    var admit := Job(Admit, w.main, version, AtMain, 0);
    assert Passes(w, admit, answers);
    var c := CandidateFrom(w, admit, answers);
    steps := TwoPass(w, version, answers);
    var now, j := After(w, steps), |w.jobs| + 2;
    assert now.jobs[|w.jobs| + 1] == Job(Recheck(c), w.main, version, Passed(c), w.now);
    var spawn := SpawnStart(|w.jobs| + 1, w.main, version, 0);
    OneMore(w, steps, spawn);
    steps := steps + [spawn];
    StartLeg(After(w, steps), j, Yes(15, number, ci, codeQl, object_, ruleset, policy));
    JobIsRun(w, steps, j, Yes(15, number, ci, codeQl, object_, ruleset, policy));
    steps := steps + Advances(j, Yes(15, number, ci, codeQl, object_, ruleset, policy));
  }

  lemma StartLeg(w: World, j: nat, answers: seq<Answer>)
    requires j < |w.jobs| && |answers| == ADMISSION_READS + START_CALLS && AllOk(answers) && !answers[12].lost && !answers[14].lost
    requires w.jobs[j].progress.AtMain? && w.jobs[j].mode.Start? && Passes(w, w.jobs[j], answers[..9])
    ensures var job, r := w.jobs[j], RunJob(w, j, answers);
      && r.tags == w.tags[job.version := Tag(job.head, answers[11].object_, ByJob(j), answers[3].run, answers[5].run)]
      && r.dispatches == w.dispatches + [Dispatch(j, job.version)]
      && |r.jobs| == |w.jobs| && r.jobs[j].progress.Dispatched?
  {
    StartExactly(w, j, answers);
  }

  // ----- an admission that mixes two attempts -----

  const YES: Answer := Answer(true, 1, RunId(1, 1), 0, 0, 0, false)
  const BEFORE: World := World(
    0, 7, {7},
    {RunSucceeded(Ci, 7, RunId(1, 1)), JobsSucceeded(Ci, 7, RunId(1, 2)),
     RunSucceeded(CodeQl, 7, RunId(2, 1)), JobsSucceeded(CodeQl, 7, RunId(2, 1))},
    map[], map[], [], [])

  /** The job reads the first attempt of the CI run, and then that run is started again. */
  lemma ReadsFirstAttempt() returns (steps: seq<Step>)
    ensures IsRun(BEFORE, steps)
    ensures var now := After(BEFORE, steps);
      && now.facts == BEFORE.facts && now.tags == map[] && now.attempts == map[1 := 2]
      && now.jobs == [Job(Admit, 7, "1", AtCiJobs(Receipt(0, 0, 0), 1, RunId(1, 1)), 0)]
  {
    OneMore(BEFORE, [], SpawnAdmit(7, "1"));
    steps := [] + [SpawnAdmit(7, "1")];
    OneMore(BEFORE, steps, Advance(0, YES));
    steps := steps + [Advance(0, YES)];
    OneMore(BEFORE, steps, Advance(0, YES));
    steps := steps + [Advance(0, YES)];
    OneMore(BEFORE, steps, Advance(0, YES));
    steps := steps + [Advance(0, YES)];
    assert After(BEFORE, steps).jobs == [Job(Admit, 7, "1", AtCi(Receipt(0, 0, 0), 1), 0)];
    OneMore(BEFORE, steps, Advance(0, YES));
    steps := steps + [Advance(0, YES)];
    OneMore(BEFORE, steps, Rerun(1));
    steps := steps + [Rerun(1)];
  }

  /** The jobs it then reads are those of the second attempt. */
  lemma ReadsSecondJobs() returns (steps: seq<Step>)
    ensures IsRun(BEFORE, steps)
    ensures var now := After(BEFORE, steps);
      && now.facts == BEFORE.facts && now.tags == map[]
      && now.jobs == [Job(Admit, 7, "1", AtTag(Receipt(0, 0, 0), 1, RunId(1, 1), RunId(2, 1)), 0)]
  {
    steps := ReadsFirstAttempt();
    OneMore(BEFORE, steps, Advance(0, YES));
    steps := steps + [Advance(0, YES)];
    var second := YES.(run := RunId(2, 1));
    OneMore(BEFORE, steps, Advance(0, second));
    steps := steps + [Advance(0, second)];
    OneMore(BEFORE, steps, Advance(0, YES));
    steps := steps + [Advance(0, YES)];
  }

  /** So it passes although the attempt it names never had all required jobs. */
  lemma AdmissionMixesAttempts() returns (w: World, steps: seq<Step>)
    ensures Initial(w) && IsRun(w, steps)
    ensures var now := After(w, steps);
      && |now.jobs| == 1 && now.jobs[0].mode.Admit? && now.jobs[0].progress.Passed?
      && !Complete(now, Ci, 7, now.jobs[0].progress.candidate.ci)
  {
    w := BEFORE;
    steps := ReadsSecondJobs();
    OneMore(w, steps, Advance(0, YES));
    steps := steps + [Advance(0, YES)];
    OneMore(w, steps, Advance(0, YES));
    steps := steps + [Advance(0, YES)];
  }
}
