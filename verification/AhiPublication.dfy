/**
 * Publication of the complete AHI product set by any number of concurrent publishers: optimistic
 * concurrency on a baseline snapshot, an exclusive transaction, an atomic commit.
 */
module AhiPublication {
  import opened Wrappers

  /** One measured live file; the identity is the device and inode pair. */
  datatype File = File(identity: nat, contents: string, mode: nat)

  datatype Product = Product(contents: string, mode: nat)

  /** The live set in contract order; a missing product is `None`. */
  type Live = seq<Option<File>>

  predicate PortableMode(mode: nat) { mode == 0x1a4 || mode == 0x1ed }

  /** `measure_live_set` succeeds only on files with a portable mode. */
  predicate Measurable(live: Live) {
    forall i :: 0 <= i < |live| && live[i].Some? ==> PortableMode(live[i].value.mode)
  }

  /** `validate_private_install` lets only non-empty products with a portable mode through. */
  predicate Publishable(products: seq<Product>) {
    forall i :: 0 <= i < |products| ==> products[i].contents != [] && PortableMode(products[i].mode)
  }

  predicate Same(f: Option<File>, p: Product) {
    f.Some? && f.value.contents == p.contents && f.value.mode == p.mode
  }

  /** The live set is one complete prepared set. */
  ghost predicate Complete(live: Live, products: seq<Product>) {
    && |live| == |products|
    && forall i :: 0 <= i < |live| ==>
         live[i].Some? && live[i].value.contents == products[i].contents && live[i].value.mode == products[i].mode
  }

  datatype Phase =
    | Idle
    | Prepared(baseline: Live, products: seq<Product>)
    | Open(baseline: Live, products: seq<Product>)
    | Staging(baseline: Live, products: seq<Product>, staged: seq<Option<Product>>)
    | Ready(baseline: Live, products: seq<Product>, staged: seq<Option<Product>>)
    | Committed
    | Failed

  predicate Holding(p: Phase) { p.Open? || p.Staging? || p.Ready? }

  /** A commit on record: who, what was staged under which identities, on what, with which result, and what existed before. */
  datatype Commit = Commit(
    publisher: nat, products: seq<Product>, staged: seq<Option<Product>>, identities: seq<nat>,
    before: Live, after: Live, known: set<nat>)

  datatype Global = Global(live: Live, phases: seq<Phase>, holder: Option<nat>, known: set<nat>, history: seq<Commit>)

  function Identities(live: Live): set<nat> {
    set i | 0 <= i < |live| && live[i].Some? :: live[i].value.identity
  }

  /** `stage_write_mode`: an unchanged file is not staged. */
  function StageOne(current: Option<File>, p: Product): Option<Product> {
    if Same(current, p) then None else Some(p)
  }

  /** The set after an atomic commit: staged files get new identities, the others stay as they are. */
  function Installed(live: Live, staged: seq<Option<Product>>, identities: seq<nat>): (r: Live)
    requires |live| == |staged| == |identities|
    ensures |r| == |live|
  {
    seq(|live|, i requires 0 <= i < |live| =>
      if staged[i].Some? then Some(File(identities[i], staged[i].value.contents, staged[i].value.mode)) else live[i])
  }

  datatype Step =
    | Prepare(publisher: nat, baseline: Live, products: seq<Product>)
    | OpenTransaction(publisher: nat)
    | Check(publisher: nat)
    | Stage(publisher: nat)
    | Recheck(publisher: nat)
    | CommitSet(publisher: nat, identities: seq<nat>)
    | Fail(publisher: nat)

  predicate Enabled(g: Global, s: Step) {
    && s.publisher < |g.phases|
    && var phase := g.phases[s.publisher];
       match s
       case Prepare(_, baseline, products) =>
         phase.Idle? && |products| == |baseline| == |g.live| && Measurable(baseline) && Publishable(products)
       case OpenTransaction(_) => phase.Prepared? && g.holder.None?
       case Check(_) => phase.Open?
       case Stage(_) => phase.Staging? && |phase.staged| < |phase.products|
       case Recheck(_) => phase.Staging? && |phase.staged| == |phase.products|
       case CommitSet(_, identities) =>
         phase.Ready? && |identities| == |g.live| == |phase.staged|
       case Fail(_) => !phase.Committed? && !phase.Failed?
  }

  function Enter(g: Global, publisher: nat, phase: Phase): Global
    requires publisher < |g.phases|
  {
    g.(phases := g.phases[publisher := phase],
       holder := if Holding(phase) then Some(publisher) else if g.holder == Some(publisher) then None else g.holder)
  }

  function Next(g: Global, s: Step): Global
    requires Enabled(g, s)
  {
    var phase := g.phases[s.publisher];
    match s
    // The baseline is read file by file without the lock, so it may be any measurable set.
    case Prepare(p, baseline, products) => Enter(g, p, Prepared(baseline, products))
    case OpenTransaction(p) => Enter(g, p, Open(phase.baseline, phase.products))
    case Check(p) => Enter(g, p, if g.live == phase.baseline then Staging(phase.baseline, phase.products, []) else Failed)
    case Stage(p) =>
      var k := |phase.staged|;
      Enter(g, p, if k >= |g.live| then Failed
        else Staging(phase.baseline, phase.products, phase.staged + [StageOne(g.live[k], phase.products[k])]))
    case Recheck(p) =>
      Enter(g, p, if g.live == phase.baseline then Ready(phase.baseline, phase.products, phase.staged) else Failed)
    case CommitSet(p, identities) =>
      var after := Installed(g.live, phase.staged, identities);
      Enter(g, p, Committed).(
        live := after, known := g.known + Identities(after),
        history := g.history + [Commit(p, phase.products, phase.staged, identities, g.live, after, g.known)])
    case Fail(p) => Enter(g, p, Failed)
  }

  /** The file system never hands out an identity again while the run lasts. */
  ghost predicate FreshIdentities(g: Global, s: Step) {
    s.CommitSet? ==> forall i :: 0 <= i < |s.identities| ==> s.identities[i] !in g.known
  }

  ghost predicate IsRun(g: Global, steps: seq<Step>)
    decreases |steps|, 0
  {
    steps == [] || (IsRun(g, steps[..|steps| - 1]) && Enabled(After(g, steps[..|steps| - 1]), steps[|steps| - 1]))
  }

  ghost function After(g: Global, steps: seq<Step>): Global
    requires IsRun(g, steps)
    decreases |steps|, 1
  {
    if steps == [] then g else Next(After(g, steps[..|steps| - 1]), steps[|steps| - 1])
  }

  ghost predicate IsFreshRun(g: Global, steps: seq<Step>)
    requires IsRun(g, steps)
  {
    steps == [] ||
    (IsFreshRun(g, steps[..|steps| - 1]) && FreshIdentities(After(g, steps[..|steps| - 1]), steps[|steps| - 1]))
  }

  ghost predicate Start(g: Global) {
    && g.holder.None? && g.history == [] && g.known >= Identities(g.live)
    && forall p :: 0 <= p < |g.phases| ==> g.phases[p].Idle?
  }

  // ----- what every step keeps -----

  /** The staged part agrees with the live set it was compared with. */
  ghost predicate StagedFrom(live: Live, products: seq<Product>, staged: seq<Option<Product>>) {
    && |products| == |live| && |staged| <= |products|
    && forall i :: 0 <= i < |staged| ==> staged[i] == StageOne(live[i], products[i])
  }

  ghost predicate PhaseOk(live: Live, phase: Phase) {
    match phase
    case Prepared(_, products) => |products| == |live| && Publishable(products)
    case Open(_, products) => |products| == |live| && Publishable(products)
    case Staging(baseline, products, staged) =>
      baseline == live && StagedFrom(live, products, staged) && Publishable(products)
    case Ready(baseline, products, staged) =>
      baseline == live && StagedFrom(live, products, staged) && |staged| == |live| && Publishable(products)
    case _ => true
  }

  ghost predicate PhasesOk(g: Global) {
    && (forall p :: 0 <= p < |g.phases| ==> (Holding(g.phases[p]) <==> g.holder == Some(p)))
    && (forall p :: 0 <= p < |g.phases| ==> PhaseOk(g.live, g.phases[p]))
  }

  /** The set a chain of commits has led to. */
  ghost function Reached(initial: Live, history: seq<Commit>): Live {
    if history == [] then initial else history[|history| - 1].after
  }

  /** Every file of the set is non-empty with mode 0644 or 0755. */
  ghost predicate Portable(live: Live) {
    forall i :: 0 <= i < |live| ==>
      live[i].Some? && live[i].value.contents != [] && (live[i].value.mode == 0x1a4 || live[i].value.mode == 0x1ed)
  }

  /** A commit installed what it had staged, and the result is its complete, portable prepared set. */
  ghost predicate Faithful(c: Commit) {
    && Portable(c.after)
    && |c.before| == |c.staged| == |c.identities| && c.after == Installed(c.before, c.staged, c.identities)
    && Complete(c.after, c.products)
  }

  /** Each commit starts from the set the previous ones led to, and installs one complete set. */
  ghost predicate Chain(initial: Live, history: seq<Commit>) {
    history == [] ||
    var rest, last := history[..|history| - 1], history[|history| - 1];
    Chain(initial, rest) && last.before == Reached(initial, rest) && Faithful(last)
  }

  ghost predicate HistoryOk(initial: Live, g: Global) {
    g.live == Reached(initial, g.history) && Chain(initial, g.history)
  }

  lemma {:induction false} ChainAt(initial: Live, history: seq<Commit>, i: nat)
    requires Chain(initial, history) && i < |history|
    ensures history[i].before == Reached(initial, history[..i]) && Faithful(history[i])
  {
    if i < |history| - 1 {
      ChainAt(initial, history[..|history| - 1], i);
      assert history[..|history| - 1][..i] == history[..i];
    }
  }

  lemma CommitIsComplete(live: Live, products: seq<Product>, staged: seq<Option<Product>>, identities: seq<nat>)
    requires StagedFrom(live, products, staged) && |staged| == |live| == |identities|
    ensures Complete(Installed(live, staged, identities), products)
  {
  }

  lemma StepKeepsPhases(g: Global, s: Step)
    requires Enabled(g, s) && PhasesOk(g)
    ensures PhasesOk(Next(g, s)) && |Next(g, s).live| == |g.live| && |Next(g, s).phases| == |g.phases|
  {
    var next := Next(g, s);
    forall p | 0 <= p < |next.phases|
      ensures PhaseOk(next.live, next.phases[p]) && (Holding(next.phases[p]) <==> next.holder == Some(p))
    {
      assert PhaseOk(g.live, g.phases[p]) && PhaseOk(g.live, g.phases[s.publisher]);
      if s.CommitSet? && p != s.publisher {
        assert Holding(g.phases[s.publisher]) && !Holding(g.phases[p]);
      }
    }
  }

  lemma StepKeepsHistory(initial: Live, g: Global, s: Step)
    requires Enabled(g, s) && PhasesOk(g) && HistoryOk(initial, g)
    ensures HistoryOk(initial, Next(g, s))
  {
    if s.CommitSet? {
      var phase := g.phases[s.publisher];
      assert PhaseOk(g.live, phase);
      CommitIsComplete(g.live, phase.products, phase.staged, s.identities);
      assert Next(g, s).history[..|g.history|] == g.history;
    }
  }

  lemma {:induction false} RunInvariant(g: Global, steps: seq<Step>)
    requires Start(g) && IsRun(g, steps)
    ensures PhasesOk(After(g, steps)) && HistoryOk(g.live, After(g, steps))
    ensures |After(g, steps).live| == |g.live|
  {
    if steps != [] {
      var init, last := steps[..|steps| - 1], steps[|steps| - 1];
      RunInvariant(g, init);
      StepKeepsPhases(After(g, init), last);
      StepKeepsHistory(g.live, After(g, init), last);
    }
  }

  /** In every interleaving the live set is the initial one or one publisher's complete prepared set. */
  lemma NeverAMix(g: Global, steps: seq<Step>)
    requires Start(g) && IsRun(g, steps)
    ensures var now := After(g, steps);
      now.live == g.live ||
      exists c :: c in now.history && now.live == c.after && Complete(now.live, c.products) && Portable(now.live)
  {
    RunInvariant(g, steps);
    var now := After(g, steps);
    if now.history != [] {
      ChainAt(g.live, now.history, |now.history| - 1);
      assert now.history[|now.history| - 1] in now.history;
    }
  }

  /** A commit only ever happens on exactly the set its publisher measured before preparing. */
  lemma CommitsOnBaseline(g: Global, steps: seq<Step>, s: Step)
    requires Start(g) && IsRun(g, steps) && s.CommitSet? && Enabled(After(g, steps), s)
    ensures var now := After(g, steps); now.phases[s.publisher].baseline == now.live
  {
    RunInvariant(g, steps);
    assert PhaseOk(After(g, steps).live, After(g, steps).phases[s.publisher]);
  }

  ghost predicate Changes(c: Commit) { c.before != c.after }

  /** Two commits on one baseline need a commit in between that brings that very set back. */
  lemma SecondCommitNeedsReturn(g: Global, steps: seq<Step>, i: nat, j: nat)
    requires Start(g) && IsRun(g, steps)
    requires var h := After(g, steps).history; i < j < |h| && h[i].before == h[j].before && Changes(h[i])
    ensures var h := After(g, steps).history; i < j - 1 && h[j - 1].after == h[i].before
  {
    RunInvariant(g, steps);
    ChainAt(g.live, After(g, steps).history, j);
  }

  // ----- without recycled identities, one baseline admits one change -----

  /** A position of the live set holds a file that did not exist when commit `c` was made. */
  ghost predicate LeftBehind(live: Live, c: Commit) {
    exists p :: 0 <= p < |live| && live[p].Some? && live[p].value.identity !in c.known
  }

  ghost predicate Departed(g: Global) {
    && g.known >= Identities(g.live)
    && forall i :: 0 <= i < |g.history| ==>
         && g.history[i].known <= g.known
         && Identities(g.history[i].before) <= g.history[i].known
         && (Changes(g.history[i]) ==> LeftBehind(g.live, g.history[i]))
  }

  /** Installing with fresh identities moves away from every set known before. */
  lemma FreshInstallKeepsDeparted(live: Live, staged: seq<Option<Product>>, identities: seq<nat>, known: set<nat>, c: Commit)
    requires |live| == |staged| == |identities| && c.known <= known
    requires forall i :: 0 <= i < |identities| ==> identities[i] !in known
    ensures LeftBehind(live, c) ==> LeftBehind(Installed(live, staged, identities), c)
  {
    var after := Installed(live, staged, identities);
    if LeftBehind(live, c) {
      var p :| 0 <= p < |live| && live[p].Some? && live[p].value.identity !in c.known;
      assert after[p].Some? && after[p].value.identity !in c.known;
    }
  }

  lemma ChangeLeavesBehind(live: Live, staged: seq<Option<Product>>, identities: seq<nat>, c: Commit)
    requires |live| == |staged| == |identities| && c.before == live && c.after == Installed(live, staged, identities)
    requires forall i :: 0 <= i < |identities| ==> identities[i] !in c.known
    ensures Changes(c) ==> LeftBehind(c.after, c)
  {
    if Changes(c) {
      var p :| 0 <= p < |live| && live[p] != c.after[p];
      assert c.after[p].Some? && c.after[p].value.identity == identities[p];
    }
  }

  lemma StepKeepsDeparted(g: Global, s: Step)
    requires Enabled(g, s) && FreshIdentities(g, s) && PhasesOk(g) && Departed(g)
    ensures Departed(Next(g, s))
  {
    var next := Next(g, s);
    if s.CommitSet? {
      var staged := g.phases[s.publisher].staged;
      var c := next.history[|g.history|];
      ChangeLeavesBehind(g.live, staged, s.identities, c);
      forall i | 0 <= i < |g.history| && Changes(g.history[i]) ensures LeftBehind(next.live, g.history[i]) {
        FreshInstallKeepsDeparted(g.live, staged, s.identities, g.known, g.history[i]);
      }
    }
  }

  lemma {:induction false} FreshRunDeparts(g: Global, steps: seq<Step>)
    requires Start(g) && IsRun(g, steps) && IsFreshRun(g, steps)
    ensures Departed(After(g, steps))
  {
    if steps != [] {
      var init, last := steps[..|steps| - 1], steps[|steps| - 1];
      FreshRunDeparts(g, init);
      RunInvariant(g, init);
      StepKeepsDeparted(After(g, init), last);
    }
  }

  lemma LeftBehindDiffers(live: Live, c: Commit)
    requires LeftBehind(live, c) && Identities(c.before) <= c.known
    ensures live != c.before
  {
    var p :| 0 <= p < |live| && live[p].Some? && live[p].value.identity !in c.known;
    assert live[p].value.identity in Identities(live);
  }

  // ----- running on -----

  lemma {:induction false} RunConcat(g: Global, first: seq<Step>, second: seq<Step>)
    requires IsRun(g, first) && IsRun(After(g, first), second)
    ensures IsRun(g, first + second) && After(g, first + second) == After(After(g, first), second)
  {
    if second == [] {
      assert first + second == first;
    } else {
      RunConcat(g, first, second[..|second| - 1]);
      assert (first + second)[..|first + second| - 1] == first + second[..|second| - 1];
    }
  }

  lemma OneStep(g: Global, s: Step)
    requires Enabled(g, s)
    ensures IsRun(g, [s]) && After(g, [s]) == Next(g, s)
  {
    assert [s][..0] == [];
  }

  lemma Extend(g: Global, steps: seq<Step>, s: Step)
    requires IsRun(g, steps) && Enabled(After(g, steps), s)
    ensures IsRun(g, steps + [s]) && After(g, steps + [s]) == Next(After(g, steps), s)
  {
    OneStep(After(g, steps), s);
    RunConcat(g, steps, [s]);
  }

  // ----- exactly when a prepared publisher can still commit -----

  /** Steps of publisher `p` only. */
  ghost predicate Own(p: nat, steps: seq<Step>) { forall s <- steps :: s.publisher == p }

  /** Without interference, publisher `p` can go on from here to its commit. */
  ghost predicate CanCommit(g: Global, p: nat) {
    exists more :: IsRun(g, more) && Own(p, more) && Commits(After(g, more), p)
  }

  ghost predicate Commits(g: Global, p: nat) { p < |g.phases| && g.phases[p].Committed? }

  /** What the first `k` products stage against a live set. */
  function Staged(live: Live, products: seq<Product>, k: nat): (r: seq<Option<Product>>)
    requires k <= |products| == |live|
    ensures |r| == k
  {
    seq(k, i requires 0 <= i < k => StageOne(live[i], products[i]))
  }

  /** A file that already has the prepared contents and mode is left alone, identity included. */
  lemma UnchangedFileStays(live: Live, products: seq<Product>, identities: seq<nat>, i: nat)
    requires |live| == |products| == |identities| && i < |live|
    requires live[i].Some? && live[i].value.contents == products[i].contents && live[i].value.mode == products[i].mode
    ensures Installed(live, Staged(live, products, |products|), identities)[i] == live[i]
  {
  }

  lemma {:induction false} StageAll(g: Global, p: nat, products: seq<Product>, k: nat) returns (steps: seq<Step>)
    requires p < |g.phases| && k <= |products| == |g.live| && g.holder == Some(p)
    requires g.phases[p] == Staging(g.live, products, Staged(g.live, products, k))
    ensures IsRun(g, steps) && Own(p, steps)
    ensures After(g, steps) == g.(phases := g.phases[p := Staging(g.live, products, Staged(g.live, products, |products|))])
    decreases |products| - k
  {
    if k == |products| {
      steps := [];
      assert g.phases == g.phases[p := g.phases[p]];
    } else {
      OneStep(g, Stage(p));
      assert Staged(g.live, products, k) + [StageOne(g.live[k], products[k])] == Staged(g.live, products, k + 1);
      var rest := StageAll(Next(g, Stage(p)), p, products, k + 1);
      RunConcat(g, [Stage(p)], rest);
      steps := [Stage(p)] + rest;
    }
  }

  lemma {:induction false} OwnConcat(p: nat, a: seq<Step>, b: seq<Step>)
    requires Own(p, a) && Own(p, b)
    ensures Own(p, a + b)
  {
  }

  /** Opening and checking on an unchanged set. */
  lemma OpenAndCheck(g: Global, p: nat, products: seq<Product>) returns (steps: seq<Step>)
    requires p < |g.phases| && g.holder.None? && g.phases[p] == Prepared(g.live, products)
    ensures IsRun(g, steps) && Own(p, steps)
    ensures After(g, steps) == g.(phases := g.phases[p := Staging(g.live, products, [])], holder := Some(p))
  {
    OneStep(g, OpenTransaction(p));
    Extend(g, [OpenTransaction(p)], Check(p));
    steps := [OpenTransaction(p)] + [Check(p)];
    assert After(g, steps).phases == g.phases[p := Staging(g.live, products, [])];
  }

  /** Checking again and committing a completely staged set. */
  lemma RecheckAndCommit(g: Global, p: nat, products: seq<Product>, staged: seq<Option<Product>>, identities: seq<nat>)
    returns (steps: seq<Step>)
    requires p < |g.phases| && g.holder == Some(p) && g.phases[p] == Staging(g.live, products, staged)
    requires |staged| == |products| == |g.live| == |identities|
    ensures IsRun(g, steps) && Own(p, steps)
    ensures var after := Installed(g.live, staged, identities);
      After(g, steps) == g.(
        live := after, phases := g.phases[p := Committed], holder := None, known := g.known + Identities(after),
        history := g.history + [Commit(p, products, staged, identities, g.live, after, g.known)])
  {
    OneStep(g, Recheck(p));
    Extend(g, [Recheck(p)], CommitSet(p, identities));
    steps := [Recheck(p)] + [CommitSet(p, identities)];
    assert After(g, steps).phases == g.phases[p := Committed];
  }

  /** The whole way of a publisher whose baseline still stands, from a free lock to its commit. */
  lemma PublishAlone(g: Global, p: nat, products: seq<Product>, identities: seq<nat>) returns (steps: seq<Step>)
    requires p < |g.phases| && g.holder.None? && |products| == |g.live| == |identities|
    requires g.phases[p] == Prepared(g.live, products)
    ensures IsRun(g, steps) && Own(p, steps)
    ensures var staged := Staged(g.live, products, |products|);
      var after := Installed(g.live, staged, identities);
      After(g, steps) == g.(
        live := after, phases := g.phases[p := Committed], known := g.known + Identities(after),
        history := g.history + [Commit(p, products, staged, identities, g.live, after, g.known)])
  {
    var first := OpenAndCheck(g, p, products);
    var g1 := After(g, first);
    assert Staged(g.live, products, 0) == [];
    var second := StageAll(g1, p, products, 0);
    RunConcat(g, first, second);
    OwnConcat(p, first, second);
    var g2 := After(g, first + second);
    var third := RecheckAndCommit(g2, p, products, Staged(g.live, products, |products|), identities);
    RunConcat(g, first + second, third);
    OwnConcat(p, first + second, third);
    steps := first + second + third;
    assert g2.phases[p := Committed] == g.phases[p := Committed];
  }

  /** On a changed set the publisher gets no further than the first check. */
  lemma {:induction false} StuckOnChange(g: Global, p: nat, steps: seq<Step>)
    requires p < |g.phases| && g.phases[p].Prepared? && g.live != g.phases[p].baseline
    requires IsRun(g, steps) && Own(p, steps)
    ensures var now := After(g, steps);
      && now.live == g.live && p < |now.phases|
      && (now.phases[p] == g.phases[p] || now.phases[p].Failed?
          || now.phases[p] == Open(g.phases[p].baseline, g.phases[p].products))
  {
    if steps != [] {
      var init, last := steps[..|steps| - 1], steps[|steps| - 1];
      assert last in steps;
      StuckOnChange(g, p, init);
    }
  }

  /** A prepared publisher finds its way to a commit exactly when the live set is its baseline. */
  lemma CanCommitExactly(g: Global, p: nat)
    requires p < |g.phases| && g.holder.None? && g.phases[p].Prepared? && |g.phases[p].products| == |g.live|
    ensures CanCommit(g, p) <==> g.live == g.phases[p].baseline
  {
    if g.live == g.phases[p].baseline {
      var steps := PublishAlone(g, p, g.phases[p].products, seq(|g.live|, _ => 0));
      assert Commits(After(g, steps), p);
    } else {
      forall more | IsRun(g, more) && Own(p, more) ensures !Commits(After(g, more), p) {
        StuckOnChange(g, p, more);
      }
    }
  }

  /** A commit brings the set `target` back: its staged files are exactly those, identities included, the rest stood already. */
  ghost predicate Restores(c: Commit, target: Live)
    requires |c.before| == |c.staged| == |c.identities|
  {
    && |target| == |c.before|
    && forall i :: 0 <= i < |target| ==>
         match c.staged[i]
         case Some(p) => target[i] == Some(File(c.identities[i], p.contents, p.mode))
         case None => target[i] == c.before[i]
  }

  lemma RestoresExactly(c: Commit, target: Live)
    requires Faithful(c)
    ensures c.after == target <==> Restores(c, target)
  {
    if Restores(c, target) { assert c.after == target; }
  }

  /**
   * After a publisher has changed a baseline, another publisher of that baseline can commit exactly
   * when the last commit on record brought this very set back, file identities included.
   */
  lemma SecondCommitExactly(g: Global, steps: seq<Step>, i: nat, p: nat)
    requires Start(g) && IsRun(g, steps)
    requires var now := After(g, steps);
      && i < |now.history| && Changes(now.history[i])
      && p < |now.phases| && now.holder.None? && now.phases[p].Prepared? && now.phases[p].baseline == now.history[i].before
    ensures var now := After(g, steps);
      var last := now.history[|now.history| - 1];
      && Faithful(last)
      && (CanCommit(now, p) <==> now.live == now.history[i].before)
      && (CanCommit(now, p) <==> i < |now.history| - 1 && Restores(last, now.history[i].before))
  {
    RunInvariant(g, steps);
    var now := After(g, steps);
    var h := now.history;
    assert PhaseOk(now.live, now.phases[p]);
    CanCommitExactly(now, p);
    ChainAt(g.live, h, |h| - 1);
    RestoresExactly(h[|h| - 1], h[i].before);
  }

  /** Without recycled identities that never happens: one baseline admits one change. */
  lemma OneChangePerBaseline(g: Global, steps: seq<Step>, c: Commit, p: nat)
    requires Start(g) && IsRun(g, steps) && IsFreshRun(g, steps)
    requires var now := After(g, steps);
      && c in now.history && Changes(c)
      && p < |now.phases| && now.holder.None? && now.phases[p].Prepared? && now.phases[p].baseline == c.before
    ensures !CanCommit(After(g, steps), p)
  {
    var now := After(g, steps);
    RunInvariant(g, steps);
    assert PhaseOk(now.live, now.phases[p]);
    FreshRunDeparts(g, steps);
    LeftBehindDiffers(now.live, c);
    CanCommitExactly(now, p);
  }

  // ----- a run with a recycled identity -----

  lemma PublishLater(g: Global, steps: seq<Step>, p: nat, product: Product, identity: nat) returns (more: seq<Step>)
    requires IsRun(g, steps) && var now := After(g, steps);
             && p < |now.phases| && |now.live| == 1 && now.holder.None?
             && now.phases[p] == Prepared(now.live, [product]) && !Same(now.live[0], product)
    ensures IsRun(g, more) && var now, then_ := After(g, steps), After(g, more);
            var after := [Some(File(identity, product.contents, product.mode))];
            && then_.live == after && then_.phases == now.phases[p := Committed] && then_.holder.None?
            && |then_.history| == |now.history| + 1 && then_.history[..|now.history|] == now.history
            && var c := then_.history[|now.history|];
            c.publisher == p && c.before == now.live && c.after == after
  {
    var now := After(g, steps);
    var leg := PublishAlone(now, p, [product], [identity]);
    assert Installed(now.live, Staged(now.live, [product], 1), [identity]) == [Some(File(identity, product.contents, product.mode))];
    RunConcat(g, steps, leg);
    more := steps + leg;
  }

  lemma PrepareLater(g: Global, steps: seq<Step>, p: nat, product: Product) returns (more: seq<Step>)
    requires IsRun(g, steps) && var now := After(g, steps);
             && p < |now.phases| && |now.live| == 1 && now.holder.None? && now.phases[p].Idle?
             && Measurable(now.live) && Publishable([product])
    ensures IsRun(g, more) && var now, then_ := After(g, steps), After(g, more);
            && then_.live == now.live && then_.history == now.history && then_.holder.None?
            && then_.phases == now.phases[p := Prepared(now.live, [product])]
  {
    var now := After(g, steps);
    Extend(g, steps, Prepare(p, now.live, [product]));
    more := steps + [Prepare(p, now.live, [product])];
  }

  const OLD: Live := [Some(File(1, "a", 0x1a4))]
  const FIRST: Product := Product("b", 0x1a4)
  const SECOND: Product := Product("c", 0x1a4)
  const RESTORING: Product := Product("a", 0x1a4)

  lemma TwoPrepare() returns (g: Global, steps: seq<Step>)
    ensures Start(g) && IsRun(g, steps) && var now := After(g, steps);
            && now.live == OLD && now.holder.None? && now.history == []
            && now.phases == [Prepared(OLD, [FIRST]), Prepared(OLD, [SECOND]), Idle]
  {
    g := Global(OLD, [Idle, Idle, Idle], None, {1}, []);
    assert forall i :: 0 <= i < |OLD| ==> OLD[i] == Some(File(1, "a", 0x1a4));
    steps := PrepareLater(g, [], 0, FIRST);
    steps := PrepareLater(g, steps, 1, SECOND);
  }

  lemma OneChanges() returns (g: Global, steps: seq<Step>)
    ensures Start(g) && IsRun(g, steps) && var now := After(g, steps);
            && now.live == [Some(File(2, "b", 0x1a4))] && now.holder.None? && |now.history| == 1
            && now.history[0].before == OLD && now.history[0].after == now.live && now.history[0].publisher == 0
            && now.phases == [Committed, Prepared(OLD, [SECOND]), Idle]
  {
    g, steps := TwoPrepare();
    steps := PublishLater(g, steps, 0, FIRST, 2);
  }

  lemma AnotherRestores() returns (g: Global, steps: seq<Step>)
    ensures Start(g) && IsRun(g, steps) && var now := After(g, steps);
            && now.live == OLD && now.holder.None? && |now.history| == 2
            && now.history[0].before == OLD && Changes(now.history[0]) && now.history[0].publisher == 0
            && now.phases == [Committed, Prepared(OLD, [SECOND]), Committed]
  {
    g, steps := OneChanges();
    steps := PrepareLater(g, steps, 2, RESTORING);
    steps := PublishLater(g, steps, 2, RESTORING, 1);
  }

  /** A third publisher restores the first file under its old inode number: two publishers of one baseline commit. */
  lemma RecycledIdentityAdmitsTwo() returns (g: Global, steps: seq<Step>)
    ensures Start(g) && IsRun(g, steps)
    ensures var h := After(g, steps).history;
      |h| == 3 && h[0].before == h[2].before && Changes(h[0]) && Changes(h[2]) && h[0].publisher != h[2].publisher
  {
    g, steps := AnotherRestores();
    steps := PublishLater(g, steps, 1, SECOND, 3);
  }
}
