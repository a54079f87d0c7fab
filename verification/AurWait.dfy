/**
 * Waiting for the AUR index: one total monotonic deadline, bounded requests, growing back-off.
 * Transport, clock and sleeper are an arbitrary input that only moves time forward.
 */
module AurWait {
  import opened Wrappers
  import opened Versions

  const PACKAGE: string := "aros-tools-bin"
  const REQUEST_TIMEOUT: real := 20.0
  const CONNECT_TIMEOUT: real := 10.0

  // ----- responses -----

  datatype Entry = NotAnObject | Entry(name: Option<string>, version: Option<string>)

  /** The decoded body; `count` and `results` are absent when missing or of the wrong type. */
  datatype Document = Malformed | Document(count: Option<int>, results: Option<seq<Entry>>)

  datatype Judgement = Exact | Stale | Invalid

  /** `classify_response`. */
  function Classify(d: Document, expected: Version): Judgement { ClassifyBy(d, expected, ParseArch) }

  function ClassifyBy(d: Document, expected: Version, parse: string -> Option<Version>): Judgement {
    if d.Malformed? || d.count.None? || d.results.None? || d.count.value != |d.results.value| then Invalid
    else if d.results.value == [] then Stale
    else if |d.results.value| != 1 then Invalid
    else
      var package := d.results.value[0];
      if package.NotAnObject? || package.name != Some(PACKAGE) || package.version.None? then Invalid
      else
        var actual := parse(package.version.value);
        if actual.None? then Invalid
        else if actual.value == expected then Exact
        else if Before(actual.value, expected) then Stale
        else Invalid
  }

  /** The document lists this package once, with this version text, and says so. */
  ghost predicate Lists(d: Document, text: string) {
    d.Document? && d.count == Some(1) && d.results == Some([Entry(Some("aros-tools-bin"), Some(text))])
  }

  /** The list is empty, or names a canonical version that is lexicographically smaller. */
  ghost predicate Outdated(d: Document, expected: Version) {
    (d.Document? && d.count == Some(0) && d.results == Some([])) || exists text :: Lists(d, text) && Older(text, expected)
  }

  ghost predicate Older(text: string, expected: Version) {
    ParseArch(text).Some? && Lexicographic(Numbers(ParseArch(text).value), Numbers(expected))
  }

  /** Exactly what each judgement means. */
  lemma ClassifyExactly(d: Document, text: string)
    requires ParseArch(text).Some?
    ensures var expected := ParseArch(text).value;
      && (Classify(d, expected) == Exact <==> Lists(d, text))
      && (Classify(d, expected) == Stale <==> Outdated(d, expected))
      && (Classify(d, expected) == Invalid <==> !Lists(d, text) && !Outdated(d, expected))
  {
    if d.Document? && d.results.Some? && |d.results.value| == 1 {
      assert d.results.value == [d.results.value[0]];
      ClassifyOne(d, d.results.value[0], text);
    } else {
      ClassifyMany(d, ParseArch(text).value);
    }
  }

  lemma ClassifyMany(d: Document, expected: Version)
    requires !(d.Document? && d.results.Some? && |d.results.value| == 1)
    ensures forall text :: !Lists(d, text)
    ensures Classify(d, expected) == if Outdated(d, expected) then Stale else Invalid
  {
  }

  lemma ClassifyOne(d: Document, e: Entry, text: string)
    requires ParseArch(text).Some? && d.Document? && d.results == Some([e])
    ensures var expected := ParseArch(text).value;
      && (Classify(d, expected) == Exact <==> Lists(d, text))
      && (Classify(d, expected) == Stale <==> Outdated(d, expected))
  {
    var expected := ParseArch(text).value;
    ghost var older := (t: string) => Older(t, expected);
    forall listed
      ensures ParseArch(listed) == Some(expected) <==> listed == text
      ensures older(listed) <==> ParseArch(listed).Some? && Before(ParseArch(listed).value, expected)
    {
      JudgesText(listed, text, expected);
    }
    JudgesText(text, text, expected);
    JudgesListed(d, e, text, expected, ParseArch, older);
    assert Outdated(d, expected) <==> exists t :: Lists(d, t) && older(t);
  }

  /** One listed entry, whatever parses it. */
  lemma JudgesListed(
      d: Document, e: Entry, text: string, expected: Version, parse: string -> Option<Version>, older: string -> bool)
    requires d.Document? && d.results == Some([e]) && !older(text)
    requires forall listed :: parse(listed) == Some(expected) <==> listed == text
    requires forall listed :: older(listed) <==> parse(listed).Some? && Before(parse(listed).value, expected)
    ensures ClassifyBy(d, expected, parse) == Exact <==> Lists(d, text)
    ensures ClassifyBy(d, expected, parse) == Stale <==> exists t :: Lists(d, t) && older(t)
  {
    if e.Entry? && e.version.Some? {
      assert forall t :: Lists(d, t) ==> t == e.version.value;
      if ClassifyBy(d, expected, parse) == Stale { assert Lists(d, e.version.value) && older(e.version.value); }
    }
  }

  /** Of a listed canonical version: it is this text, or older, or neither. */
  lemma JudgesText(listed: string, text: string, expected: Version)
    requires ParseArch(text) == Some(expected)
    ensures ParseArch(listed) == Some(expected) <==> listed == text
    ensures Older(listed, expected) <==> ParseArch(listed).Some? && Before(ParseArch(listed).value, expected)
    ensures !Older(text, expected)
  {
    if ParseArch(listed) == Some(expected) { ParseArchInjective(listed, text); }
    if ParseArch(listed).Some? { BeforeIsLexicographic(ParseArch(listed).value, expected); }
    BeforeIsLexicographic(expected, expected);
    BeforeIsTotal(expected, expected, expected);
  }

  /** An exact answer names this package once, with exactly this version text. */
  lemma ExactMeansThisVersion(d: Document, text: string)
    requires ParseArch(text).Some? && Classify(d, ParseArch(text).value) == Exact
    ensures d.results == Some([Entry(Some(PACKAGE), Some(text))])
  {
    ParseArchInjective(text, d.results.value[0].version.value);
    assert d.results.value == [Entry(Some(PACKAGE), Some(text))];
  }

  datatype Retry = Seconds(amount: real) | Unbounded

  datatype Reply = Transient | Raises | Answer(status: int, retryAfter: Option<Retry>, body: Document)

  predicate Retryable(status: int) {
    status == 408 || status == 429 || 500 <= status <= 599
  }

  // ----- back-off -----

  function Backoff(i: nat): (b: real)
    ensures 10.0 <= b <= 60.0
  {
    if i == 0 then 10.0 else if i == 1 then 20.0 else if i == 2 then 40.0 else 60.0
  }

  /** The sum of the first `n` back-offs: the earliest start of request `n` after the first. */
  function BackoffSum(n: nat): (s: real)
    ensures s >= 10.0 * n as real
  {
    if n == 0 then 0.0 else BackoffSum(n - 1) + Backoff(n - 1)
  }

  lemma {:induction false} BackoffSumTail(n: nat)
    requires n >= 3
    ensures BackoffSum(n) == 70.0 + 60.0 * (n - 3) as real
  {
    if n == 3 {
      assert BackoffSum(1) == 10.0 && BackoffSum(2) == 30.0;
    } else {
      BackoffSumTail(n - 1);
    }
  }

  /** `max(backoff, retry_after)` cut to the remaining time. */
  function SleepFor(i: nat, retryAfter: Option<Retry>, remaining: real): (s: real)
    requires remaining > 0.0
    ensures 0.0 < s <= remaining && (s < remaining ==> s >= Backoff(i))
    ensures retryAfter.None? ==> s == MinReal(remaining, Backoff(i))
    ensures retryAfter.Some? && retryAfter.value.Seconds? ==>
      s == MinReal(remaining, if retryAfter.value.amount > Backoff(i) then retryAfter.value.amount else Backoff(i))
    ensures retryAfter.Some? && retryAfter.value.Unbounded? ==> s == remaining
  {
    var wanted := match retryAfter
      case None => Some(Backoff(i))
      case Some(Seconds(amount)) => Some(if amount > Backoff(i) then amount else Backoff(i))
      case Some(Unbounded) => None;
    if wanted.None? || wanted.value >= remaining then remaining else wanted.value
  }

  /** The header counts only on a status that asks for another try. */
  function RetryOf(reply: Reply): Option<Retry> {
    if reply.Answer? && Retryable(reply.status) then reply.retryAfter else None
  }

  // ----- replies -----

  predicate Found(reply: Reply, judge: Document -> Judgement, judgement: Judgement) {
    reply.Answer? && reply.status == 200 && judge(reply.body) == judgement
  }

  /** Answers after which the loop may wait and ask again. */
  predicate Waits(reply: Reply, judge: Document -> Judgement) {
    reply.Transient? || (reply.Answer? && Retryable(reply.status)) || Found(reply, judge, Stale)
  }

  /** A status that ends the wait at once. */
  predicate Fatal(reply: Reply) {
    reply.Answer? && !Retryable(reply.status) && reply.status != 200
  }

  // ----- one turn, by its clock readings -----

  /** How long each phase of a turn takes, and what the transport answers. */
  datatype Turn = Turn(idle: real, request: real, judging: real, settling: real, oversleep: real, reply: Reply) {
    predicate Forward() { idle >= 0.0 && request >= 0.0 && judging >= 0.0 && settling >= 0.0 && oversleep >= 0.0 }

    function Asked(from: real): real { from + idle }
    function Answered(from: real): real { Asked(from) + request }
    function Judged(from: real): real { Answered(from) + judging }

    /** The reading before the sleep; only a body that was read takes time to judge. */
    function Settled(from: real): real {
      (if reply.Answer? && reply.status == 200 then Judged(from) else Answered(from)) + settling
    }

    predicate InTime(from: real, deadline: real) { Asked(from) < deadline && Answered(from) < deadline }

    /** The turn ends in a sleep. */
    predicate Continues(from: real, deadline: real, judge: Document -> Judgement) {
      && InTime(from, deadline) && Waits(reply, judge)
      && (Found(reply, judge, Stale) ==> Judged(from) < deadline) && Settled(from) < deadline
    }

    predicate Succeeds(from: real, deadline: real, judge: Document -> Judgement) {
      InTime(from, deadline) && Found(reply, judge, Exact) && Judged(from) < deadline
    }

    predicate Breaks(from: real, deadline: real) {
      Asked(from) < deadline && (reply.Raises? || (Answered(from) < deadline && Fatal(reply)))
    }

    predicate Misreads(from: real, deadline: real, judge: Document -> Judgement) {
      InTime(from, deadline) && Found(reply, judge, Invalid)
    }

    /** The deadline is noticed at the reading `at`: before asking, after the answer, after judging, or before the sleep. */
    predicate Expires(from: real, deadline: real, judge: Document -> Judgement, at: real) {
      && at >= deadline
      && (|| at == Asked(from)
          || (Asked(from) < deadline && !reply.Raises? && at == Answered(from))
          || (InTime(from, deadline) && (Found(reply, judge, Exact) || Found(reply, judge, Stale)) && at == Judged(from))
          || (&& InTime(from, deadline) && Waits(reply, judge) && at == Settled(from)
              && (Found(reply, judge, Stale) ==> Judged(from) < deadline)))
    }

    /** How long the sleep of turn `i` lasts. */
    function NapLength(i: nat, from: real, deadline: real): real {
      if Settled(from) < deadline then SleepFor(i, RetryOf(reply), deadline - Settled(from)) else 0.0
    }

    function Wakes(i: nat, from: real, deadline: real): real {
      Settled(from) + NapLength(i, from, deadline) + oversleep
    }
  }

  datatype Request = Request(start: real, connectTimeout: real, timeout: real)

  datatype Nap = Nap(start: real, length: real)

  datatype Outcome = BadVersion | BadDeadline | TimedOut(at: real) | Permanent | InvalidIndex | Verified(at: real)

  function MinReal(a: real, b: real): real { if a <= b then a else b }

  /** The request made at a reading with this much time left. */
  function RequestAt(start: real, deadline: real): Request {
    var timeout := MinReal(REQUEST_TIMEOUT, deadline - start);
    Request(start, MinReal(CONNECT_TIMEOUT, timeout), timeout)
  }

  /** The outcome a turn stops with. */
  ghost predicate Stops(t: Turn, from: real, deadline: real, judge: Document -> Judgement, outcome: Outcome) {
    match outcome
    case TimedOut(at) => t.Expires(from, deadline, judge, at)
    case Permanent => t.Breaks(from, deadline)
    case InvalidIndex => t.Misreads(from, deadline, judge)
    case Verified(at) => t.Succeeds(from, deadline, judge) && at == t.Judged(from)
    case _ => false
  }

  /** Every turn either goes on or stops with one outcome, at one reading: nothing is left to the loop. */
  lemma TurnIsDecided(t: Turn, from: real, deadline: real, judge: Document -> Judgement, a: Outcome, b: Outcome)
    requires t.Forward() && Stops(t, from, deadline, judge, a)
    ensures !t.Continues(from, deadline, judge)
    ensures Stops(t, from, deadline, judge, b) ==> a == b
  {
  }

  /** What the status alone decides: 408, 429 and 5xx wait, every other one but 200 ends the wait. */
  lemma StatusDecides(t: Turn, from: real, deadline: real, judge: Document -> Judgement)
    requires t.reply.Answer? && t.InTime(from, deadline)
    ensures var s := t.reply.status;
      && (s == 408 || s == 429 || 500 <= s < 600 ==> (t.Continues(from, deadline, judge) <==> t.Settled(from) < deadline))
      && (s != 408 && s != 429 && !(500 <= s < 600) && s != 200 <==> t.Breaks(from, deadline))
  {
  }

  datatype Step = Stop(outcome: Outcome, made: seq<Request>) | Again(request: Request, nap: Nap, now: real)

  /** One turn of the loop, from the deadline test to the end of the sleep. */
  method OneTurn(from: real, deadline: real, n: nat, turn: Turn, judge: Document -> Judgement) returns (step: Step)
    requires turn.Forward()
    ensures step.Again? <==> turn.Continues(from, deadline, judge)
    ensures step.Again? ==>
      && step.request == RequestAt(turn.Asked(from), deadline)
      && step.nap == Nap(turn.Settled(from), turn.NapLength(n, from, deadline)) && step.now == turn.Wakes(n, from, deadline)
    ensures step.Stop? ==> Stops(turn, from, deadline, judge, step.outcome)
    ensures step.Stop? ==>
      step.made == if turn.Asked(from) < deadline then [RequestAt(turn.Asked(from), deadline)] else []
  {
    var start := from + turn.idle;
    if deadline - start <= 0.0 { return Stop(TimedOut(start), []); }
    var timeout := MinReal(REQUEST_TIMEOUT, deadline - start);
    var request := Request(start, MinReal(CONNECT_TIMEOUT, timeout), timeout);
    var now := start + turn.request;
    var retryAfter: Option<Retry> := None;
    match turn.reply {
      case Raises => return Stop(Permanent, [request]);
      case Transient =>
        if now >= deadline { return Stop(TimedOut(now), [request]); }
      case Answer(status, header, body) =>
        if now >= deadline { return Stop(TimedOut(now), [request]); }
        if Retryable(status) {
          retryAfter := header;
        } else if status != 200 {
          return Stop(Permanent, [request]);
        } else {
          var judgement := judge(body);
          if judgement == Invalid { return Stop(InvalidIndex, [request]); }
          now := now + turn.judging;
          if now >= deadline { return Stop(TimedOut(now), [request]); }
          if judgement == Exact { return Stop(Verified(now), [request]); }
        }
    }
    now := now + turn.settling;
    if deadline - now <= 0.0 { return Stop(TimedOut(now), [request]); }
    var length := SleepFor(n, retryAfter, deadline - now);
    step := Again(request, Nap(now, length), now + length + turn.oversleep);
  }

  // ----- one run -----

  /** A run is determined by what the transport and the clock do in each turn. */
  datatype Run = Run(turns: nat -> Turn, judge: Document -> Judgement, begin: real, deadline: real) {
    ghost predicate Forward() { forall i: nat :: turns(i).Forward() }

    /** The reading at which turn `n` begins. */
    function Clock(n: nat): real {
      if n == 0 then begin else turns(n - 1).Wakes(n - 1, Clock(n - 1), deadline)
    }

    predicate Continues(n: nat) { turns(n).Continues(Clock(n), deadline, judge) }

    /** All turns before `n` went on. */
    ghost predicate Waited(n: nat) { n == 0 || (Waited(n - 1) && Continues(n - 1)) }

    ghost predicate Succeeds(n: nat) { turns(n).Succeeds(Clock(n), deadline, judge) }
    ghost predicate Breaks(n: nat) { turns(n).Breaks(Clock(n), deadline) }
    ghost predicate Misreads(n: nat) { turns(n).Misreads(Clock(n), deadline, judge) }
    ghost predicate Expires(n: nat, at: real) { turns(n).Expires(Clock(n), deadline, judge, at) }

    /** After `n` sleeps the run ends with this outcome. */
    ghost predicate Ends(n: nat, outcome: Outcome) { Waited(n) && Stops(turns(n), Clock(n), deadline, judge, outcome) }

    /** Exactly the requests and sleeps of a run that ends after `n` sleeps. */
    ghost predicate Made(n: nat, requests: seq<Request>, naps: seq<Nap>) {
      naps == Naps(n) && requests == Requests(if turns(n).Asked(Clock(n)) < deadline then n + 1 else n)
    }

    function RequestOf(i: nat): Request { RequestAt(turns(i).Asked(Clock(i)), deadline) }

    function NapOf(i: nat): Nap { Nap(turns(i).Settled(Clock(i)), turns(i).NapLength(i, Clock(i), deadline)) }

    /** The requests of the first `n` turns. */
    ghost function Requests(n: nat): (r: seq<Request>)
      ensures |r| == n
    {
      if n == 0 then [] else Requests(n - 1) + [RequestOf(n - 1)]
    }

    /** The sleeps of the first `n` turns. */
    ghost function Naps(n: nat): (r: seq<Nap>)
      ensures |r| == n
    {
      if n == 0 then [] else Naps(n - 1) + [NapOf(n - 1)]
    }
  }

  /** The n-th turn cannot begin before the back-offs before it have passed, unless the time is over. */
  lemma {:induction false} ClockAdvances(run: Run, n: nat)
    requires run.Forward() && run.Waited(n)
    ensures run.Clock(n) >= run.deadline || run.Clock(n) >= run.begin + BackoffSum(n)
  {
    if n > 0 {
      ClockAdvances(run, n - 1);
      assert run.Continues(n - 1) && run.turns(n - 1).Forward();
    }
  }

  /** A run ends in one way only. */
  lemma EndsOnce(run: Run, m: nat, n: nat, a: Outcome, b: Outcome)
    requires run.Forward() && run.Ends(m, a) && run.Ends(n, b)
    ensures m == n && a == b
  {
    assert run.turns(m).Forward() && run.turns(n).Forward();
    TurnIsDecided(run.turns(m), run.Clock(m), run.deadline, run.judge, a, b);
    TurnIsDecided(run.turns(n), run.Clock(n), run.deadline, run.judge, b, a);
    assert !run.Continues(m) && !run.Continues(n);
    if m < n { WaitedAt(run, n, m); }
    if n < m { WaitedAt(run, m, n); }
  }

  lemma {:induction false} WaitedAt(run: Run, n: nat, i: nat)
    requires run.Waited(n) && i < n
    ensures run.Continues(i) && run.Waited(i)
  {
    if i < n - 1 { WaitedAt(run, n - 1, i); }
  }

  /** Every request and every sleep fits in the time that was left when it began. */
  ghost predicate WithinDeadline(requests: seq<Request>, naps: seq<Nap>, deadline: real) {
    && (forall i :: 0 <= i < |requests| ==>
          && requests[i].start < deadline
          && 0.0 < requests[i].connectTimeout <= requests[i].timeout <= 20.0 && requests[i].connectTimeout <= 10.0
          && requests[i].start + requests[i].timeout <= deadline)
    && (forall i :: 0 <= i < |naps| ==> naps[i].length > 0.0 && naps[i].start + naps[i].length <= deadline)
  }

  /** Request `i` starts no earlier than the back-offs before it allow. */
  ghost predicate Spaced(requests: seq<Request>, begin: real) {
    forall i :: 0 <= i < |requests| ==> requests[i].start >= begin + BackoffSum(i)
  }

  lemma RequestIsBounded(run: Run, n: nat)
    requires run.Forward() && run.Waited(n) && run.turns(n).Asked(run.Clock(n)) < run.deadline
    ensures var r := run.RequestOf(n);
      && r.start >= run.begin + BackoffSum(n) && r.start < run.deadline && r.connectTimeout <= 10.0
      && 0.0 < r.connectTimeout <= r.timeout <= 20.0 && r.start + r.timeout <= run.deadline
  {
    ClockAdvances(run, n);
    assert run.turns(n).Forward();
  }

  lemma NapIsBounded(run: Run, n: nat)
    requires run.Continues(n)
    ensures run.NapOf(n).length > 0.0 && run.NapOf(n).start + run.NapOf(n).length <= run.deadline
  {
  }

  lemma {:induction false} RequestsAreBounded(run: Run, n: nat)
    requires run.Forward() && (n > 0 ==> run.Waited(n - 1) && run.turns(n - 1).Asked(run.Clock(n - 1)) < run.deadline)
    ensures WithinDeadline(run.Requests(n), [], run.deadline) && Spaced(run.Requests(n), run.begin)
  {
    if n > 0 {
      if n > 1 { assert run.Continues(n - 2); }
      RequestsAreBounded(run, n - 1);
      RequestIsBounded(run, n - 1);
    }
  }

  lemma {:induction false} NapsAreBounded(run: Run, n: nat)
    requires run.Waited(n)
    ensures WithinDeadline([], run.Naps(n), run.deadline)
  {
    if n > 0 {
      NapsAreBounded(run, n - 1);
      NapIsBounded(run, n - 1);
    }
  }

  /** No run requests or sleeps past its deadline, and its requests are spaced by the back-offs. */
  lemma RunIsBounded(run: Run, n: nat, requests: seq<Request>, naps: seq<Nap>)
    requires run.Forward() && run.Waited(n) && run.Made(n, requests, naps)
    ensures WithinDeadline(requests, naps, run.deadline) && Spaced(requests, run.begin)
  {
    if n > 0 { assert run.Continues(n - 1); }
    RequestsAreBounded(run, |requests|);
    NapsAreBounded(run, n);
  }

  /** The polling loop computes its run: how it ends, and exactly what it requests and sleeps. */
  method Poll(ghost run: Run, allowed: real, turns: nat -> Turn, judge: Document -> Judgement, begin: real)
    returns (outcome: Outcome, requests: seq<Request>, naps: seq<Nap>)
    requires run == Run(turns, judge, begin, begin + allowed) && run.Forward() && allowed > 0.0
    ensures run.Ends(|naps|, outcome) && run.Made(|naps|, requests, naps)
  {
    requests, naps := [], [];
    var deadline := begin + allowed;
    var now, n := begin, 0;
    while true
      invariant now == run.Clock(n) && run.Waited(n) && requests == run.Requests(n) && naps == run.Naps(n)
      invariant n <= (allowed / 10.0).Floor + 1
      decreases (allowed / 10.0).Floor + 1 - n
    {
      var step := PerformTurn(run, now, deadline, n, turns(n), judge);
      if step.Stop? { return step.outcome, requests + step.made, naps; }
      TurnsAreFew(run, allowed, n);
      requests, naps := requests + [step.request], naps + [step.nap];
      now, n := step.now, n + 1;
    }
  }

  /** A turn of the loop is a turn of the run. */
  method PerformTurn(ghost run: Run, now: real, deadline: real, n: nat, turn: Turn, judge: Document -> Judgement) returns (step: Step)
    requires run.Forward() && run.Waited(n) && now == run.Clock(n)
    requires turn == run.turns(n) && judge == run.judge && deadline == run.deadline
    ensures step.Again? <==> run.Continues(n)
    ensures step.Again? ==> step.request == run.RequestOf(n) && step.nap == run.NapOf(n) && step.now == run.Clock(n + 1)
    ensures step.Stop? ==> run.Ends(n, step.outcome) && run.Made(n, run.Requests(n) + step.made, run.Naps(n))
  {
    step := OneTurn(now, deadline, n, turn, judge);
  }

  /** The loop bound used for termination: a turn can only go on while its back-offs fit. */
  lemma TurnsAreFew(run: Run, allowed: real, n: nat)
    requires run.Forward() && run.Waited(n) && run.Continues(n) && run.deadline == run.begin + allowed
    ensures n <= (allowed / 10.0).Floor
  {
    ClockAdvances(run, n);
    assert run.turns(n).Forward();
    assert 10.0 * n as real < allowed;
  }

  /** The decision for one stable version text. */
  function Decide(version: string): Document -> Judgement
    requires MatchStable(version).Some?
  {
    StableIsArch(version);
    var expected := ParseArch(version + "-1").value;
    (d: Document) => Classify(d, expected)
  }

  /** The decision for a stable version: exact, outdated or invalid, each in its case. */
  lemma DecidesExactly(version: string, d: Document)
    requires MatchStable(version).Some?
    ensures ParseArch(version + "-1").Some?
    ensures var expected := ParseArch(version + "-1").value;
      && (Decide(version)(d) == Exact <==> Lists(d, version + "-1"))
      && (Decide(version)(d) == Stale <==> Outdated(d, expected))
      && (Decide(version)(d) == Invalid <==> !Lists(d, version + "-1") && !Outdated(d, expected))
  {
    StableIsArch(version);
    ClassifyExactly(d, version + "-1");
  }

  /** Exact answers carry this very version text. */
  lemma DecidesThisVersion(version: string, d: Document)
    requires MatchStable(version).Some? && Decide(version)(d) == Exact
    ensures d.Document? && d.results == Some([Entry(Some(PACKAGE), Some(version + "-1"))])
  {
    StableIsArch(version);
    ExactMeansThisVersion(d, version + "-1");
  }

  /** What each outcome means, in both directions. */
  ghost predicate Explains(run: Run, outcome: Outcome) {
    && (outcome.Verified? <==> exists n: nat :: run.Waited(n) && run.Succeeds(n))
    && (outcome.InvalidIndex? <==> exists n: nat :: run.Waited(n) && run.Misreads(n))
    && (outcome.Permanent? <==> exists n: nat :: run.Waited(n) && run.Breaks(n))
    && (outcome.TimedOut? <==> exists n: nat, at: real :: run.Waited(n) && run.Expires(n, at))
  }

  lemma EndExplains(run: Run, n: nat, outcome: Outcome)
    requires run.Forward() && run.Ends(n, outcome)
    ensures Explains(run, outcome)
  {
    forall m: nat | run.Waited(m) && run.Succeeds(m) ensures outcome.Verified? {
      EndsOnce(run, m, n, Verified(run.turns(m).Judged(run.Clock(m))), outcome);
    }
    forall m: nat | run.Waited(m) && run.Misreads(m) ensures outcome.InvalidIndex? { EndsOnce(run, m, n, InvalidIndex, outcome); }
    forall m: nat | run.Waited(m) && run.Breaks(m) ensures outcome.Permanent? { EndsOnce(run, m, n, Permanent, outcome); }
    if outcome.TimedOut? { assert run.Expires(n, outcome.at); }
    forall m: nat, at | run.Waited(m) && run.Expires(m, at) ensures outcome.TimedOut? { EndsOnce(run, m, n, TimedOut(at), outcome); }
  }

  /** The document lists this package once, with this version text. */
  ghost predicate Names(d: Document, text: string) {
    d.Document? && d.results == Some([Entry(Some(PACKAGE), Some(text))])
  }

  /** The last reply names exactly this version, and it was seen after its request and before the deadline. */
  ghost predicate Confirmed(text: string, reply: Reply, request: Request, at: real, deadline: real) {
    request.start <= at < deadline && reply.Answer? && reply.status == 200 && Names(reply.body, text)
  }

  lemma VerifiedIsConfirmed(text: string, run: Run, n: nat, outcome: Outcome, requests: seq<Request>, naps: seq<Nap>)
    requires run.Forward() && forall d :: run.judge(d) == Exact ==> Names(d, text)
    requires outcome.Verified? && run.Ends(n, outcome) && run.Made(n, requests, naps)
    ensures |requests| == n + 1
    ensures Confirmed(text, run.turns(n).reply, requests[n], outcome.at, run.deadline)
  {
    assert run.turns(n).Forward() && run.Succeeds(n);
  }

  /** Everything a finished run means. */
  ghost predicate Complete(run: Run, text: string, outcome: Outcome, requests: seq<Request>, naps: seq<Nap>) {
    && Explains(run, outcome) && run.Ends(|naps|, outcome) && run.Made(|naps|, requests, naps)
    && WithinDeadline(requests, naps, run.deadline) && Spaced(requests, run.begin)
    && (outcome.Verified? ==>
          && |requests| == |naps| + 1
          && Confirmed(text, run.turns(|naps|).reply, requests[|naps|], outcome.at, run.deadline))
  }

  lemma RunIsComplete(run: Run, text: string, outcome: Outcome, requests: seq<Request>, naps: seq<Nap>)
    requires run.Forward() && forall d :: run.judge(d) == Exact ==> Names(d, text)
    requires run.Ends(|naps|, outcome) && run.Made(|naps|, requests, naps)
    ensures Complete(run, text, outcome, requests, naps)
  {
    EndExplains(run, |naps|, outcome);
    RunIsBounded(run, |naps|, requests, naps);
    if outcome.Verified? { VerifiedIsConfirmed(text, run, |naps|, outcome, requests, naps); }
  }

  /** The decision for a version, if it is a stable one. */
  method Judge(version: string) returns (judge: Option<Document -> Judgement>)
    ensures judge.None? <==> MatchStable(version).None?
    ensures judge.Some? ==> judge.value == Decide(version)
    ensures judge.Some? ==> forall d :: judge.value(d) == Exact ==> Names(d, version + "-1")
  {
    if MatchStable(version).None? { return None; }
    judge := Some(Decide(version));
    forall d | judge.value(d) == Exact ensures Names(d, version + "-1") { DecidesThisVersion(version, d); }
  }

  /** `wait_for_index`: every outcome exactly in its case; success needs exactly this version text, in time. */
  method WaitForIndex(version: string, allowed: real, begin: real, turns: nat -> Turn)
    returns (outcome: Outcome, requests: seq<Request>, naps: seq<Nap>)
    requires forall i: nat :: turns(i).Forward()
    ensures outcome == BadVersion <==> MatchStable(version).None?
    ensures outcome == BadDeadline <==> MatchStable(version).Some? && allowed <= 0.0
    ensures outcome == BadVersion || outcome == BadDeadline ==> requests == [] && naps == []
    ensures MatchStable(version).Some? && allowed > 0.0 ==>
      Complete(Run(turns, Decide(version), begin, begin + allowed), version + "-1", outcome, requests, naps)
    ensures allowed <= 1200.0 ==> |requests| <= 22
  {
    var judge := Judge(version);
    if judge.None? { return BadVersion, [], []; }
    if allowed <= 0.0 { return BadDeadline, [], []; }
    outcome, requests, naps := WaitDecided(version + "-1", judge.value, allowed, begin, turns);
  }

  method WaitDecided(text: string, judge: Document -> Judgement, allowed: real, begin: real, turns: nat -> Turn)
    returns (outcome: Outcome, requests: seq<Request>, naps: seq<Nap>)
    requires (forall i: nat :: turns(i).Forward()) && allowed > 0.0
    requires forall d :: judge(d) == Exact ==> Names(d, text)
    ensures outcome != BadVersion && outcome != BadDeadline
    ensures Complete(Run(turns, judge, begin, begin + allowed), text, outcome, requests, naps)
    ensures allowed <= 1200.0 ==> |requests| <= 22
  {
    ghost var run := Run(turns, judge, begin, begin + allowed);
    outcome, requests, naps := Poll(run, allowed, turns, judge, begin);
    RunIsComplete(run, text, outcome, requests, naps);
    if allowed <= 1200.0 { AtMostTwentyTwoRequests(requests, naps, begin, allowed); }
  }

  /** Under the production deadline of 1200 seconds at most 22 requests are made. */
  lemma AtMostTwentyTwoRequests(requests: seq<Request>, naps: seq<Nap>, begin: real, allowed: real)
    requires WithinDeadline(requests, naps, begin + allowed) && Spaced(requests, begin) && allowed <= 1200.0
    ensures |requests| <= 22
  {
    BackoffSumTail(22);
  }

  // ----- the bound is reached -----

  /** An index that answers at once, and never knows the package. */
  const EMPTY: Turn := Turn(0.0, 0.0, 0.0, 0.0, 0.0, Answer(200, None, Document(Some(0), Some([]))))

  lemma BackoffSumSmall(n: nat)
    requires n <= 21
    ensures BackoffSum(n) <= 1150.0 && (n < 21 ==> BackoffSum(n) + Backoff(n) <= 1150.0) && (n == 21 ==> BackoffSum(n) == 1150.0)
  {
    if n >= 3 { BackoffSumTail(n); } else { assert BackoffSum(1) == 10.0 && BackoffSum(2) == 30.0; }
  }

  /** On an empty index every sleep takes its full back-off until the last one. */
  lemma {:induction false} EmptyClock(run: Run, n: nat)
    requires run.deadline == run.begin + 1200.0 && run.judge(EMPTY.reply.body) == Stale
    requires (forall i: nat :: run.turns(i) == EMPTY) && n <= 21
    ensures run.Clock(n) == run.begin + BackoffSum(n) && run.Continues(n)
  {
    BackoffSumSmall(n);
    if n > 0 {
      EmptyClock(run, n - 1);
      BackoffSumSmall(n - 1);
      assert run.turns(n - 1) == EMPTY;
    }
    assert run.turns(n) == EMPTY;
  }

  /** The last sleep is cut to the remaining time, and then the time is over. */
  lemma EmptyEnds(run: Run)
    requires run.deadline == run.begin + 1200.0 && run.judge(EMPTY.reply.body) == Stale
    requires forall i: nat :: run.turns(i) == EMPTY
    ensures run.Ends(22, TimedOut(run.begin + 1200.0)) && run.turns(22).Asked(run.Clock(22)) >= run.deadline
  {
    EmptyWaits(run, 22);
    EmptyClock(run, 21);
    BackoffSumSmall(21);
    assert run.turns(21) == EMPTY && run.turns(22) == EMPTY;
    assert run.Clock(22) == run.begin + 1200.0;
    assert run.Expires(22, run.begin + 1200.0);
  }

  lemma {:induction false} EmptyWaits(run: Run, n: nat)
    requires run.deadline == run.begin + 1200.0 && run.judge(EMPTY.reply.body) == Stale
    requires (forall i: nat :: run.turns(i) == EMPTY) && n <= 22
    ensures run.Waited(n)
  {
    if n > 0 {
      EmptyWaits(run, n - 1);
      EmptyClock(run, n - 1);
    }
  }

  /** A real run of the loop makes 22 requests. */
  method TwentyTwoRequests(version: string, begin: real) returns (outcome: Outcome, requests: seq<Request>, naps: seq<Nap>)
    requires MatchStable(version).Some?
    ensures outcome == TimedOut(begin + 1200.0) && |requests| == 22
  {
    var turns := (i: nat) => EMPTY;
    ghost var run := Run(turns, Decide(version), begin, begin + 1200.0);
    outcome, requests, naps := WaitForIndex(version, 1200.0, begin, turns);
    EmptyEnds(run);
    EndsOnce(run, 22, |naps|, TimedOut(begin + 1200.0), outcome);
  }
}
