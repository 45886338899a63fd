/** The market-data worker and its supervisor, app/api/poll_engine.py, as interleaved atomic steps: everything
    between two awaits is one step. Times are milliseconds, waits are seconds. */
module PollEngine {
  import opened Basics

  datatype Incident = TickTimedOut | TickFailed | HeartbeatExpired | TaskDied | Recovered

  datatype Problem = StillRunning | Unexpected

  /** PollHealth, in process memory only. */
  datatype Health = Health(
    status: EngineStatus, startedAt: Option<int>, successAt: Option<int>, failures: nat, lastError: Option<Problem>,
    restarts: nat, heartbeatAlert: bool, timeoutAlert: bool)

  /** Where the worker stands between two steps. */
  datatype Phase = Ready | Awaiting | Sleeping(wait: real) | Dead | Finished | Cancelled

  datatype Watch = Watching | Restarting(wait: real) | Stopped

  /** `pending` is the future the worker has not let go of; `running` counts the ticks really executing; `misses` counts the
      failures of this worker since its last success; `submitted` all ticks ever started. */
  datatype Engine = Engine(
    health: Health, degraded: bool,
    phase: Phase, pending: bool, backoff: real, healthy: nat, misses: nat,
    watch: Watch, watchBackoff: real,
    running: nat, submitted: nat, incidents: seq<Incident>, now: int)

  datatype Config = Config(initial: real, max: real, interval: real, ticksToRecover: nat, maxAge: int)

  predicate ValidConfig(c: Config) {
    0.0 < c.initial <= c.max && c.interval > 0.0 && c.ticksToRecover >= 1 && c.maxAge > 0
  }

  datatype Event =
    | Submit            // the worker's loop: a new tick, or the pending one again
    | TimeOut           // the awaited tick is still running
    | Raise             // the awaited tick ended with an exception other than a TimeoutError
    | RaiseTimeout      // it ended with a TimeoutError of its own, which the worker takes for its own time limit
    | Return(noData: bool, malformed: bool)   // it ended with a result; a malformed one kills the worker task
    | Wake              // a sleep is over
    | Check             // the supervisor looks at the heartbeat
    | Notice            // the supervisor sees that the worker task ended
    | Restart           // it starts the next worker
    | ShutDown          // the supervisor is cancelled
    | LateEnd           // a tick outliving its cancelled worker ends
    | Elapse(ms: nat)

  predicate Expired(h: Health, maxAge: int, now: int) {
    var reference := if h.successAt.Some? then h.successAt else h.startedAt;
    reference.Some? && now - reference.value > maxAge
  }

  predicate Enabled(e: Engine, ev: Event) {
    match ev
    case Submit => e.phase.Ready?
    case TimeOut => e.phase.Awaiting?
    case Raise => e.phase.Awaiting? && e.running > 0
    case RaiseTimeout => e.phase.Awaiting? && e.running > 0
    case Return(noData, malformed) => e.phase.Awaiting? && e.running > 0 && !(noData && malformed)
    case Wake => e.phase.Sleeping?
    case Check => e.watch.Watching?
    case Notice => e.watch.Watching? && (e.phase.Dead? || e.phase.Finished?)
    case Restart => e.watch.Restarting?
    case ShutDown => !e.watch.Stopped?
    case LateEnd => e.phase.Cancelled? && e.running > 0
    case Elapse(_) => true
  }

  function Start(c: Config, now: int): Engine {
    Engine(Health(Iniciando, Some(now), None, 0, None, 0, false, false), false,
           Ready, false, c.initial, 0, 0, Watching, c.initial, 0, 0, [], now)
  }

  function Failing(e: Engine, c: Config, problem: Problem): Engine {
    e.(phase := Sleeping(Min(e.backoff, c.max)), backoff := Min(e.backoff * 2.0, c.max),
       healthy := 0, misses := e.misses + 1, degraded := true,
       health := e.health.(status := Degradado, failures := e.health.failures + 1, lastError := Some(problem)))
  }

  /** _maybe_recover, with the successes counted so far. */
  function MaybeRecovered(e: Engine, c: Config): Engine {
    var required := if e.health.status.Iniciando? then 1 else c.ticksToRecover;
    if e.health.status.Saudavel? || e.healthy < required then e
    else
      e.(degraded := false,
         health := e.health.(status := Saudavel, lastError := None, heartbeatAlert := false, timeoutAlert := false),
         incidents := if e.health.status in {Degradado, Parado} then e.incidents + [Recovered] else e.incidents)
  }

  function Resolved(e: Engine, c: Config): Engine {
    e.(pending := false, running := if e.running > 0 then e.running - 1 else 0,
       backoff := c.initial, misses := 0, healthy := e.healthy + 1,
       health := e.health.(timeoutAlert := false, successAt := Some(e.now), failures := 0))
  }

  function Succeeded(e: Engine, c: Config, noData: bool, malformed: bool): Engine {
    var recovered := MaybeRecovered(Resolved(e, c), c);
    if malformed then recovered.(phase := Dead)
    else if noData then recovered.(phase := Finished, health := recovered.health.(status := Parado))
    else recovered.(phase := Sleeping(c.interval))
  }

  function Submitted(e: Engine): Engine {
    if e.pending then e.(phase := Awaiting)
    else e.(phase := Awaiting, pending := true, running := e.running + 1, submitted := e.submitted + 1,
            health := e.health.(startedAt := Some(e.now)))
  }

  function TimedOut(e: Engine, c: Config): Engine {
    var failing := Failing(e, c, StillRunning);
    if e.health.timeoutAlert then failing
    else failing.(health := failing.health.(timeoutAlert := true), incidents := e.incidents + [TickTimedOut])
  }

  function Raised(e: Engine, c: Config): Engine {
    var failing := Failing(e, c, Unexpected);
    failing.(pending := false, running := if e.running > 0 then e.running - 1 else 0,
             health := failing.health.(timeoutAlert := false), incidents := e.incidents + [TickFailed])
  }

  function Checked(e: Engine, c: Config): Engine {
    var expired := Expired(e.health, c.maxAge, e.now);
    if expired && !e.health.heartbeatAlert then
      e.(degraded := true, health := e.health.(heartbeatAlert := true, status := Parado),
         incidents := e.incidents + [HeartbeatExpired])
    else if !expired && e.health.heartbeatAlert then e.(health := e.health.(heartbeatAlert := false))
    else e
  }

  function Noticed(e: Engine, c: Config): Engine {
    if e.phase.Finished? then e.(watch := Stopped)
    else
      e.(degraded := true, incidents := e.incidents + [TaskDied],
         health := e.health.(status := Parado, restarts := e.health.restarts + 1),
         watch := Restarting(Min(e.watchBackoff, c.max)), watchBackoff := Min(e.watchBackoff * 2.0, c.max))
  }

  function Restarted(e: Engine, c: Config): Engine {
    e.(watch := Watching, phase := Ready, pending := false, backoff := c.initial, healthy := 0, misses := 0,
       health := e.health.(startedAt := Some(e.now)))
  }

  function Step(e: Engine, ev: Event, c: Config): Engine
    requires Enabled(e, ev)
  {
    match ev
    case Submit => Submitted(e)
    case TimeOut => TimedOut(e, c)
    case Raise => Raised(e, c)
    case RaiseTimeout => TimedOut(e.(running := 0), c)
    case Return(noData, malformed) => Succeeded(e, c, noData, malformed)
    case Wake => e.(phase := Ready)
    case Check => Checked(e, c)
    case Notice => Noticed(e, c)
    case Restart => Restarted(e, c)
    case ShutDown =>
      e.(watch := Stopped, health := e.health.(status := Encerrando),
         phase := if e.phase.Dead? || e.phase.Finished? then e.phase else Cancelled)
    case LateEnd => e.(running := 0, pending := false)
    case Elapse(ms) => e.(now := e.now + ms)
  }

  /** Event i leads from state i to the next one. */
  ghost predicate Linked(es: seq<Engine>, evs: seq<Event>, c: Config, i: nat)
    requires |es| == |evs| + 1 && i < |evs|
  {
    Enabled(es[i], evs[i]) && es[i + 1] == Step(es[i], evs[i], c)
  }

  /** Consecutive states and the events between them. */
  ghost predicate Segment(es: seq<Engine>, evs: seq<Event>, c: Config) {
    |es| == |evs| + 1 && forall i :: 0 <= i < |evs| ==> Linked(es, evs, c, i)
  }

  ghost predicate Run(es: seq<Engine>, evs: seq<Event>, c: Config) {
    Segment(es, evs, c) && exists t :: es[0] == Start(c, t)
  }

  lemma {:induction false} RunStep(es: seq<Engine>, evs: seq<Event>, c: Config, k: nat)
    requires Segment(es, evs, c) && k < |evs|
    ensures Enabled(es[k], evs[k]) && es[k + 1] == Step(es[k], evs[k], c)
  {
    assert Linked(es, evs, c, k);
  }

  // ---- the invariant ----

  /** The initial wait doubled k times. */
  function Doubled(initial: real, k: nat): real {
    if k == 0 then initial else 2.0 * Doubled(initial, k - 1)
  }

  function Count(incidents: seq<Incident>, what: Incident): nat {
    multiset(incidents)[what]
  }

  ghost predicate OneTick(e: Engine) {
    && e.running <= 1 && (e.running == 1 ==> e.pending)
    && (e.phase.Awaiting? ==> e.pending)
    && (e.phase.Dead? || e.phase.Finished? ==> !e.pending)
    && (e.watch.Restarting? ==> e.phase.Dead?)
  }

  /** The worker holds on to a future that has long been done. */
  predicate Stuck(e: Engine) {
    e.pending && e.running == 0
  }

  /** Healthy means nothing stale: no alert, no error, not degraded, and proof of at least one tick. */
  ghost predicate HealthyIsClean(e: Engine) {
    e.health.status.Saudavel? ==>
      && !e.health.heartbeatAlert && !e.health.timeoutAlert && e.health.lastError.None?
      && !e.degraded && e.health.successAt.Some? && !Stuck(e)
  }

  /** The risk engine's flag against the status: they part only before the first success, at shutdown, and once a
      replay has run out. */
  ghost predicate FlagMatchesStatus(e: Engine) {
    match e.health.status
    case Iniciando => !e.degraded
    case Saudavel => !e.degraded
    case Degradado => e.degraded
    case Parado => e.degraded || e.phase.Finished?
    case Encerrando => true
  }

  ghost predicate TimeoutsAreEpisodes(e: Engine) {
    && (e.health.timeoutAlert ==> e.pending || e.phase.Cancelled?)
    && Count(e.incidents, TickTimedOut) + (if e.pending && !e.health.timeoutAlert then 1 else 0) <= e.submitted
  }

  ghost predicate BackoffLaw(e: Engine, c: Config) {
    && e.backoff > 0.0 && Min(e.backoff, c.max) == Min(Doubled(c.initial, e.misses), c.max)
    && e.watchBackoff > 0.0 && Min(e.watchBackoff, c.max) == Min(Doubled(c.initial, e.health.restarts), c.max)
  }

  ghost predicate Safe(e: Engine, c: Config) {
    OneTick(e) && HealthyIsClean(e) && FlagMatchesStatus(e) && TimeoutsAreEpisodes(e) && BackoffLaw(e, c)
  }

  lemma {:induction false} DoublingUnderTheCap(b: real, x: real, max: real)
    requires b > 0.0 && x > 0.0 && max > 0.0 && Min(b, max) == Min(x, max)
    ensures Min(Min(b * 2.0, max), max) == Min(2.0 * x, max)
  {
  }

  lemma {:induction false} DoubledIsPositive(initial: real, k: nat)
    requires initial > 0.0
    ensures Doubled(initial, k) > 0.0
    decreases k
  {
    if k == 0 {
    } else {
      DoubledIsPositive(initial, k - 1);
    }
  }

  lemma {:induction false} StepKeepsBackoff(e: Engine, ev: Event, c: Config)
    requires ValidConfig(c) && Enabled(e, ev) && BackoffLaw(e, c)
    ensures BackoffLaw(Step(e, ev, c), c)
  {
    DoubledIsPositive(c.initial, e.misses);
    DoubledIsPositive(c.initial, e.health.restarts);
    DoublingUnderTheCap(e.backoff, Doubled(c.initial, e.misses), c.max);
    DoublingUnderTheCap(e.watchBackoff, Doubled(c.initial, e.health.restarts), c.max);
  }

  lemma {:induction false} StepKeepsOneTick(e: Engine, ev: Event, c: Config)
    requires Enabled(e, ev) && OneTick(e)
    ensures OneTick(Step(e, ev, c))
  {
  }

  lemma {:induction false} StepKeepsStatus(e: Engine, ev: Event, c: Config)
    requires ValidConfig(c) && Enabled(e, ev) && OneTick(e) && HealthyIsClean(e) && FlagMatchesStatus(e)
    ensures HealthyIsClean(Step(e, ev, c)) && FlagMatchesStatus(Step(e, ev, c))
  {
  }

  lemma {:induction false} StepKeepsEpisodes(e: Engine, ev: Event, c: Config)
    requires Enabled(e, ev) && OneTick(e) && TimeoutsAreEpisodes(e)
    ensures TimeoutsAreEpisodes(Step(e, ev, c))
  {
  }

  lemma {:induction false} StepKeepsSafe(e: Engine, ev: Event, c: Config)
    requires ValidConfig(c) && Enabled(e, ev) && Safe(e, c)
    ensures Safe(Step(e, ev, c), c)
  {
    StepKeepsOneTick(e, ev, c);
    StepKeepsStatus(e, ev, c);
    StepKeepsEpisodes(e, ev, c);
    StepKeepsBackoff(e, ev, c);
  }

  lemma {:induction false} EveryRunIsSafe(es: seq<Engine>, evs: seq<Event>, c: Config, k: nat)
    requires ValidConfig(c) && Run(es, evs, c) && k < |es|
    ensures Safe(es[k], c)
    decreases k
  {
    if k == 0 {
    } else {
      EveryRunIsSafe(es, evs, c, k - 1);
      RunStep(es, evs, c, k - 1);
      StepKeepsSafe(es[k - 1], evs[k - 1], c);
    }
  }

  // ---- what it means over whole runs ----

  /** No tick is ever started while another one is executing, not even by the next worker. */
  lemma {:induction false} TicksNeverOverlap(es: seq<Engine>, evs: seq<Event>, c: Config, k: nat)
    requires ValidConfig(c) && Run(es, evs, c) && k < |evs|
    ensures es[k].running <= 1
    ensures es[k + 1].submitted > es[k].submitted ==> es[k].running == 0 && es[k + 1].submitted == es[k].submitted + 1
  {
    EveryRunIsSafe(es, evs, c, k);
    RunStep(es, evs, c, k);
  }

  lemma {:induction false} StuckStep(e: Engine, ev: Event, c: Config)
    requires Enabled(e, ev) && Stuck(e) && OneTick(e) && !e.health.status.Saudavel?
    ensures var after := Step(e, ev, c);
      && Stuck(after) && after.submitted == e.submitted
      && !after.health.status.Saudavel? && after.health.successAt == e.health.successAt
  {
  }

  /** A tick that ends with a TimeoutError of its own is taken for one still running: its finished future is awaited for
      ever, no tick is ever submitted again and the engine is never healthy again, whatever follows. */
  lemma {:induction false} ATimeoutErrorEndsTheTicks(es: seq<Engine>, evs: seq<Event>, c: Config, i: nat, j: nat)
    requires ValidConfig(c) && Run(es, evs, c) && i < j < |es| && evs[i] == RaiseTimeout
    ensures Stuck(es[j]) && es[j].submitted == es[i].submitted && es[j].health.successAt == es[i].health.successAt
    ensures Unhealthy(es[j].health, c.maxAge, es[j].now)
    decreases j
  {
    RunStep(es, evs, c, j - 1);
    EveryRunIsSafe(es, evs, c, j - 1);
    if j == i + 1 {
    } else {
      ATimeoutErrorEndsTheTicks(es, evs, c, i, j - 1);
      NotHealthyWhileStuck(es, evs, c, j - 1);
      StuckStep(es[j - 1], evs[j - 1], c);
    }
    NotHealthyWhileStuck(es, evs, c, j);
  }

  lemma {:induction false} NotHealthyWhileStuck(es: seq<Engine>, evs: seq<Event>, c: Config, k: nat)
    requires ValidConfig(c) && Run(es, evs, c) && k < |es| && Stuck(es[k])
    ensures !es[k].health.status.Saudavel?
  {
    EveryRunIsSafe(es, evs, c, k);
  }

  predicate Unhealthy(h: Health, maxAge: int, now: int) {
    !h.status.Saudavel? || Expired(h, maxAge, now)
  }

  /** New entries are authorised only by a tick that really succeeded, recently, with nothing wrong since. */
  lemma {:induction false} EntriesNeedARecentSuccess(es: seq<Engine>, evs: seq<Event>, c: Config, k: nat)
    requires ValidConfig(c) && Run(es, evs, c) && k < |es| && !Unhealthy(es[k].health, c.maxAge, es[k].now)
    ensures var h := es[k].health;
      && h.successAt.Some? && es[k].now - h.successAt.value <= c.maxAge
      && h.lastError == None && !h.heartbeatAlert && !h.timeoutAlert && !es[k].degraded
  {
    EveryRunIsSafe(es, evs, c, k);
  }

  /** A step records a timeout exactly when it raises the alert, which a timeout alone does; the alert falls only when
      the tick resolves. */
  lemma {:induction false} TimeoutReports(e: Engine, ev: Event, c: Config)
    requires Enabled(e, ev)
    ensures var after := Step(e, ev, c);
      && Count(after.incidents, TickTimedOut)
         == Count(e.incidents, TickTimedOut) + (if !e.health.timeoutAlert && after.health.timeoutAlert then 1 else 0)
      && (!e.health.timeoutAlert && after.health.timeoutAlert <==> ev in {TimeOut, RaiseTimeout} && !e.health.timeoutAlert)
      && (e.health.timeoutAlert && !after.health.timeoutAlert <==> e.health.timeoutAlert && (ev.Raise? || ev.Return?))
  {
  }

  /** However often a hung tick is checked again, it is reported once: from its start until it resolves there is
      exactly one report if any check found it running, and none otherwise. */
  lemma {:induction false} OneReportPerHungTick(es: seq<Engine>, evs: seq<Event>, c: Config, i: nat, j: nat)
    requires ValidConfig(c) && Run(es, evs, c) && i < j <= |evs|
    requires evs[i] == Submit && !es[i].pending
    requires forall k :: i < k < j ==> !evs[k].Raise? && !evs[k].Return?
    ensures Count(es[j].incidents, TickTimedOut)
      == Count(es[i].incidents, TickTimedOut) + if exists k :: i < k < j && evs[k] in {TimeOut, RaiseTimeout} then 1 else 0
    ensures es[j].health.timeoutAlert <==> exists k :: i < k < j && evs[k] in {TimeOut, RaiseTimeout}
    decreases j
  {
    RunStep(es, evs, c, j - 1);
    TimeoutReports(es[j - 1], evs[j - 1], c);
    if j == i + 1 {
      EveryRunIsSafe(es, evs, c, i);
    } else {
      OneReportPerHungTick(es, evs, c, i, j - 1);
      assert (exists k :: i < k < j && evs[k] in {TimeOut, RaiseTimeout}) <==>
        evs[j - 1] in {TimeOut, RaiseTimeout} || exists k :: i < k < j - 1 && evs[k] in {TimeOut, RaiseTimeout};
    }
  }

  /** A step records a heartbeat incident exactly when it raises the alert. */
  lemma {:induction false} HeartbeatReports(e: Engine, ev: Event, c: Config)
    requires Enabled(e, ev)
    ensures var after := Step(e, ev, c);
      Count(after.incidents, HeartbeatExpired)
      == Count(e.incidents, HeartbeatExpired) + if !e.health.heartbeatAlert && after.health.heartbeatAlert then 1 else 0
  {
  }

  lemma {:induction false} HeartbeatReportsAt(es: seq<Engine>, evs: seq<Event>, c: Config, k: nat)
    requires Segment(es, evs, c) && k < |evs|
    ensures Count(es[k + 1].incidents, HeartbeatExpired) ==
      Count(es[k].incidents, HeartbeatExpired) + if !es[k].health.heartbeatAlert && es[k + 1].health.heartbeatAlert then 1 else 0
  {
    RunStep(es, evs, c, k);
    HeartbeatReports(es[k], evs[k], c);
  }

  /** While the alert stays up, the episode is not reported again. */
  lemma {:induction false} OneReportPerHeartbeatEpisode(es: seq<Engine>, evs: seq<Event>, c: Config, i: nat, j: nat)
    requires Run(es, evs, c) && i <= j < |es|
    requires forall k :: i <= k <= j ==> es[k].health.heartbeatAlert
    ensures Count(es[j].incidents, HeartbeatExpired) == Count(es[i].incidents, HeartbeatExpired)
    decreases j
  {
    if i == j {
    } else {
      OneReportPerHeartbeatEpisode(es, evs, c, i, j - 1);
      HeartbeatReportsAt(es, evs, c, j - 1);
    }
  }

  /** After k failures in a row a worker sleeps min(initial * 2^k, max) before it looks again; so does the supervisor
      before its k-th restart. */
  lemma {:induction false} FailuresBackOff(es: seq<Engine>, evs: seq<Event>, c: Config, k: nat)
    requires ValidConfig(c) && Run(es, evs, c) && k < |evs|
    ensures evs[k] in {TimeOut, Raise, RaiseTimeout} ==>
      && es[k + 1].phase == Sleeping(Min(Doubled(c.initial, es[k].misses), c.max))
      && es[k + 1].misses == es[k].misses + 1
    ensures evs[k] == Notice && es[k].phase.Dead? ==>
      && es[k + 1].watch == Restarting(Min(Doubled(c.initial, es[k].health.restarts), c.max))
      && es[k + 1].health.restarts == es[k].health.restarts + 1
  {
    EveryRunIsSafe(es, evs, c, k);
    RunStep(es, evs, c, k);
  }

  // ---- recovery ----

  /** Nothing goes wrong in this step: no failure, no death, no newly expired heartbeat. */
  predicate Calm(e: Engine, ev: Event, c: Config) {
    match ev
    case Submit => true
    case Wake => true
    case Elapse(_) => true
    case Return(noData, malformed) => !noData && !malformed
    case Check => e.health.heartbeatAlert || !Expired(e.health, c.maxAge, e.now)
    case _ => false
  }

  function Successes(evs: seq<Event>): nat {
    if evs == [] then 0
    else Successes(evs[..|evs| - 1]) + if evs[|evs| - 1].Return? then 1 else 0
  }

  lemma {:induction false} CalmStep(e: Engine, ev: Event, c: Config, m: nat)
    requires ValidConfig(c) && Enabled(e, ev) && Calm(e, ev, c)
    requires e.health.status.Saudavel? || (e.healthy >= m && m < c.ticksToRecover)
    ensures var after, m' := Step(e, ev, c), m + if ev.Return? then 1 else 0;
      after.health.status.Saudavel? || (after.healthy >= m' && m' < c.ticksToRecover)
  {
  }

  lemma {:induction false} CalmSuccessesCount(es: seq<Engine>, evs: seq<Event>, c: Config, k: nat)
    requires ValidConfig(c) && Segment(es, evs, c) && k <= |evs|
    requires forall i :: 0 <= i < |evs| ==> Calm(es[i], evs[i], c)
    ensures es[k].health.status.Saudavel? || (es[k].healthy >= Successes(evs[..k]) && Successes(evs[..k]) < c.ticksToRecover)
    decreases k
  {
    if k == 0 {
    } else {
      CalmSuccessesCount(es, evs, c, k - 1);
      assert evs[..k][..k - 1] == evs[..k - 1];
      RunStep(es, evs, c, k - 1);
      CalmStep(es[k - 1], evs[k - 1], c, Successes(evs[..k - 1]));
    }
  }

  /** Enough successes with nothing wrong in between leave any state, DEGRADADO and PARADO included. */
  lemma {:induction false} EnoughSuccessesRecover(es: seq<Engine>, evs: seq<Event>, c: Config)
    requires ValidConfig(c) && Segment(es, evs, c)
    requires forall i :: 0 <= i < |evs| ==> Calm(es[i], evs[i], c)
    requires Successes(evs) >= c.ticksToRecover
    ensures es[|evs|].health.status.Saudavel?
  {
    CalmSuccessesCount(es, evs, c, |evs|);
    assert evs[..|evs|] == evs;
  }

  /** Exactly when one more success ends the trouble: the counter of successes in a row decides, and an expired
      heartbeat does not reset it. */
  lemma {:induction false} OneSuccessRecoversExactlyWhen(e: Engine, c: Config)
    requires ValidConfig(c) && Enabled(e, Return(false, false)) && e.health.status in {Degradado, Parado}
    ensures Step(e, Return(false, false), c).health.status.Saudavel? <==> e.healthy + 1 >= c.ticksToRecover
  {
  }

  /** So a worker stopped by its heartbeat after a long healthy spell is trusted again after a single success. */
  lemma {:induction false} HeartbeatStopCanEndAtOnce(e: Engine, c: Config)
    requires ValidConfig(c) && Safe(e, c) && e.phase.Awaiting? && e.watch.Watching? && e.health.status.Saudavel?
    requires Expired(e.health, c.maxAge, e.now)
    ensures var stopped := Step(e, Check, c);
      && stopped.health.status.Parado? && stopped.degraded
      && (Step(stopped, Return(false, false), c).health.status.Saudavel? <==> e.healthy + 1 >= c.ticksToRecover)
  {
    OneSuccessRecoversExactlyWhen(Step(e, Check, c), c);
  }

  // ---- the objects the steps update ----

  /** The worker's and the supervisor's variables, updated field by field between awaits. */
  class Loop {
    const config: Config
    var health: Health
    var degraded: bool
    var phase: Phase
    var pending: bool
    var backoff: real
    var healthy: nat
    var misses: nat
    var watch: Watch
    var watchBackoff: real
    var running: nat
    var submitted: nat
    var incidents: seq<Incident>
    var now: int

    constructor (config: Config, now: int)
      ensures this.config == config && View() == Start(config, now)
    {
      this.config, this.now := config, now;
      health := Health(Iniciando, Some(now), None, 0, None, 0, false, false);
      degraded, phase, pending, backoff, healthy, misses := false, Ready, false, config.initial, 0, 0;
      watch, watchBackoff, running, submitted, incidents := Watching, config.initial, 0, 0, [];
    }

    function View(): Engine
      reads this
    {
      Engine(health, degraded, phase, pending, backoff, healthy, misses, watch, watchBackoff, running, submitted, incidents, now)
    }

    method SubmitTick()
      requires Enabled(View(), Submit)
      modifies `health, `pending, `running, `submitted, `phase
      ensures View() == Submitted(old(View()))
    {
      if !pending {
        health := health.(startedAt := Some(now));
        pending := true;
        running, submitted := running + 1, submitted + 1;
      }
      phase := Awaiting;
    }

    /** What both failures have in common. */
    method CountFailure(problem: Problem)
      modifies `health, `healthy, `misses, `degraded, `phase, `backoff
      ensures View() == Failing(old(View()), config, problem)
    {
      healthy, misses, degraded := 0, misses + 1, true;
      health := health.(failures := health.failures + 1, status := Degradado, lastError := Some(problem));
      phase := Sleeping(Min(backoff, config.max));
      backoff := Min(backoff * 2.0, config.max);
    }

    /** The same branch for a tick that is still running and for one that `ended` with a TimeoutError of its own. */
    method OnTimeout(ended: bool)
      requires Enabled(View(), if ended then RaiseTimeout else TimeOut)
      modifies `health, `running, `healthy, `misses, `degraded, `incidents, `phase, `backoff
      ensures View() == Step(old(View()), if ended then RaiseTimeout else TimeOut, config)
    {
      if ended {
        running := 0;
      }
      CountFailure(StillRunning);
      if !health.timeoutAlert {
        health := health.(timeoutAlert := true);
        incidents := incidents + [TickTimedOut];
      }
    }

    method OnException()
      requires Enabled(View(), Raise)
      modifies `health, `pending, `running, `healthy, `misses, `degraded, `incidents, `phase, `backoff
      ensures View() == Raised(old(View()), config)
    {
      CountFailure(Unexpected);
      pending := false;
      running := running - 1;
      health := health.(timeoutAlert := false);
      incidents := incidents + [TickFailed];
    }

    method Resolve()
      modifies `health, `pending, `running, `healthy, `misses, `backoff
      ensures View() == Resolved(old(View()), config)
    {
      pending := false;
      running := if running > 0 then running - 1 else 0;
      health := health.(timeoutAlert := false, successAt := Some(now), failures := 0);
      backoff, misses := config.initial, 0;
      healthy := healthy + 1;
    }

    method MaybeRecover()
      modifies `health, `degraded, `incidents
      ensures View() == MaybeRecovered(old(View()), config)
    {
      if health.status.Saudavel? {
        return;
      }
      var wasBroken := health.status.Degradado? || health.status.Parado?;
      var required := if health.status.Iniciando? then 1 else config.ticksToRecover;
      if healthy < required {
        return;
      }
      health := health.(status := Saudavel, lastError := None, heartbeatAlert := false, timeoutAlert := false);
      degraded := false;
      if wasBroken {
        incidents := incidents + [Recovered];
      }
    }

    method OnResult(noData: bool, malformed: bool)
      requires Enabled(View(), Return(noData, malformed))
      modifies `health, `pending, `running, `healthy, `misses, `degraded, `incidents, `phase, `backoff
      ensures View() == Succeeded(old(View()), config, noData, malformed)
    {
      Resolve();
      MaybeRecover();
      if malformed {
        phase := Dead;
      } else if noData {
        health := health.(status := Parado);
        phase := Finished;
      } else {
        phase := Sleeping(config.interval);
      }
    }

    method CheckHeartbeat()
      requires Enabled(View(), Check)
      modifies `health, `degraded, `incidents
      ensures View() == Checked(old(View()), config)
    {
      var expired := Expired(health, config.maxAge, now);
      if expired && !health.heartbeatAlert {
        health := health.(heartbeatAlert := true, status := Parado);
        degraded := true;
        incidents := incidents + [HeartbeatExpired];
      } else if !expired && health.heartbeatAlert {
        health := health.(heartbeatAlert := false);
      }
    }

    method NoticeWorkerEnded()
      requires Enabled(View(), Notice)
      modifies `health, `degraded, `incidents, `watch, `watchBackoff
      ensures View() == Noticed(old(View()), config)
    {
      if phase.Finished? {
        watch := Stopped;
        return;
      }
      health := health.(status := Parado, restarts := health.restarts + 1);
      degraded := true;
      incidents := incidents + [TaskDied];
      watch := Restarting(Min(watchBackoff, config.max));
      watchBackoff := Min(watchBackoff * 2.0, config.max);
    }

    method RestartWorker()
      requires Enabled(View(), Restart)
      modifies `health, `phase, `pending, `backoff, `healthy, `misses, `watch
      ensures View() == Restarted(old(View()), config)
    {
      phase, pending, backoff, healthy, misses := Ready, false, config.initial, 0, 0;
      health := health.(startedAt := Some(now));
      watch := Watching;
    }
  }
}
