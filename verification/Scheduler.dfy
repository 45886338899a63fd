/** The round-robin scheduler over one orchestrator per symbol and its per-symbol health machine, from
    app/orchestrator.py. Symbols are their positions in the configured order. */
module Scheduler {
  import opened Basics

  datatype TickStatus =
    | RetryableError | FatalError | GapDetected
    | IncompleteBucket
    | NoNewCandle | DuplicateCandle | NoData | Processed

  /** A tick's result; `bucketComplete` says that it finished a complete strategic bucket. */
  datatype TickResult = TickResult(status: TickStatus, bucketComplete: bool)

  datatype Health = Health(
    status: EngineStatus, failures: nat, lastError: Option<TickStatus>, eligibleAgainAt: Option<int>, hasGap: bool,
    operationalGaps: nat, incompleteBuckets: nat, successAt: Option<int>, persistedAt: Option<int>)

  const NEW_SYMBOL := Health(Iniciando, 0, None, None, false, 0, 0, None, None)

  const PARADO_THRESHOLD: nat := 3

  predicate Failed(r: TickResult) {
    r.status in {RetryableError, FatalError, GapDetected}
  }

  /** _update_health as one function of the result. */
  function Updated(h: Health, now: int, r: TickResult, backoff: int): Health {
    if Failed(r) then
      var failures := h.failures + 1;
      var gap := r.status == GapDetected;
      h.(failures := failures, lastError := Some(r.status), hasGap := gap,
         operationalGaps := h.operationalGaps + (if gap then 1 else 0),
         status := if failures >= PARADO_THRESHOLD then Parado else Degradado,
         eligibleAgainAt := if failures >= PARADO_THRESHOLD then Some(now + backoff) else h.eligibleAgainAt)
    else
      var ok := h.(eligibleAgainAt := None, successAt := Some(now), failures := 0,
                   persistedAt := if r.status in {NoNewCandle, DuplicateCandle, NoData} then h.persistedAt else Some(now));
      if r.status == IncompleteBucket then
        ok.(hasGap := true, incompleteBuckets := h.incompleteBuckets + 1, lastError := Some(r.status), status := Degradado)
      else if h.hasGap && !r.bucketComplete then ok.(status := Degradado)
      else ok.(lastError := None, hasGap := false, status := Saudavel)
  }

  /** Whether a symbol takes its turn; only a PARADO symbol inside its back-off is passed over. */
  predicate Eligible(h: Health, now: int) {
    !(h.status.Parado? && h.eligibleAgainAt.Some? && now < h.eligibleAgainAt.value)
  }

  // ---- health ----

  ghost predicate SoundHealth(h: Health) {
    && (h.status.Saudavel? ==> !h.hasGap && h.failures == 0 && h.lastError == None && h.eligibleAgainAt == None)
    && (h.status.Parado? ==> h.failures >= PARADO_THRESHOLD && h.lastError.Some? && h.eligibleAgainAt.Some?)
    && (h.failures >= PARADO_THRESHOLD ==> h.status.Parado?)
  }

  function AfterTicks(results: seq<(int, TickResult)>, backoff: int): Health {
    if results == [] then NEW_SYMBOL
    else
      var (now, r) := results[|results| - 1];
      Updated(AfterTicks(results[..|results| - 1], backoff), now, r, backoff)
  }

  /** The failures at the end of a history of ticks. */
  function FailingStreak(results: seq<(int, TickResult)>): nat {
    if results == [] || !Failed(results[|results| - 1].1) then 0
    else 1 + FailingStreak(results[..|results| - 1])
  }

  /** After any history of ticks: SAUDAVEL means no gap, no failure and no error, and PARADO means exactly three or
      more failures in a row. */
  lemma {:induction false} HealthMeansWhatItSays(results: seq<(int, TickResult)>, backoff: int)
    ensures var h := AfterTicks(results, backoff);
      && SoundHealth(h)
      && h.failures == FailingStreak(results)
      && (h.status.Parado? <==> FailingStreak(results) >= PARADO_THRESHOLD)
    decreases |results|
  {
    if results == [] {
    } else {
      HealthMeansWhatItSays(results[..|results| - 1], backoff);
    }
  }

  /** Exactly when a recorded gap is forgotten: by a complete bucket on a tick that did not fail, but also by any
      failure that is not itself a gap. */
  lemma {:induction false} GapIsClearedExactlyWhen(h: Health, now: int, r: TickResult, backoff: int)
    requires h.hasGap
    ensures !Updated(h, now, r, backoff).hasGap <==>
      r.status in {RetryableError, FatalError} || (!Failed(r) && r.status != IncompleteBucket && r.bucketComplete)
  {
  }

  /** So one transport error between a gap and the next candle makes the symbol healthy again although no bucket was
      ever completed. */
  lemma {:induction false} AnErrorForgetsTheGap(h: Health, t: int, u: int, backoff: int, r: TickResult)
    requires h.hasGap && r.status in {NoNewCandle, DuplicateCandle, NoData, Processed}
    ensures Updated(Updated(h, t, TickResult(RetryableError, false), backoff), u, r, backoff).status.Saudavel?
    ensures !r.bucketComplete ==> Updated(h, u, r, backoff).status.Degradado?
  {
  }

  // ---- turns ----

  /** One call: where the index stood, who could take a turn, and who did. */
  datatype Turn = Turn(index: nat, eligible: set<nat>, ticked: Option<nat>)

  function Succ(i: nat, n: nat): nat {
    if i + 1 == n then 0 else i + 1
  }

  /** Steps from the index to a symbol, going round. */
  function Distance(index: nat, i: nat, n: nat): nat
    requires index < n && i < n
  {
    if i >= index then i - index else i + n - index
  }

  /** A call ticks the eligible symbol nearest to the index going round, or nobody when none is eligible. */
  ghost predicate Fair(t: Turn, n: nat) {
    && t.index < n && (forall i <- t.eligible :: i < n)
    && match t.ticked
       case None => t.eligible == {}
       case Some(i) => i in t.eligible && forall j <- t.eligible :: Distance(t.index, i, n) <= Distance(t.index, j, n)
  }

  function IndexAfter(t: Turn, n: nat): nat {
    match t.ticked case None => t.index case Some(i) => Succ(i, n)
  }

  ghost predicate Schedule(turns: seq<Turn>, n: nat) {
    && (forall k :: 0 <= k < |turns| ==> Fair(turns[k], n))
    && forall k, l :: 0 <= k < |turns| && l == k + 1 < |turns| ==> turns[l].index == IndexAfter(turns[k], n)
  }

  /** The symbol is eligible, and passed over, in every one of the calls. */
  ghost predicate Waiting(turns: seq<Turn>, s: nat) {
    forall k :: 0 <= k < |turns| ==> s in turns[k].eligible && turns[k].ticked != Some(s)
  }

  /** While an eligible symbol waits, every call brings the index strictly closer to it. */
  lemma {:induction false} WaitingShrinks(t: Turn, s: nat, n: nat)
    requires Fair(t, n) && s in t.eligible && t.ticked != Some(s)
    ensures t.ticked.Some? && IndexAfter(t, n) < n
    ensures Distance(IndexAfter(t, n), s, n) < Distance(t.index, s, n)
  {
    assert t.ticked.Some? && Distance(t.index, t.ticked.value, n) <= Distance(t.index, s, n);
  }

  lemma {:induction false} DistanceFalls(turns: seq<Turn>, s: nat, n: nat, k: nat)
    requires Schedule(turns, n) && Waiting(turns, s) && k < |turns|
    ensures Distance(turns[k].index, s, n) + k <= Distance(turns[0].index, s, n)
    decreases k
  {
    if k == 0 {
    } else {
      DistanceFalls(turns, s, n, k - 1);
      WaitingShrinks(turns[k - 1], s, n);
      assert turns[k].index == IndexAfter(turns[k - 1], n);
    }
  }

  /** Bounded waiting: among n symbols nobody who stays eligible is passed over n times, whatever mixture of
      back-offs the others are in. */
  lemma {:induction false} NobodyWaitsForever(turns: seq<Turn>, s: nat, n: nat)
    requires Schedule(turns, n) && |turns| >= n && n > 0
    requires forall k :: 0 <= k < |turns| ==> s in turns[k].eligible
    ensures exists k :: 0 <= k < n && turns[k].ticked == Some(s)
  {
    if forall k :: 0 <= k < n ==> turns[k].ticked != Some(s) {
      var first := turns[..n];
      assert Waiting(first, s);
      var last := n - 1;
      assert Fair(turns[last], n);
      WaitingShrinks(turns[last], s, n);
      DistanceFalls(first, s, n, last);
    }
  }

  /** Fairness between two turns: while an eligible symbol waits, no other symbol is ticked twice. */
  lemma {:induction false} NobodyOvertakesTwice(turns: seq<Turn>, s: nat, n: nat, k: nat, l: nat)
    requires Schedule(turns, n) && Waiting(turns, s) && k < l < |turns|
    ensures turns[k].ticked.Some? && turns[k].ticked != turns[l].ticked
  {
    WaitingShrinks(turns[k], s, n);
    WaitingShrinks(turns[l], s, n);
    assert turns[k + 1].index == IndexAfter(turns[k], n);
    DistanceFallsBetween(turns, s, n, k + 1, l);
  }

  lemma {:induction false} DistanceFallsBetween(turns: seq<Turn>, s: nat, n: nat, k: nat, l: nat)
    requires Schedule(turns, n) && Waiting(turns, s) && k <= l < |turns|
    ensures turns[k].index < n && s < n
    ensures Distance(turns[l].index, s, n) <= Distance(turns[k].index, s, n)
    decreases l
  {
    assert Fair(turns[k], n);
    if k == l {
    } else {
      DistanceFallsBetween(turns, s, n, k, l - 1);
      WaitingShrinks(turns[l - 1], s, n);
      assert turns[l].index == IndexAfter(turns[l - 1], n);
    }
  }

  // ---- the scheduler object ----

  function EligibleSet(health: seq<Health>, now: int): set<nat> {
    set i: nat | i < |health| && Eligible(health[i], now)
  }

  predicate PortfolioHealthy(health: seq<Health>) {
    forall h <- health :: h.status.Saudavel? && !h.hasGap
  }

  /** The worst status of any symbol, as the dashboard shows it. */
  function Aggregated(health: seq<Health>): EngineStatus {
    if exists h <- health :: h.status.Encerrando? then Encerrando
    else if exists h <- health :: h.status.Parado? then Parado
    else if exists h <- health :: h.status.Degradado? then Degradado
    else if exists h <- health :: h.status.Iniciando? then Iniciando
    else Saudavel
  }

  /** Entries are gated portfolio-wide: the gate is open only when the aggregated status is SAUDAVEL. */
  lemma {:induction false} OneSickSymbolClosesTheGate(health: seq<Health>)
    requires forall h <- health :: SoundHealth(h)
    ensures PortfolioHealthy(health) <==> Aggregated(health) == Saudavel
  {
    if Aggregated(health) == Saudavel {
      forall h | h in health
        ensures h.status.Saudavel? && !h.hasGap
      {
        assert h.status in {Iniciando, Saudavel, Degradado, Parado, Encerrando};
      }
    } else {
      assert exists h <- health :: !h.status.Saudavel?;
    }
  }

  class MultiSymbol {
    const n: nat
    const backoff: int
    var index: nat
    var health: seq<Health>
    var engineDegraded: bool
    var degraded: seq<bool>   // the flag of each symbol's own orchestrator

    ghost predicate Valid()
      reads this
    {
      n > 0 && index < n && |health| == n && |degraded| == n
    }

    constructor (n: nat, backoff: int)
      requires n > 0
      ensures Valid() && this.n == n && this.backoff == backoff
      ensures index == 0 && !engineDegraded && forall h <- health :: h == NEW_SYMBOL
    {
      this.n, this.backoff, index, engineDegraded := n, backoff, 0, false;
      health := seq(n, _ => NEW_SYMBOL);
      degraded := seq(n, _ => false);
    }

    /** The engine_degraded setter the poll worker uses: unconditional, for every symbol. */
    method SetEngineDegraded(value: bool)
      requires Valid()
      modifies `engineDegraded, `degraded
      ensures Valid() && engineDegraded == value && forall i :: 0 <= i < n ==> degraded[i] == value
    {
      engineDegraded := value;
      degraded := seq(n, _ => value);
    }

    method SyncEngineDegraded()
      requires Valid()
      modifies `degraded
      ensures Valid() && forall i :: 0 <= i < n ==> degraded[i] == (engineDegraded || !PortfolioHealthy(health))
    {
      var value := engineDegraded || !PortfolioHealthy(health);
      degraded := seq(n, _ => value);
    }

    method UpdateHealth(i: nat, now: int, r: TickResult)
      requires Valid() && i < n
      modifies `health
      ensures Valid() && health == old(health)[i := Updated(old(health[i]), now, r, backoff)]
    {
      var h := health[i];
      if Failed(r) {
        h := h.(failures := h.failures + 1, lastError := Some(r.status));
        if r.status == GapDetected {
          h := h.(hasGap := true, operationalGaps := h.operationalGaps + 1);
        } else {
          h := h.(hasGap := false);
        }
        if h.failures >= PARADO_THRESHOLD {
          h := h.(status := Parado, eligibleAgainAt := Some(now + backoff));
        } else {
          h := h.(status := Degradado);
        }
        health := health[i := h];
        return;
      }
      h := h.(eligibleAgainAt := None, successAt := Some(now));
      if r.status !in {NoNewCandle, DuplicateCandle, NoData} {
        h := h.(persistedAt := Some(now));
      }
      if r.status == IncompleteBucket {
        h := h.(failures := 0, hasGap := true, incompleteBuckets := h.incompleteBuckets + 1,
                lastError := Some(r.status), status := Degradado);
      } else if h.hasGap && !r.bucketComplete {
        h := h.(failures := 0, status := Degradado);
      } else {
        h := h.(failures := 0, lastError := None, hasGap := false, status := Saudavel);
      }
      health := health[i := h];
    }

    /** One scheduler call; `tick` is what each symbol's orchestrator would return, at `later`. */
    method Tick(now: int, later: int, tick: nat -> TickResult) returns (ticked: Option<nat>)
      requires Valid()
      modifies `index, `health, `degraded
      ensures Valid()
      ensures var turn := Turn(old(index), EligibleSet(old(health), now), ticked);
        Fair(turn, n) && index == IndexAfter(turn, n)
      ensures ticked.None? ==> health == old(health) && degraded == old(degraded)
      ensures ticked.Some? ==>
        && ticked.value < n
        && health == old(health)[ticked.value := Updated(old(health)[ticked.value], later, tick(ticked.value), backoff)]
        && forall i :: 0 <= i < n ==> degraded[i] == (engineDegraded || !PortfolioHealthy(old(health)))
    {
      ghost var start := index;
      for passed := 0 to n
        invariant Valid() && health == old(health) && degraded == old(degraded)
        invariant passed < n ==> Distance(start, index, n) == passed
        invariant passed == n ==> index == start
        invariant forall j: nat :: j < n && Distance(start, j, n) < passed ==> !Eligible(health[j], now)
      {
        var i := index;
        index := (index + 1) % n;
        NextIndex(start, i, n);
        if Eligible(health[i], now) {
          SyncEngineDegraded();
          UpdateHealth(i, later, tick(i));
          return Some(i);
        }
        forall j: nat | j < n && Distance(start, j, n) < passed + 1
          ensures !Eligible(health[j], now)
        {
          if Distance(start, j, n) == passed {
            assert j == i;
          }
        }
      }
      return None;
    }
  }

  lemma {:induction false} NextIndex(start: nat, i: nat, n: nat)
    requires start < n && i < n
    ensures (i + 1) % n == Succ(i, n)
    ensures Distance(start, i, n) + 1 < n ==> Distance(start, Succ(i, n), n) == Distance(start, i, n) + 1
    ensures Distance(start, i, n) + 1 == n ==> Succ(i, n) == start
  {
    if i + 1 < n {
      assert (i + 1) % n == i + 1;
    } else {
      assert n % n == 0;
    }
  }
}
