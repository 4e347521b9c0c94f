/** The circuit breaker around a remote call.

    `execute` awaits in the middle, so calls interleave; it is modelled by its two atomic halves,
    `Begin` (up to the call) and `Settle` (from its completion on).  What the breaker must do is
    said about the history of those steps alone; the class, with the fields of the original, is
    proved to follow it. */
module CircuitBreakers {

  datatype CircuitState = Closed | Open | HalfOpen

  /** How a call ended.  Only an infrastructure failure counts against the remote service; a domain
      error is the answer of a healthy one. */
  datatype Outcome = Success | DomainError | InfraFailure

  /** A call is named by the position of its attempt in the history. */
  datatype Event =
    | Attempt(now: int, admitted: bool)
    | Completion(now: int, call: nat, outcome: Outcome)

  type History = seq<Event>

  datatype BreakerSettings = Settings(failureThreshold: int, resetTimeoutMs: int)

  type Settings = s: BreakerSettings | s.failureThreshold >= 1 && s.resetTimeoutMs > 0 witness Settings(5, 10_000)

  // ---- What a history means -------------------------------------------------------------

  /** The length of the run of infrastructure failures that ends the completed calls. */
  function TrailingFailures(h: History): nat {
    if h == [] then 0
    else
      var init, last := h[..|h| - 1], h[|h| - 1];
      if last.Attempt? then TrailingFailures(init)
      else if last.outcome.InfraFailure? then TrailingFailures(init) + 1
      else 0
  }

  predicate Tripped(s: Settings, h: History) {
    TrailingFailures(h) >= s.failureThreshold
  }

  /** The calls admitted since the last completion. */
  function AdmittedSinceCompletion(h: History): nat {
    if h == [] || h[|h| - 1].Completion? then 0
    else AdmittedSinceCompletion(h[..|h| - 1]) + (if h[|h| - 1].admitted then 1 else 0)
  }

  function LastCompletion(h: History): int {
    if h == [] then 0
    else if h[|h| - 1].Completion? then h[|h| - 1].now
    else LastCompletion(h[..|h| - 1])
  }

  function StateAfter(s: Settings, h: History): CircuitState {
    if !Tripped(s, h) then Closed
    else if AdmittedSinceCompletion(h) == 0 then Open
    else HalfOpen
  }

  /** Whether a call attempted now reaches the network: always while the run of failures is short,
      else only as the first call a reset time after the failure that ended it. */
  predicate Admits(s: Settings, h: History, now: int) {
    || !Tripped(s, h)
    || (AdmittedSinceCompletion(h) == 0 && now - LastCompletion(h) >= s.resetTimeoutMs)
  }

  predicate IsPending(h: History, call: nat) {
    && call < |h|
    && h[call].Attempt? && h[call].admitted
    && forall i | call < i < |h| :: h[i].Completion? ==> h[i].call != call
  }

  // ---- The class ------------------------------------------------------------------------

  class CircuitBreaker {
    const settings: Settings
    var state: CircuitState
    var consecutiveFailures: int
    var openedAt: int
    var probeInFlight: bool
    ghost var history: History

    /** The fields are what the history says: the counter is the trailing run of failures, the
        circuit is closed exactly while that run is below the threshold, and the probe flag is up
        exactly in the half-open state.  The history is one that calls can produce. */
    ghost predicate Valid()
      reads this
    {
      && IsRun(settings, history)
      && consecutiveFailures == TrailingFailures(history)
      && state == StateAfter(settings, history)
      && (state != Closed ==> openedAt == LastCompletion(history))
      && (probeInFlight <==> state == HalfOpen)
    }

    constructor (settings: Settings)
      ensures Valid() && history == [] && this.settings == settings
    {
      this.settings := settings;
      state, consecutiveFailures, openedAt, probeInFlight := Closed, 0, 0, false;
      history := [];
    }

    /** The first half of `execute`: the call is let through or refused. */
    method Begin(now: int) returns (admitted: bool)
      requires Valid() && (history != [] ==> Clock(history) <= now)
      modifies this
      ensures Valid()
      ensures admitted == Admits(settings, old(history), now)
      ensures history == old(history) + [Attempt(now, admitted)]
    {
      admitted := true;
      if state == Open {
        if now - openedAt < settings.resetTimeoutMs {
          admitted := false;
        } else {
          Transition(HalfOpen);
        }
      }
      if state == HalfOpen {
        if probeInFlight {
          admitted := false;
        } else {
          probeInFlight := true;
        }
      }
      history := history + [Attempt(now, admitted)];
    }

    /** The second half of `execute`: the call came back. */
    method Settle(now: int, ghost call: nat, outcome: Outcome)
      requires Valid() && IsPending(history, call) && Clock(history) <= now
      modifies this
      ensures Valid()
      ensures history == old(history) + [Completion(now, call, outcome)]
    {
      if outcome.InfraFailure? {
        OnFailure(now);
      } else {
        OnSuccess();
      }
      probeInFlight := false;
      history := history + [Completion(now, call, outcome)];
    }

    method OnSuccess()
      modifies `state, `consecutiveFailures
      ensures consecutiveFailures == 0 && state == Closed
    {
      consecutiveFailures := 0;
      if state != Closed {
        Transition(Closed);
      }
    }

    method OnFailure(now: int)
      modifies `state, `consecutiveFailures, `openedAt
      ensures consecutiveFailures == old(consecutiveFailures) + 1
      ensures var trips := old(state) == HalfOpen || consecutiveFailures >= settings.failureThreshold;
        if trips then state == Open && openedAt == now else state == old(state) && openedAt == old(openedAt)
    {
      consecutiveFailures := consecutiveFailures + 1;
      if state == HalfOpen || consecutiveFailures >= settings.failureThreshold {
        openedAt := now;
        Transition(Open);
      }
    }

    method Transition(next: CircuitState)
      modifies `state
      ensures state == next
    {
      if state == next {
        return;
      }
      state := next;
    }
  }

  // ---- Runs -----------------------------------------------------------------------------

  function Clock(h: History): int {
    if h == [] then 0 else h[|h| - 1].now
  }

  /** A history some interleaving of calls can produce: the clock does not go back, attempts are
      admitted as the breaker decides, and only pending calls complete. */
  ghost predicate IsRun(s: Settings, h: History) {
    h != [] ==>
      var init, last := h[..|h| - 1], h[|h| - 1];
      && IsRun(s, init)
      && (init != [] ==> Clock(init) <= last.now)
      && (last.Attempt? ==> last.admitted == Admits(s, init, last.now))
      && (last.Completion? ==> IsPending(init, last.call))
  }

  lemma {:induction false} PrefixIsRun(s: Settings, h: History, n: nat)
    requires IsRun(s, h) && n <= |h|
    ensures IsRun(s, h[..n])
  {
    if n == |h| {
      assert h[..n] == h;
    } else {
      PrefixIsRun(s, h[..|h| - 1], n);
      assert h[..|h| - 1][..n] == h[..n];
    }
  }

  // ---- One probe per half-open episode --------------------------------------------------

  /** While the circuit is half open exactly one call was admitted since the last completion, as a probe
      of the tripped circuit; it is still pending, and every further attempt is refused. */
  lemma {:induction false} ProbeIsPending(s: Settings, h: History) returns (probe: nat)
    requires IsRun(s, h) && StateAfter(s, h) == HalfOpen
    ensures AdmittedSinceCompletion(h) == 1
    ensures IsPending(h, probe) && IsProbe(s, h, probe)
    ensures forall i | probe < i < |h| :: h[i].Attempt? && !h[i].admitted
    ensures forall now :: !Admits(s, h, now)
  {
    var init, last := h[..|h| - 1], h[|h| - 1];
    if last.admitted {
      probe := |h| - 1;
    } else {
      probe := ProbeIsPending(s, init);
      assert forall i | 0 <= i < |init| :: h[i] == init[i];
      assert init[..probe] == h[..probe];
    }
  }

  /** An admitted call that began while the circuit was tripped. */
  predicate IsProbe(s: Settings, h: History, call: nat) {
    call < |h| && h[call].Attempt? && h[call].admitted && Tripped(s, h[..call])
  }

  ghost predicate NoneInFlight(h: History) {
    forall call: nat :: !IsPending(h, call)
  }

  ghost predicate OnlyInFlight(h: History, probe: nat) {
    forall call: nat :: IsPending(h, call) <==> call == probe
  }

  /** Any call in flight can complete at any time, and its completion ends the episode: a failure opens
      the circuit again, every other outcome closes it. */
  lemma CompletionEndsTheEpisode(s: Settings, h: History, call: nat, now: int, outcome: Outcome)
    requires IsRun(s, h) && StateAfter(s, h) == HalfOpen && IsPending(h, call) && Clock(h) <= now
    ensures var h' := h + [Completion(now, call, outcome)];
      IsRun(s, h') && StateAfter(s, h') == if outcome.InfraFailure? then Open else Closed
  {
    var last := Completion(now, call, outcome);
    assert (h + [last])[..|h|] == h;
  }

  /** So the probe alone decides exactly when no call was in flight as it was admitted: then, and only
      then, it is the one call whose completion can end the episode. */
  lemma ProbeDecidesExactly(s: Settings, h: History) returns (probe: nat)
    requires IsRun(s, h) && StateAfter(s, h) == HalfOpen
    ensures IsPending(h, probe) && IsProbe(s, h, probe)
    ensures OnlyInFlight(h, probe) <==> NoneInFlight(h[..probe])
  {
    probe := ProbeIsPending(s, h);
    forall call: nat
      ensures IsPending(h, call) <==> call == probe || IsPending(h[..probe], call)
    {
      PendingBefore(h, probe, call);
    }
  }

  /** With only attempts after position `n`, a call from before it is pending if it was then. */
  lemma PendingBefore(h: History, n: nat, call: nat)
    requires n < |h| && forall i | n <= i < |h| :: h[i].Attempt?
    requires forall i | n < i < |h| :: !h[i].admitted
    ensures call < n ==> (IsPending(h, call) <==> IsPending(h[..n], call))
    ensures call > n ==> !IsPending(h, call)
  {
    assert forall i | 0 <= i < n :: h[..n][i] == h[i];
  }

  /** What one event does to the calls in flight. */
  lemma PendingAfterEvent(init: History, last: Event, call: nat)
    ensures IsPending(init + [last], call) <==>
      if call == |init| then last.Attempt? && last.admitted
      else IsPending(init, call) && (last.Completion? ==> last.call != call)
  {
    var h := init + [last];
    assert h[|init|] == last && forall i | 0 <= i < |init| :: h[i] == init[i];
    if IsPending(init, call) && (last.Completion? ==> last.call != call) {
      assert forall i | call < i < |h| :: h[i] == if i < |init| then init[i] else last;
    }
  }

  /** Over a whole outage: if no call was in flight when the circuit opened, then up to the next closing
      none is in flight while it is open, and the probe alone while it is half open. */
  lemma {:induction false} EpisodesAreTheProbes(s: Settings, h: History, p: nat) returns (probe: nat)
    requires IsRun(s, h) && p <= |h| && StateAfter(s, h[..p]) == Open && NoneInFlight(h[..p])
    requires forall n | p <= n <= |h| :: StateAfter(s, h[..n]) != Closed
    ensures StateAfter(s, h) == Open ==> NoneInFlight(h)
    ensures StateAfter(s, h) == HalfOpen ==> IsProbe(s, h, probe) && OnlyInFlight(h, probe)
    decreases |h|
  {
    probe := 0;
    assert h[..|h|] == h;
    if p < |h| {
      var init, last := h[..|h| - 1], h[|h| - 1];
      assert h == init + [last];
      assert forall n | p <= n <= |init| :: init[..n] == h[..n];
      probe := EpisodesAreTheProbes(s, init, p);
      forall call: nat {
        PendingAfterEvent(init, last, call);
      }
      if StateAfter(s, init) == Open {
        probe := |init|;
      } else {
        var _ := ProbeIsPending(s, init);
        assert init[..probe] == h[..probe];
      }
    }
  }

  /** The breaker never sticks: a reset time after the last completion it admits exactly when it is not
      half open; so once no probe is pending, whatever stale calls hang. */
  lemma NeverSticks(s: Settings, h: History, now: int)
    requires IsRun(s, h) && now >= LastCompletion(h) + s.resetTimeoutMs
    ensures Admits(s, h, now) <==> StateAfter(s, h) != HalfOpen
    ensures (forall call: nat :: IsProbe(s, h, call) ==> !IsPending(h, call)) ==> Admits(s, h, now)
  {
    if StateAfter(s, h) == HalfOpen {
      var probe := ProbeIsPending(s, h);
      assert IsProbe(s, h, probe) && IsPending(h, probe);
    }
  }

  // ---- How many calls reach a service that stays down -----------------------------------

  function AdmittedCount(h: History): nat {
    if h == [] then 0
    else AdmittedCount(h[..|h| - 1]) + (if h[|h| - 1].Attempt? && h[|h| - 1].admitted then 1 else 0)
  }

  predicate NoHealthyCompletion(h: History) {
    forall e <- h :: e.Completion? ==> e.outcome.InfraFailure?
  }

  /** From a moment `p` at which the circuit is open, as long as no call completes healthily: the
      calls admitted since then are a reset time apart from each other and from the opening. */
  lemma {:induction false} AdmissionsAreSpaced(s: Settings, h: History, p: nat)
    requires IsRun(s, h) && p <= |h| && StateAfter(s, h[..p]) == Open
    requires NoHealthyCompletion(h[p..])
    ensures Tripped(s, h)
    ensures var spaced := LastCompletion(h[..p]) + AdmittedCount(h[p..]) * s.resetTimeoutMs;
      && spaced <= Clock(h)
      && (AdmittedSinceCompletion(h) == 0 ==> spaced <= LastCompletion(h))
    decreases |h|
  {
    if p == |h| {
      assert h[..p] == h;
      OpenedInThePast(s, h);
    } else {
      var init, last := h[..|h| - 1], h[|h| - 1];
      assert init[..p] == h[..p];
      assert h[p..][..|h[p..]| - 1] == init[p..] && h[p..][|h[p..]| - 1] == last;
      AdmissionsAreSpaced(s, init, p);
      assert last in h[p..];
      if last.Attempt? && last.admitted {
        assert (AdmittedCount(init[p..]) + 1) * s.resetTimeoutMs
            == AdmittedCount(init[p..]) * s.resetTimeoutMs + s.resetTimeoutMs;
      }
    }
  }

  /** Any two of them, not only on average: while nothing completes healthily each admission is a reset
      time after every earlier one that found the circuit tripped. */
  lemma ProbesAreSpaced(s: Settings, h: History, i: nat, j: nat)
    requires IsRun(s, h) && IsProbe(s, h, i) && i < j < |h| && h[j].Attempt? && h[j].admitted
    requires NoHealthyCompletion(h[i..j])
    ensures h[i].now + s.resetTimeoutMs <= h[j].now
  {
    PrefixIsRun(s, h, j);
    PrefixIsRun(s, h, j + 1);
    assert h[..j + 1][..j] == h[..j];
    TrippedSince(s, h, i, j);
    CompletedSince(s, h, i, j);
  }

  lemma {:induction false} TrippedSince(s: Settings, h: History, i: nat, n: nat)
    requires i <= n <= |h| && Tripped(s, h[..i]) && NoHealthyCompletion(h[i..n])
    ensures Tripped(s, h[..n])
    decreases n
  {
    if i < n {
      assert forall e | e in h[i..n - 1] :: e in h[i..n];
      TrippedSince(s, h, i, n - 1);
      assert h[..n][..n - 1] == h[..n - 1];
      assert h[n - 1] in h[i..n];
    }
  }

  /** If nothing was admitted since the last completion, that completion came after every admission. */
  lemma {:induction false} CompletedSince(s: Settings, h: History, i: nat, n: nat)
    requires i < n <= |h| && IsRun(s, h[..n]) && h[i].Attempt? && h[i].admitted
    ensures AdmittedSinceCompletion(h[..n]) == 0 ==> h[i].now <= LastCompletion(h[..n])
    ensures h[i].now <= Clock(h[..n])
    decreases n
  {
    assert h[..n][..n - 1] == h[..n - 1];
    if i < n - 1 {
      CompletedSince(s, h, i, n - 1);
    }
  }

  lemma {:induction false} OpenedInThePast(s: Settings, h: History)
    requires IsRun(s, h) && Tripped(s, h)
    ensures h != [] && LastCompletion(h) <= Clock(h)
  {
    if h[|h| - 1].Attempt? {
      OpenedInThePast(s, h[..|h| - 1]);
    }
  }

  /** The rate bound: if the circuit is open since `t0` and no call completes healthily up to `T`,
      at most `(T - t0) / resetTimeoutMs` calls reach the network in that interval, whatever the
      interleaving and however late stale calls fail. */
  lemma RateBound(s: Settings, h: History, p: nat, T: int)
    requires IsRun(s, h) && p <= |h| && StateAfter(s, h[..p]) == Open
    requires NoHealthyCompletion(h[p..]) && Clock(h) <= T
    ensures AdmittedCount(h[p..]) <= (T - LastCompletion(h[..p])) / s.resetTimeoutMs
  {
    AdmissionsAreSpaced(s, h, p);
    QuotientBound(AdmittedCount(h[p..]), s.resetTimeoutMs, T - LastCompletion(h[..p]));
  }

  lemma QuotientBound(k: nat, m: nat, x: int)
    requires m > 0 && k * m <= x
    ensures k <= x / m
  {
    MoreIsMore(x / m + 1, k, m);
  }

  lemma MoreIsMore(a: int, b: int, m: nat)
    ensures a <= b ==> a * m <= b * m
  {
    if a <= b {
      assert (b - a) * m >= 0;
    }
  }

  /** The bound is met: probing a dead service at the first chance each time makes `k` calls in `k`
      reset times. */
  lemma {:induction false} RateBoundIsMet(s: Settings, start: History, k: nat) returns (h: History)
    requires IsRun(s, start) && StateAfter(s, start) == Open && start[|start| - 1].Completion?
    ensures IsRun(s, h) && |start| <= |h| && h[..|start|] == start && NoHealthyCompletion(h[|start|..])
    ensures AdmittedCount(h[|start|..]) == k
    ensures h[|h| - 1].Completion? && StateAfter(s, h) == Open
    ensures Clock(h) == Clock(start) + k * s.resetTimeoutMs
    decreases k
  {
    var n := |start|;
    if k == 0 {
      h := start;
      assert h[..n] == start && h[n..] == [];
    } else {
      var g := RateBoundIsMet(s, start, k - 1);
      var now := Clock(g) + s.resetTimeoutMs;
      h := FailedProbe(s, g);
      Extended(g, [Attempt(now, true), Completion(now, |g|, InfraFailure)], n);
      CountTwoMore(g[n..], now, |g|);
      assert k * s.resetTimeoutMs == (k - 1) * s.resetTimeoutMs + s.resetTimeoutMs;
    }
  }

  /** One probe a reset time after the last failure, failing at once. */
  lemma FailedProbe(s: Settings, g: History) returns (h: History)
    requires IsRun(s, g) && StateAfter(s, g) == Open && g[|g| - 1].Completion?
    ensures var now := Clock(g) + s.resetTimeoutMs;
      h == g + [Attempt(now, true), Completion(now, |g|, InfraFailure)]
    ensures IsRun(s, h) && StateAfter(s, h) == Open && Clock(h) == Clock(g) + s.resetTimeoutMs
  {
    var now := Clock(g) + s.resetTimeoutMs;
    var probed := g + [Attempt(now, true)];
    h := probed + [Completion(now, |g|, InfraFailure)];
    assert probed[..|g|] == g && h[..|probed|] == probed;
    assert IsRun(s, probed);
    assert TrailingFailures(h) == TrailingFailures(probed) + 1 == TrailingFailures(g) + 1;
  }

  lemma Extended(g: History, tail: History, n: nat)
    requires n <= |g|
    ensures (g + tail)[..n] == g[..n] && (g + tail)[n..] == g[n..] + tail
  {}

  lemma CountTwoMore(h: History, now: int, call: nat)
    ensures AdmittedCount(h + [Attempt(now, true), Completion(now, call, InfraFailure)]) == AdmittedCount(h) + 1
  {
    var all := h + [Attempt(now, true), Completion(now, call, InfraFailure)];
    assert all[..|all| - 1] == h + [Attempt(now, true)];
    assert all[..|all| - 1][..|h|] == h;
  }

  // ---- What does not hold ---------------------------------------------------------------

  /** A history in which `k` calls failed while the first call still hangs: the circuit is open from the
      failure on that reaches the threshold. */
  lemma {:induction false} FailuresWhileOneHangs(s: Settings, k: nat) returns (h: History)
    requires k <= s.failureThreshold
    ensures IsRun(s, h) && IsPending(h, 0) && Clock(h) == 0 && TrailingFailures(h) == k
    ensures k > 0 ==> AdmittedSinceCompletion(h) == 0 && LastCompletion(h) == 0
    ensures StateAfter(s, h) == if k < s.failureThreshold then Closed else Open
    decreases k
  {
    if k == 0 {
      h := [Attempt(0, true)];
      assert h[..0] == [];
    } else {
      var g := FailuresWhileOneHangs(s, k - 1);
      var called := g + [Attempt(0, true)];
      h := called + [Completion(0, |g|, InfraFailure)];
      assert called[..|g|] == g && h[..|called|] == called;
      PendingAfterEvent(g, Attempt(0, true), 0);
      PendingAfterEvent(called, Completion(0, |g|, InfraFailure), 0);
    }
  }

  /** The probe alone does not decide, at any setting: a call left over from the closed state can be
      pending beside the probe, and its success closes the circuit. */
  lemma StaleCallDecides(s: Settings) returns (h: History, stale: nat, probe: nat)
    ensures IsRun(s, h) && StateAfter(s, h) == HalfOpen
    ensures stale != probe && IsPending(h, stale) && IsPending(h, probe) && IsProbe(s, h, probe)
    ensures var h' := h + [Completion(Clock(h), stale, Success)]; IsRun(s, h') && StateAfter(s, h') == Closed
  {
    var g := FailuresWhileOneHangs(s, s.failureThreshold);
    var last := Attempt(s.resetTimeoutMs, true);
    h, stale, probe := g + [last], 0, |g|;
    assert h[..|g|] == g;
    PendingAfterEvent(g, last, 0);
    PendingAfterEvent(g, last, |g|);
    CompletionEndsTheEpisode(s, h, stale, Clock(h), Success);
  }
}
