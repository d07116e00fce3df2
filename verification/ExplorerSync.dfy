/**
 * Keeping the block explorer on the running node: the serial queue of rebuild jobs
 * (`syncExplorer`) and the watcher that starts them (`followNode`).
 */
module ExplorerSync {
  import opened Options

  datatype Status = Idle | Syncing | Ready | Failed | Unavailable

  datatype SyncState = SyncState(status: Status, chainId: Option<nat>, port: Option<nat>)

  /** A node's identity, as the watcher and the explorer configuration know it. */
  datatype Target = Target(chainId: nat, port: nat)

  datatype Config = Config(chainId: Option<nat>, port: Option<nat>)

  datatype Phase = Waiting | Running | Settled

  /** A rebuild, and the rebuild whose end it waits for. */
  datatype Job = Job(target: Target, after: Option<nat>, phase: Phase)

  datatype Outcome = CameUp | TimedOut | Threw

  datatype Explorer = Explorer(
    state: SyncState,
    jobs: seq<Job>,
    pending: Option<nat>,
    lastSeen: Option<Target>,
    lastFollowAt: int,
    cachedAt: int,
    cached: Config
  )

  const FOLLOW_COOLDOWN_MS := 60_000
  const CONFIG_CACHE_TTL_MS := 5_000

  const INITIAL := Explorer(SyncState(Idle, None, None), [], None, None, 0, 0, Config(None, None))

  /**
   * An observation of the running node: what was seen, the three times the clock is
   * read, and what the container would say of its configuration.
   */
  datatype Sighting = Sighting(target: Target, readAt: int, checkedAt: int, followedAt: int, container: Config)

  datatype Event =
    | Call(target: Target, composePresent: bool)
    | Observe(sighting: Sighting, composePresent: bool)
    | Start(job: nat)
    | Finish(job: nat, outcome: Outcome)

  // ---------- Steps ----------

  /** A call marks the state and queues a job behind whatever is pending. */
  function Synced(e: Explorer, target: Target, composePresent: bool): Explorer {
    if !composePresent then
      e.(state := SyncState(Unavailable, Some(target.chainId), Some(target.port)))
    else
      e.(state := SyncState(Syncing, Some(target.chainId), Some(target.port)),
         jobs := e.jobs + [Job(target, e.pending, Waiting)],
         pending := Some(|e.jobs|))
  }

  /** The configuration the follower goes by: cached for five seconds. */
  function KnownConfig(e: Explorer, s: Sighting): Config {
    if s.readAt - e.cachedAt < CONFIG_CACHE_TTL_MS then e.cached else s.container
  }

  /** An observation counts unless a rebuild is in progress. */
  predicate Accepted(e: Explorer) {
    e.state.status != Syncing
  }

  predicate Differs(config: Config, target: Target) {
    config.chainId.Some? && config.port.Some? && config != Config(Some(target.chainId), Some(target.port))
  }

  predicate Triggers(e: Explorer, s: Sighting) {
    && Accepted(e)
    && e.lastSeen == Some(s.target)
    && Differs(KnownConfig(e, s), s.target)
    && s.checkedAt - e.lastFollowAt >= FOLLOW_COOLDOWN_MS
  }

  /**
   * What starts a rebuild: none is in progress; the node was seen the last time too; the
   * configuration, as cached or else as the container has it, names a chain and a port
   * and not both are the node's; and a minute has passed since the last follow.
   */
  ghost predicate FollowIsDue(e: Explorer, s: Sighting) {
    && e.state.status != Syncing
    && e.lastSeen == Some(s.target)
    && (var known := if s.readAt - e.cachedAt < 5_000 then e.cached else s.container;
        && known.chainId.Some? && known.port.Some?
        && !(known.chainId.value == s.target.chainId && known.port.value == s.target.port))
    && s.checkedAt >= e.lastFollowAt + 60_000
  }

  lemma DueIsTriggered(e: Explorer, s: Sighting)
    ensures FollowIsDue(e, s) <==> Triggers(e, s)
  {}

  function Observed(e: Explorer, s: Sighting, composePresent: bool): Explorer {
    if !Accepted(e) then e
    else
      var seen := e.(lastSeen := Some(s.target));
      if e.lastSeen != Some(s.target) then seen
      else
        var read := if s.readAt - e.cachedAt < CONFIG_CACHE_TTL_MS then seen
                    else seen.(cachedAt := s.readAt, cached := s.container);
        if Triggers(e, s) then Synced(read.(lastFollowAt := s.followedAt), s.target, composePresent) else read
  }

  /** A job may start once the one it waits for has settled, well or badly. */
  predicate MayStart(e: Explorer, job: nat) {
    && job < |e.jobs|
    && e.jobs[job].phase == Waiting
    && (e.jobs[job].after.Some? ==>
          e.jobs[job].after.value < |e.jobs| && e.jobs[e.jobs[job].after.value].phase == Settled)
  }

  function Started(e: Explorer, job: nat): Explorer
    requires MayStart(e, job)
  {
    e.(jobs := e.jobs[job := e.jobs[job].(phase := Running)])
  }

  predicate MayFinish(e: Explorer, job: nat) {
    job < |e.jobs| && e.jobs[job].phase == Running
  }

  /** A finished job says what became of its own target; one that did not throw forgets the cached configuration. */
  function Finished(e: Explorer, job: nat, outcome: Outcome): Explorer
    requires MayFinish(e, job)
  {
    var target := e.jobs[job].target;
    var done := e.(
      jobs := e.jobs[job := e.jobs[job].(phase := Settled)],
      state := SyncState(if outcome == CameUp then Ready else Failed, Some(target.chainId), Some(target.port)));
    if outcome == Threw then done else done.(cachedAt := 0)
  }

  predicate Possible(e: Explorer, event: Event) {
    match event
    case Call(_, _) => true
    case Observe(s, _) => s.readAt <= s.checkedAt <= s.followedAt
    case Start(job) => MayStart(e, job)
    case Finish(job, _) => MayFinish(e, job)
  }

  /** What an event does; one that cannot happen does nothing. */
  function Next(e: Explorer, event: Event): Explorer {
    if !Possible(e, event) then e
    else
      match event
      case Call(target, composePresent) => Synced(e, target, composePresent)
      case Observe(s, composePresent) => Observed(e, s, composePresent)
      case Start(job) => Started(e, job)
      case Finish(job, outcome) => Finished(e, job, outcome)
  }

  /** The module's own variables, and the steps that reassign them. */
  class SyncStore {
    var state: SyncState
    var jobs: seq<Job>
    var pending: Option<nat>
    var lastSeen: Option<Target>
    var lastFollowAt: int
    var cachedAt: int
    var cached: Config

    ghost function Value(): Explorer
      reads this
    {
      Explorer(state, jobs, pending, lastSeen, lastFollowAt, cachedAt, cached)
    }

    constructor ()
      ensures Value() == INITIAL
    {
      state := SyncState(Idle, None, None);
      jobs, pending := [], None;
      lastSeen, lastFollowAt := None, 0;
      cachedAt, cached := 0, Config(None, None);
    }

    method SyncExplorer(target: Target, composePresent: bool)
      modifies this
      ensures Value() == Synced(old(Value()), target, composePresent)
      ensures state ==
        SyncState(if composePresent then Syncing else Unavailable, Some(target.chainId), Some(target.port))
      ensures jobs == old(jobs) + (if composePresent then [Job(target, old(pending), Waiting)] else [])
      ensures pending == if composePresent then Some(|old(jobs)|) else old(pending)
    {
      if !composePresent {
        state := SyncState(Unavailable, Some(target.chainId), Some(target.port));
        return;
      }
      state := SyncState(Syncing, Some(target.chainId), Some(target.port));
      jobs := jobs + [Job(target, pending, Waiting)];
      pending := Some(|jobs| - 1);
    }

    method ReadExplorerConfig(now: int, container: Config) returns (config: Config)
      modifies this`cachedAt, this`cached
      ensures config == if now - old(cachedAt) < 5_000 then old(cached) else container
      ensures cached == config
      ensures cachedAt == if now - old(cachedAt) < 5_000 then old(cachedAt) else now
    {
      if now - cachedAt < CONFIG_CACHE_TTL_MS {
        return cached;
      }
      cachedAt, cached := now, container;
      config := container;
    }

    method FollowNode(s: Sighting, composePresent: bool) returns (followed: bool)
      modifies this
      ensures Value() == Observed(old(Value()), s, composePresent)
      ensures followed == Triggers(old(Value()), s)
      ensures followed <==> FollowIsDue(old(Value()), s)
      ensures lastSeen == if old(state).status == Syncing then old(lastSeen) else Some(s.target)
      ensures
        var stable := old(state).status != Syncing && old(lastSeen) == Some(s.target);
        var asks := stable && s.readAt - old(cachedAt) >= 5_000;
        && cachedAt == (if asks then s.readAt else old(cachedAt))
        && cached == (if asks then s.container else old(cached))
      ensures state ==
        if followed then
          SyncState(if composePresent then Syncing else Unavailable, Some(s.target.chainId), Some(s.target.port))
        else
          old(state)
      ensures lastFollowAt == if followed then s.followedAt else old(lastFollowAt)
      ensures jobs == old(jobs) + (if followed && composePresent then [Job(s.target, old(pending), Waiting)] else [])
    {
      DueIsTriggered(Value(), s);
      followed := false;
      if state.status == Syncing {
        return;
      }
      var stable := lastSeen == Some(s.target);
      lastSeen := Some(s.target);
      if !stable {
        return;
      }
      var config := ReadExplorerConfig(s.readAt, s.container);
      if config.chainId.None? || config.port.None? {
        return;
      }
      if config.chainId == Some(s.target.chainId) && config.port == Some(s.target.port) {
        return;
      }
      if s.checkedAt - lastFollowAt < FOLLOW_COOLDOWN_MS {
        return;
      }
      lastFollowAt := s.followedAt;
      SyncExplorer(s.target, composePresent);
      followed := true;
    }

    method RunJob(job: nat)
      requires MayStart(Value(), job)
      modifies this`jobs
      ensures Value() == Started(old(Value()), job)
      ensures jobs == old(jobs)[job := Job(old(jobs)[job].target, old(jobs)[job].after, Running)]
    {
      jobs := jobs[job := jobs[job].(phase := Running)];
    }

    method EndJob(job: nat, outcome: Outcome)
      requires MayFinish(Value(), job)
      modifies this
      ensures Value() == Finished(old(Value()), job, outcome)
      ensures
        var target := old(jobs)[job].target;
        && state == SyncState(if outcome == CameUp then Ready else Failed, Some(target.chainId), Some(target.port))
        && jobs == old(jobs)[job := Job(target, old(jobs)[job].after, Settled)]
        && cachedAt == (if outcome == Threw then old(cachedAt) else 0) && cached == old(cached)
    {
      var target := jobs[job].target;
      if outcome != Threw {
        cachedAt := 0;
      }
      state := SyncState(if outcome == CameUp then Ready else Failed, Some(target.chainId), Some(target.port));
      jobs := jobs[job := jobs[job].(phase := Settled)];
    }
  }

  // ---------- Runs ----------

  ghost function After(e: Explorer, events: seq<Event>): Explorer {
    if events == [] then e else Next(After(e, events[..|events| - 1]), events[|events| - 1])
  }

  ghost predicate IsRun(e: Explorer, events: seq<Event>) {
    events == [] ||
    (IsRun(e, events[..|events| - 1]) && Possible(After(e, events[..|events| - 1]), events[|events| - 1]))
  }

  lemma {:induction false} OneMore(e: Explorer, events: seq<Event>, event: Event)
    ensures After(e, events + [event]) == Next(After(e, events), event)
    ensures IsRun(e, events + [event]) <==> IsRun(e, events) && Possible(After(e, events), event)
  {
    assert (events + [event])[..|events|] == events;
  }

  ghost predicate ComposeAlwaysPresent(events: seq<Event>) {
    forall i :: 0 <= i < |events| ==>
      match events[i]
      case Call(_, present) => present
      case Observe(_, present) => present
      case _ => true
  }

  // ---------- The queue ----------

  /** Jobs before `k` have settled, jobs after it wait, and only job `k` may be running. */
  ghost predicate SerialAt(jobs: seq<Job>, k: nat) {
    && k <= |jobs|
    && (forall i :: 0 <= i < k ==> jobs[i].phase == Settled)
    && (forall i :: k < i < |jobs| ==> jobs[i].phase == Waiting)
    && (k < |jobs| ==> jobs[k].phase != Settled)
  }

  /** Every job waits for the one called just before it. */
  ghost predicate Chained(e: Explorer) {
    && (forall i :: 0 <= i < |e.jobs| ==> e.jobs[i].after == if i == 0 then None else Some(i - 1))
    && e.pending == if e.jobs == [] then None else Some(|e.jobs| - 1)
  }

  ghost predicate Names(state: SyncState, target: Target) {
    state.chainId == Some(target.chainId) && state.port == Some(target.port)
  }

  /**
   * What the state says: nothing before the first call; while it says syncing, the
   * last call; otherwise the job that ended last.
   */
  ghost predicate Reports(e: Explorer, k: nat)
    requires SerialAt(e.jobs, k)
  {
    match e.state.status
    case Idle => e.jobs == []
    case Syncing => k < |e.jobs| && Names(e.state, e.jobs[|e.jobs| - 1].target)
    case Ready | Failed => k > 0 && Names(e.state, e.jobs[k - 1].target)
    case Unavailable => false
  }

  ghost predicate Queue(e: Explorer, k: nat) {
    Chained(e) && SerialAt(e.jobs, k) && Reports(e, k)
  }

  lemma SyncKeepsQueue(e: Explorer, target: Target, k: nat)
    requires Queue(e, k)
    ensures Queue(Synced(e, target, true), k)
  {
    var jobs' := Synced(e, target, true).jobs;
    assert forall i :: 0 <= i < |e.jobs| ==> jobs'[i] == e.jobs[i];
  }

  lemma OnlyTheFirstMoves(e: Explorer, k: nat, job: nat)
    requires Queue(e, k)
    ensures MayStart(e, job) || MayFinish(e, job) ==> job == k
  {
    if k < job < |e.jobs| {
      assert e.jobs[job].after == Some(job - 1);
      assert e.jobs[job - 1].phase != Settled;
    }
  }

  lemma ObserveKeepsQueue(e: Explorer, s: Sighting, k: nat)
    requires Queue(e, k)
    ensures Queue(Observed(e, s, true), k)
  {
    if Triggers(e, s) {
      var read := Observed(e, s, true);
      SyncKeepsQueue(e.(lastSeen := read.lastSeen, cachedAt := read.cachedAt, cached := read.cached,
                        lastFollowAt := read.lastFollowAt), s.target, k);
    }
  }

  lemma StartKeepsQueue(e: Explorer, job: nat, k: nat)
    requires Queue(e, k) && MayStart(e, job)
    ensures job == k && Queue(Started(e, job), k)
  {
    OnlyTheFirstMoves(e, k, job);
  }

  lemma FinishKeepsQueue(e: Explorer, job: nat, outcome: Outcome, k: nat)
    requires Queue(e, k) && MayFinish(e, job)
    ensures job == k && Queue(Finished(e, job, outcome), k + 1)
  {
    OnlyTheFirstMoves(e, k, job);
  }

  lemma NextKeepsQueue(e: Explorer, event: Event, k: nat) returns (k': nat)
    requires Queue(e, k) && Possible(e, event) && ComposeAlwaysPresent([event])
    ensures Queue(Next(e, event), k')
    ensures k' == if event.Finish? then k + 1 else k
    ensures event.Start? ==> event.job == k
    ensures event.Finish? ==> event.job == k
  {
    hide Queue, Synced, Observed, Started, Finished, MayStart, MayFinish;
    assert [event][0] == event;
    k' := k;
    match event
    case Call(target, _) =>
      SyncKeepsQueue(e, target, k);
    case Observe(s, _) =>
      ObserveKeepsQueue(e, s, k);
    case Start(job) =>
      StartKeepsQueue(e, job, k);
    case Finish(job, outcome) =>
      FinishKeepsQueue(e, job, outcome, k);
      k' := k + 1;
  }

  /** Jobs that have ended, in a run. */
  ghost function Ended(events: seq<Event>): nat {
    if events == [] then 0
    else Ended(events[..|events| - 1]) + (if events[|events| - 1].Finish? then 1 else 0)
  }

  /**
   * For every sequence of calls, observations and job outcomes: jobs run one at a
   * time in call order, the ones that ended are the first ones called, and the state
   * reports the last call while it says syncing and the last job to end otherwise.
   */
  lemma {:induction false} JobsRunInOrder(events: seq<Event>)
    requires IsRun(INITIAL, events) && ComposeAlwaysPresent(events)
    ensures Queue(After(INITIAL, events), Ended(events))
  {
    if events != [] {
      var before, event := events[..|events| - 1], events[|events| - 1];
      JobsRunInOrder(before);
      var k := NextKeepsQueue(After(INITIAL, before), event, Ended(before));
    }
  }

  /** A failed job never blocks a later one: while a job is left, something can still happen to the first of them. */
  lemma QueueNeverBlocks(e: Explorer, k: nat)
    requires Queue(e, k) && k < |e.jobs|
    ensures MayStart(e, k) || MayFinish(e, k)
    ensures forall job: nat :: MayStart(e, job) || MayFinish(e, job) ==> job == k
  {
    forall job: nat | MayStart(e, job) || MayFinish(e, job) ensures job == k {
      OnlyTheFirstMoves(e, k, job);
    }
  }

  /** Whenever no job is outstanding after at least one call, the state names the last call and how it ended. */
  lemma {:induction false} SettledStateNamesLastCall(events: seq<Event>)
    requires IsRun(INITIAL, events) && ComposeAlwaysPresent(events)
    requires
      var jobs := After(INITIAL, events).jobs;
      jobs != [] && forall i :: 0 <= i < |jobs| ==> jobs[i].phase == Settled
    ensures
      var e := After(INITIAL, events);
      (e.state.status == Ready || e.state.status == Failed) && Names(e.state, e.jobs[|e.jobs| - 1].target)
  {
    JobsRunInOrder(events);
  }

  /** Whether the last call or job end in a run was a call. */
  ghost predicate LastWasCall(e: Explorer, events: seq<Event>)
    requires IsRun(e, events)
  {
    events != [] &&
    var before, event := events[..|events| - 1], events[|events| - 1];
    match event
    case Call(_, _) => true
    case Observe(s, _) => Triggers(After(e, before), s) || LastWasCall(e, before)
    case Start(_) => LastWasCall(e, before)
    case Finish(_, _) => false
  }

  /** The state says syncing exactly when no job has ended since the last call, not while jobs are left. */
  lemma {:induction false} SyncingMeansNothingEndedSince(events: seq<Event>)
    requires IsRun(INITIAL, events) && ComposeAlwaysPresent(events)
    ensures After(INITIAL, events).state.status == Syncing <==> LastWasCall(INITIAL, events)
  {
    if events != [] {
      SyncingMeansNothingEndedSince(events[..|events| - 1]);
    }
  }

  /** So with two calls outstanding, the state can say ready, for the first, while the second has not run. */
  lemma ReadyWhileAJobIsLeft(first: Target, second: Target)
    ensures
      var events := [Call(first, true), Call(second, true), Start(0), Finish(0, CameUp)];
      && IsRun(INITIAL, events)
      && After(INITIAL, events).state == SyncState(Ready, Some(first.chainId), Some(first.port))
      && |After(INITIAL, events).jobs| == 2 && After(INITIAL, events).jobs[1].phase == Waiting
  {
    var events := [Call(first, true), Call(second, true), Start(0), Finish(0, CameUp)];
    OneMore(INITIAL, [], Call(first, true));
    assert [] + [Call(first, true)] == [Call(first, true)];
    var e1 := Synced(INITIAL, first, true);
    OneMore(INITIAL, [Call(first, true)], Call(second, true));
    assert [Call(first, true)] + [Call(second, true)] == [Call(first, true), Call(second, true)];
    var e2 := Synced(e1, second, true);
    assert After(INITIAL, [Call(first, true), Call(second, true)]) == e2 && MayStart(e2, 0);
    OneMore(INITIAL, [Call(first, true), Call(second, true)], Start(0));
    assert [Call(first, true), Call(second, true)] + [Start(0)] == [Call(first, true), Call(second, true), Start(0)];
    OneMore(INITIAL, [Call(first, true), Call(second, true), Start(0)], Finish(0, CameUp));
    assert [Call(first, true), Call(second, true), Start(0)] + [Finish(0, CameUp)] == events;
    assert MayFinish(Started(e2, 0), 0);
  }

  // ---------- The follower ----------

  /** The times at which observations have started rebuilds. */
  ghost function FollowTimes(e: Explorer, events: seq<Event>): seq<int>
    requires IsRun(e, events)
  {
    if events == [] then []
    else
      var before, event := events[..|events| - 1], events[|events| - 1];
      FollowTimes(e, before) +
      (if event.Observe? && Triggers(After(e, before), event.sighting) then [event.sighting.followedAt] else [])
  }

  /** The follow time moves only when an observation starts a rebuild. */
  lemma FollowTimeMoves(e: Explorer, event: Event)
    ensures Next(e, event).lastFollowAt ==
      if Possible(e, event) && event.Observe? && Triggers(e, event.sighting) then event.sighting.followedAt
      else e.lastFollowAt
  {}

  /** Any two rebuilds the follower starts are at least a minute apart. */
  lemma {:induction false} FollowsAreApart(events: seq<Event>)
    requires IsRun(INITIAL, events)
    ensures
      var times := FollowTimes(INITIAL, events);
      && (forall i, j :: 0 <= i < j < |times| ==> times[j] - times[i] >= 60_000)
      && After(INITIAL, events).lastFollowAt == if times == [] then 0 else times[|times| - 1]
  {
    hide Next;
    if events != [] {
      FollowTimeMoves(After(INITIAL, events[..|events| - 1]), events[|events| - 1]);
      FollowsAreApart(events[..|events| - 1]);
    }
  }

  /** The last observation of a run that was accepted. */
  ghost function LastAccepted(e: Explorer, events: seq<Event>): Option<Target>
    requires IsRun(e, events)
  {
    if events == [] then None
    else
      var before, event := events[..|events| - 1], events[|events| - 1];
      if event.Observe? && Accepted(After(e, before)) then Some(event.sighting.target) else LastAccepted(e, before)
  }

  /**
   * Every rebuild the follower starts comes on the second of two consecutive accepted
   * observations of the same node, one that differs from the configuration known.
   */
  lemma {:induction false} FollowsAreDebounced(events: seq<Event>)
    requires IsRun(INITIAL, events)
    ensures After(INITIAL, events).lastSeen == LastAccepted(INITIAL, events)
    ensures
      forall s :: Triggers(After(INITIAL, events), s) ==>
        FollowIsDue(After(INITIAL, events), s) && LastAccepted(INITIAL, events) == Some(s.target)
  {
    if events != [] {
      FollowsAreDebounced(events[..|events| - 1]);
    }
  }

  /** When only the watcher starts rebuilds, at most one is outstanding, and the state says syncing exactly then. */
  lemma {:induction false} WatcherAloneIsExact(events: seq<Event>)
    requires IsRun(INITIAL, events) && ComposeAlwaysPresent(events)
    requires forall i :: 0 <= i < |events| ==> !events[i].Call?
    ensures
      var e := After(INITIAL, events);
      && |e.jobs| - Ended(events) <= 1
      && (e.state.status == Syncing <==> |e.jobs| - Ended(events) == 1)
  {
    JobsRunInOrder(events);
    if events != [] {
      WatcherAloneIsExact(events[..|events| - 1]);
      JobsRunInOrder(events[..|events| - 1]);
    }
  }
}
