/** The draw controller as a state machine over values: one function per handler, the invariant
    that every reachable state keeps, and what it gives. */
module Engine {
  import opened Types
  import opened Seqs
  import opened Constants
  import opened Draw

  /** A handle of a pending timeout; the host hands out positive integers, so a handle held in
      the timer reference is always truthy. */
  type TimerId = x: nat | x > 0 witness 1

  /** The controller's state: the React state (`remainingCandidates`, `winners`,
      `currentLevelIdx`, `isRolling`), the two refs (`autoAdvanceTimer`, `lastWinner`), and the
      host's side of the timers: the handles still pending and the next handle it will give. */
  datatype DrawState = DrawState(
    remainingCandidates: seq<string>,
    winners: seq<Winner>,
    currentLevelIdx: nat,
    isRolling: bool,
    autoAdvanceTimer: Option<TimerId>,
    lastWinner: Option<string>,
    scheduled: set<TimerId>,
    nextTimerId: TimerId)

  /** The state at mount: every candidate in the pool, no winner, the first level, idle, no
      timer and no marker. */
  function Initial(): DrawState {
    DrawState(CANDIDATES_LIST, [], 0, false, None, None, {}, 1)
  }

  /** The handle the timer reference holds, as a set: empty when the reference is null. */
  function Referenced(s: DrawState): set<TimerId> {
    if s.autoAdvanceTimer.Some? then {s.autoAdvanceTimer.value} else {}
  }

  /** `if (autoAdvanceTimerRef.current) { clearTimeout(...); autoAdvanceTimerRef.current = null; }` */
  function ClearTimer(s: DrawState): (t: DrawState)
    ensures t.autoAdvanceTimer == None
    ensures s.autoAdvanceTimer == None ==> t == s
    ensures s.autoAdvanceTimer.Some? ==>
      t == s.(autoAdvanceTimer := None, scheduled := s.scheduled - {s.autoAdvanceTimer.value})
  {
    match s.autoAdvanceTimer
    case None => s
    case Some(id) => s.(autoAdvanceTimer := None, scheduled := s.scheduled - {id})
  }

  /** `startRolling`. */
  function Start(s: DrawState): (t: DrawState)
    ensures s.remainingCandidates == [] ==> t == s
    ensures s.remainingCandidates != [] ==>
      t.isRolling && t.lastWinner == None && t.autoAdvanceTimer == None &&
      t.scheduled == s.scheduled - Referenced(s)
    ensures t.remainingCandidates == s.remainingCandidates && t.winners == s.winners &&
      t.currentLevelIdx == s.currentLevelIdx && t.nextTimerId == s.nextTimerId
  {
    if |s.remainingCandidates| == 0 then s
    else ClearTimer(s.(isRolling := true, lastWinner := None))
  }

  /** The `setWinners` updater of `stopRolling`: append the winner and, when its level has now
      reached its quota, schedule the auto-advance under a fresh handle and keep the handle. */
  function Record(s: DrawState, w: Winner): (t: DrawState)
    ensures t.winners == s.winners + [w]
    ensures |WinnersAt(t.winners, w.level)| >= Quota(w.level) ==>
      t == s.(winners := t.winners, autoAdvanceTimer := Some(s.nextTimerId),
              scheduled := s.scheduled + {s.nextTimerId}, nextTimerId := s.nextTimerId + 1)
    ensures |WinnersAt(t.winners, w.level)| < Quota(w.level) ==> t == s.(winners := t.winners)
  {
    var nextWinners := s.winners + [w];
    if |WinnersAt(nextWinners, w.level)| >= Quota(w.level) then
      s.(winners := nextWinners, autoAdvanceTimer := Some(s.nextTimerId),
         scheduled := s.scheduled + {s.nextTimerId}, nextTimerId := s.nextTimerId + 1)
    else s.(winners := nextWinners)
  }

  /** `stopRolling`: draw a name for the current level, record it, drop it from the pool, and
      schedule the advance when the level has just reached its quota. */
  function Stop(s: DrawState, rand: real, now: int): (t: DrawState)
    requires 0.0 <= rand < 1.0
    ensures !t.isRolling
    ensures var name := DrawName(LevelAt(s.currentLevelIdx), s.remainingCandidates, rand);
      && t.winners == s.winners + [Winner(name, LevelAt(s.currentLevelIdx), now)]
      && t.lastWinner == Some(name)
      && t.remainingCandidates == Without(s.remainingCandidates, name)
    ensures t.currentLevelIdx == s.currentLevelIdx
    ensures LevelFull(t.winners, s.currentLevelIdx) ==>
      t.autoAdvanceTimer == Some(s.nextTimerId) && t.scheduled == s.scheduled + {s.nextTimerId} &&
      t.nextTimerId > s.nextTimerId
    ensures !LevelFull(t.winners, s.currentLevelIdx) ==>
      t.autoAdvanceTimer == s.autoAdvanceTimer && t.scheduled == s.scheduled &&
      t.nextTimerId == s.nextTimerId
  {
    var level := LevelAt(s.currentLevelIdx);
    var name := DrawName(level, s.remainingCandidates, rand);
    var recorded := Record(s.(isRolling := false, lastWinner := Some(name)), Winner(name, level, now));
    recorded.(remainingCandidates := Without(s.remainingCandidates, name))
  }

  /** `handleToggle`. */
  function Toggle(s: DrawState, rand: real, now: int): (t: DrawState)
    requires 0.0 <= rand < 1.0
    ensures AllCompleteAt(s.currentLevelIdx) ==> t == s
    ensures !AllCompleteAt(s.currentLevelIdx) && s.isRolling ==> t == Stop(s, rand, now)
    ensures !AllCompleteAt(s.currentLevelIdx) && !s.isRolling && LevelFull(s.winners, s.currentLevelIdx) ==>
      t == s
    ensures !AllCompleteAt(s.currentLevelIdx) && !s.isRolling && !LevelFull(s.winners, s.currentLevelIdx) ==>
      t == Start(s)
  {
    if AllCompleteAt(s.currentLevelIdx) then s
    else if s.isRolling then Stop(s, rand, now)
    else if LevelFull(s.winners, s.currentLevelIdx) then s
    else Start(s)
  }

  /** `handleManualLevelChange`: ignored while rolling; otherwise the pending advance is cancelled
      first, and then the level is selected if it is in the draw order. */
  function ChangeLevel(s: DrawState, level: PrizeLevel): (t: DrawState)
    ensures s.isRolling ==> t == s
    ensures !s.isRolling ==>
      t.autoAdvanceTimer == None && t.scheduled == s.scheduled - Referenced(s)
    ensures !s.isRolling && IndexOf(DRAW_ORDER, level) != -1 ==>
      t.currentLevelIdx == IndexOf(DRAW_ORDER, level) && t.lastWinner == None
    ensures !s.isRolling && IndexOf(DRAW_ORDER, level) == -1 ==>
      t.currentLevelIdx == s.currentLevelIdx && t.lastWinner == s.lastWinner
    ensures t.remainingCandidates == s.remainingCandidates && t.winners == s.winners &&
      t.isRolling == s.isRolling && t.nextTimerId == s.nextTimerId
  {
    if s.isRolling then s
    else
      var cleared := ClearTimer(s);
      var idx := IndexOf(DRAW_ORDER, level);
      if idx != -1 then cleared.(currentLevelIdx := idx, lastWinner := None)
      else cleared
  }

  /** The auto-advance callback running: one level on, marker cleared; the reference keeps the
      spent handle, as in the source. */
  function Fire(s: DrawState, id: TimerId): (t: DrawState)
    requires id in s.scheduled
    ensures t.currentLevelIdx == s.currentLevelIdx + 1
    ensures t.lastWinner == None && t.scheduled == s.scheduled - {id}
    ensures t.remainingCandidates == s.remainingCandidates && t.winners == s.winners &&
      t.isRolling == s.isRolling && t.autoAdvanceTimer == s.autoAdvanceTimer &&
      t.nextTimerId == s.nextTimerId
  {
    s.(currentLevelIdx := s.currentLevelIdx + 1, lastWinner := None, scheduled := s.scheduled - {id})
  }

  /** The unmount cleanup: the referenced timeout is cleared; the reference itself is left. */
  function Teardown(s: DrawState): (t: DrawState)
    ensures t == s.(scheduled := s.scheduled - Referenced(s))
  {
    match s.autoAdvanceTimer
    case None => s
    case Some(id) => s.(scheduled := s.scheduled - {id})
  }

  /** What every reachable state keeps:
      - the pool and the winners keep the draw invariant (candidates conserved, quotas kept, the
        reserved name tied to the grand prize);
      - the level index never passes the end of the draw order;
      - at most one timeout is pending, it is the referenced one, its handle is older than the
        next handle, and it is pending only for a level that is full and not past the end;
      - while rolling nothing is pending, and the current level is neither complete nor full. */
  ghost predicate Inv(s: DrawState) {
    && DrawInvariant(s.remainingCandidates, s.winners)
    && s.currentLevelIdx <= |DRAW_ORDER|
    && (s.autoAdvanceTimer.Some? ==> s.autoAdvanceTimer.value < s.nextTimerId)
    && (forall id :: id in s.scheduled ==> s.autoAdvanceTimer == Some(id))
    && (s.scheduled != {} ==> !AllCompleteAt(s.currentLevelIdx) && LevelFull(s.winners, s.currentLevelIdx))
    && (s.isRolling ==>
         s.scheduled == {} && !AllCompleteAt(s.currentLevelIdx) && !LevelFull(s.winners, s.currentLevelIdx))
  }

  /** The state at mount keeps the invariant. */
  lemma InitialInv()
    ensures Inv(Initial())
  {
    InitialDrawInvariant();
  }

  /** A pool that keeps the draw invariant never runs dry before the draw is complete: even a
      full level leaves at least 11 names, so the empty-pool guard of `startRolling` never fires
      in a reachable state. */
  lemma PoolNeverEmpty(s: DrawState)
    requires Inv(s)
    ensures |s.remainingCandidates| >= 11
  {
    NoNameWinsTwice(s.remainingCandidates, s.winners);
    CountsSum(s.winners);
    PrizeConfigIds();
  }

  /** Stopping with no timeout pending leaves at most one pending: the referenced one, with a
      handle older than the next, and only when the level has just filled up. */
  lemma StopSchedulesOne(s: DrawState, rand: real, now: int)
    requires s.scheduled == {}
    requires s.autoAdvanceTimer.Some? ==> s.autoAdvanceTimer.value < s.nextTimerId
    requires 0.0 <= rand < 1.0
    ensures var t := Stop(s, rand, now);
      && (forall id :: id in t.scheduled ==> t.autoAdvanceTimer == Some(id))
      && (t.autoAdvanceTimer.Some? ==> t.autoAdvanceTimer.value < t.nextTimerId)
      && (t.scheduled != {} ==> LevelFull(t.winners, t.currentLevelIdx))
  {
  }

  /** Stopping a roll keeps the invariant. */
  lemma StopInv(s: DrawState, rand: real, now: int)
    requires Inv(s) && s.isRolling
    requires 0.0 <= rand < 1.0
    ensures Inv(Stop(s, rand, now))
  {
    var level := LevelAt(s.currentLevelIdx);
    var name := DrawName(level, s.remainingCandidates, rand);
    var t := Stop(s, rand, now);
    assert DrawInvariant(t.remainingCandidates, t.winners) by {
      DrawPreservesInvariant(s.remainingCandidates, s.winners, level, rand, now);
    }
    StopSchedulesOne(s, rand, now);
  }

  /** Starting a roll from a level that is neither complete nor full keeps the invariant. */
  lemma StartInv(s: DrawState)
    requires Inv(s) && !s.isRolling
    requires !AllCompleteAt(s.currentLevelIdx) && !LevelFull(s.winners, s.currentLevelIdx)
    ensures Inv(Start(s))
  {
    PoolNeverEmpty(s);
  }

  /** `handleToggle` keeps the invariant. */
  lemma ToggleInv(s: DrawState, rand: real, now: int)
    requires Inv(s)
    requires 0.0 <= rand < 1.0
    ensures Inv(Toggle(s, rand, now))
  {
    if !AllCompleteAt(s.currentLevelIdx) {
      if s.isRolling {
        StopInv(s, rand, now);
      } else if !LevelFull(s.winners, s.currentLevelIdx) {
        StartInv(s);
      }
    }
  }

  /** `handleManualLevelChange` keeps the invariant, and when it acts it leaves no timeout
      pending: a cancelled advance never fires. */
  lemma ChangeLevelInv(s: DrawState, level: PrizeLevel)
    requires Inv(s)
    ensures Inv(ChangeLevel(s, level))
    ensures !s.isRolling ==> ChangeLevel(s, level).scheduled == {}
  {
    DrawOrderPositions();
  }

  /** The auto-advance firing keeps the invariant; it only ever fires for the level that filled
      up, it moves exactly one level on, and nothing is pending afterwards. */
  lemma FireInv(s: DrawState, id: TimerId)
    requires Inv(s) && id in s.scheduled
    ensures LevelFull(s.winners, s.currentLevelIdx) && !s.isRolling
    ensures Inv(Fire(s, id))
    ensures Fire(s, id).scheduled == {}
  {
  }

  /** The unmount cleanup keeps the invariant and leaves no timeout pending. */
  lemma TeardownInv(s: DrawState)
    requires Inv(s)
    ensures Inv(Teardown(s))
    ensures Teardown(s).scheduled == {}
  {
  }

  /** Starting twice in a row is the same as starting once. */
  lemma StartTwice(s: DrawState)
    ensures Start(Start(s)) == Start(s)
  {
  }

  /** Once every level is complete, the toggle does nothing and no advance is pending. */
  lemma CompleteIsFinal(s: DrawState, rand: real, now: int)
    requires Inv(s) && AllCompleteAt(s.currentLevelIdx)
    requires 0.0 <= rand < 1.0
    ensures Toggle(s, rand, now) == s
    ensures s.scheduled == {} && !s.isRolling
  {
  }

  /** The inputs the controller reacts to: the toggle (button or key) with the random draw and
      the clock reading it would use, a click on a level, and a pending timeout firing. */
  datatype Event =
    | ToggleEvent(rand: real, now: int)
    | LevelClick(level: PrizeLevel)
    | TimerFires(id: TimerId)

  /** An event can happen in a state: the random value lies in [0, 1), and only a pending
      timeout fires. */
  predicate Enabled(s: DrawState, e: Event) {
    match e
    case ToggleEvent(rand, _) => 0.0 <= rand < 1.0
    case LevelClick(_) => true
    case TimerFires(id) => id in s.scheduled
  }

  /** The state after one event. */
  function Step(s: DrawState, e: Event): DrawState
    requires Enabled(s, e)
  {
    match e
    case ToggleEvent(rand, now) => Toggle(s, rand, now)
    case LevelClick(level) => ChangeLevel(s, level)
    case TimerFires(id) => Fire(s, id)
  }

  /** Every event of the list can happen when its turn comes. */
  predicate EnabledRun(s: DrawState, es: seq<Event>)
    decreases |es|
  {
    es == [] || (Enabled(s, es[0]) && EnabledRun(Step(s, es[0]), es[1..]))
  }

  /** The state after the events, in order. */
  function Run(s: DrawState, es: seq<Event>): DrawState
    requires EnabledRun(s, es)
    decreases |es|
  {
    if es == [] then s else Run(Step(s, es[0]), es[1..])
  }

  /** Every event keeps the invariant. */
  lemma StepInv(s: DrawState, e: Event)
    requires Inv(s) && Enabled(s, e)
    ensures Inv(Step(s, e))
  {
    match e
    case ToggleEvent(rand, now) => ToggleInv(s, rand, now);
    case LevelClick(level) => ChangeLevelInv(s, level);
    case TimerFires(id) => FireInv(s, id);
  }

  /** Every run of events keeps the invariant. */
  lemma {:induction false} RunInv(s: DrawState, es: seq<Event>)
    requires Inv(s) && EnabledRun(s, es)
    ensures Inv(Run(s, es))
    decreases |es|
  {
    if es != [] {
      StepInv(s, es[0]);
      RunInv(Step(s, es[0]), es[1..]);
    }
  }

  /** In every state reachable from mount: no level has more winners than its quota, the grand
      prize went to the reserved name and nobody else won with it, no name has won twice, no
      winner is still in the pool, and the pool and the winners together are the 29 candidates. */
  lemma {:induction false} ReachableSafety(es: seq<Event>)
    requires EnabledRun(Initial(), es)
    ensures var s := Run(Initial(), es);
      && (forall level :: |WinnersAt(s.winners, level)| <= Quota(level))
      && (forall w :: w in s.winners ==> (w.name == TARGET_GRAND_WINNER <==> w.level == Grand))
      && NoDuplicates(Names(s.winners))
      && (forall x :: x in s.remainingCandidates ==> x !in Names(s.winners))
      && multiset(s.remainingCandidates) + multiset(Names(s.winners)) == multiset(CANDIDATES_LIST)
      && |s.remainingCandidates| + |s.winners| == |CANDIDATES_LIST|
  {
    InitialInv();
    RunInv(Initial(), es);
    var s := Run(Initial(), es);
    NoNameWinsTwice(s.remainingCandidates, s.winners);
    CandidatesDistinct();
  }
}
