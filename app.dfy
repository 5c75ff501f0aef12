/** The controller component as an object: its state and refs are fields, and each handler updates
    them step by step. Every method is proved to do what the matching `Engine` function says.
    The object is created, and then driven only through `HandleToggle`, `HandleManualLevelChange`,
    `FireTimer` and `Unmount`, as the view and the host do; the constructor establishes `Engine.Inv`
    and those four keep it, so what `Engine` proves about reachable states holds of the object after
    any series of those calls. The other methods are steps inside them (`StartRolling` and
    `StopRolling` are reached only through `HandleToggle`), and called on their own they need not
    keep the invariant: stopping twice without starting in between records two winners. */
module App {
  import opened Types
  import opened Seqs
  import opened Constants
  import opened Draw
  import opened Engine

  class LotteryApp {
    var remainingCandidates: seq<string>
    var winners: seq<Winner>
    var currentLevelIdx: nat
    var isRolling: bool
    /** `autoAdvanceTimerRef.current`. */
    var autoAdvanceTimer: Option<TimerId>
    /** `lastWinnerRef.current`. */
    var lastWinner: Option<string>
    /** The host's pending timeouts. */
    var scheduled: set<TimerId>
    /** The handle the host gives to the next timeout. */
    var nextTimerId: TimerId

    /** The fields as one value. */
    ghost function State(): DrawState
      reads this
    {
      DrawState(remainingCandidates, winners, currentLevelIdx, isRolling, autoAdvanceTimer,
                lastWinner, scheduled, nextTimerId)
    }

    /** Mounting: the initial state of every `useState` and `useRef`. */
    constructor ()
      ensures State() == Initial()
      ensures Inv(State())
    {
      InitialInv();
      remainingCandidates := CANDIDATES_LIST;
      winners := [];
      currentLevelIdx := 0;
      isRolling := false;
      autoAdvanceTimer := None;
      lastWinner := None;
      scheduled := {};
      nextTimerId := 1;
    }

    /** `window.setTimeout`: the host records a new pending timeout under a fresh handle. */
    method SetTimeout() returns (id: TimerId)
      modifies this`scheduled, this`nextTimerId
      ensures id == old(nextTimerId) && scheduled == old(scheduled) + {id}
      ensures nextTimerId == old(nextTimerId) + 1
    {
      id := nextTimerId;
      scheduled := scheduled + {id};
      nextTimerId := nextTimerId + 1;
    }

    /** `clearTimeout`: the timeout is no longer pending (nothing happens if it already ran). */
    method ClearTimeout(id: TimerId)
      modifies this`scheduled
      ensures scheduled == old(scheduled) - {id}
    {
      scheduled := scheduled - {id};
    }

    /** `startRolling`. */
    method StartRolling()
      modifies this
      ensures State() == Start(old(State()))
    {
      if |remainingCandidates| == 0 {
        return;
      }
      isRolling := true;
      lastWinner := None;
      CancelAdvance();
    }

    /** Cancelling the pending auto-advance: clear the referenced timeout and null the reference. */
    method CancelAdvance()
      modifies this`autoAdvanceTimer, this`scheduled
      ensures State() == ClearTimer(old(State()))
    {
      if autoAdvanceTimer.Some? {
        ClearTimeout(autoAdvanceTimer.value);
        autoAdvanceTimer := None;
      }
    }

    /** The rigged choice at the heart of `stopRolling`: the reserved name for the grand prize,
        and below it a random name other than the reserved one while there is one. */
    method PickWinner(level: PrizeLevel, rand: real) returns (winnerName: string)
      requires 0.0 <= rand < 1.0
      ensures winnerName == DrawName(level, remainingCandidates, rand)
    {
      if level == Grand {
        winnerName := TARGET_GRAND_WINNER;
      } else {
        var poolWithoutTarget := Without(remainingCandidates, TARGET_GRAND_WINNER);
        if |poolWithoutTarget| > 0 {
          winnerName := GetRandomName(poolWithoutTarget, rand);
        } else {
          winnerName := GetRandomName(remainingCandidates, rand);
        }
      }
    }

    /** The `setWinners` updater of `stopRolling`. */
    method RecordWinner(newWinner: Winner)
      modifies this`winners, this`autoAdvanceTimer, this`scheduled, this`nextTimerId
      ensures State() == Record(old(State()), newWinner)
    {
      ghost var s0 := State();
      var nextWinners := winners + [newWinner];
      var countForLevel := |WinnersAt(nextWinners, newWinner.level)|;
      if countForLevel >= Quota(newWinner.level) {
        var id := SetTimeout();
        autoAdvanceTimer := Some(id);
        winners := nextWinners;
        assert State() == s0.(winners := nextWinners, autoAdvanceTimer := Some(s0.nextTimerId),
                              scheduled := s0.scheduled + {s0.nextTimerId}, nextTimerId := s0.nextTimerId + 1);
      } else {
        winners := nextWinners;
        assert State() == s0.(winners := nextWinners);
      }
    }

    /** `stopRolling`, with `rand` the value `Math.random()` gives and `now` the value
        `Date.now()` gives. */
    method StopRolling(rand: real, now: int)
      requires 0.0 <= rand < 1.0
      modifies this
      ensures State() == Stop(old(State()), rand, now)
    {
      ghost var s0 := State();
      isRolling := false;
      var level := LevelAt(currentLevelIdx);
      var winnerName := PickWinner(level, rand);
      lastWinner := Some(winnerName);
      ghost var s1 := State();
      assert s1 == s0.(isRolling := false, lastWinner := Some(winnerName));
      RecordWinner(Winner(winnerName, level, now));
      remainingCandidates := Without(remainingCandidates, winnerName);
      assert State() == Record(s1, Winner(winnerName, level, now)).(remainingCandidates := Without(s0.remainingCandidates, winnerName));
    }

    /** `handleToggle` (the button and the space bar). */
    method HandleToggle(rand: real, now: int)
      requires 0.0 <= rand < 1.0
      modifies this
      requires Inv(State())
      ensures State() == Toggle(old(State()), rand, now)
      ensures Inv(State())
    {
      ToggleInv(State(), rand, now);
      if AllCompleteAt(currentLevelIdx) {
        return;
      }
      if isRolling {
        StopRolling(rand, now);
      } else {
        if LevelFull(winners, currentLevelIdx) {
          return;
        }
        StartRolling();
      }
    }

    /** `handleManualLevelChange`, as the view calls it: on a state that keeps the invariant, the
        click does what `SwitchLevel` does and the invariant still holds afterwards. */
    method HandleManualLevelChange(level: PrizeLevel)
      requires Inv(State())
      modifies this
      ensures State() == ChangeLevel(old(State()), level)
      ensures Inv(State())
    {
      ChangeLevelInv(State(), level);
      SwitchLevel(level);
    }

    /** The body of `handleManualLevelChange`: ignored while rolling; otherwise the pending advance
        is cancelled, and then the level is selected if it is in the draw order. */
    method SwitchLevel(level: PrizeLevel)
      modifies this
      ensures State() == ChangeLevel(old(State()), level)
    {
      ghost var s0 := State();
      if isRolling {
        return;
      }
      CancelAdvance();
      var idx := IndexOf(DRAW_ORDER, level);
      if idx != -1 {
        currentLevelIdx := idx;
        lastWinner := None;
      }
      assert State() == ChangeLevel(s0, level);
    }

    /** The host runs the pending timeout `id`, on a state that keeps the invariant: the invariant
        still holds afterwards. */
    method FireTimer(id: TimerId)
      requires id in scheduled
      requires Inv(State())
      modifies this
      ensures State() == Fire(old(State()), id)
      ensures Inv(State())
    {
      FireInv(State(), id);
      RunTimeout(id);
    }

    /** The host takes the timeout `id` off its pending set and runs the auto-advance callback:
        one level on, and the last-winner marker cleared. */
    method RunTimeout(id: TimerId)
      requires id in scheduled
      modifies this
      ensures State() == Fire(old(State()), id)
    {
      ghost var s0 := State();
      scheduled := scheduled - {id};
      currentLevelIdx := currentLevelIdx + 1;
      lastWinner := None;
      assert State() == Fire(s0, id);
    }

    /** The unmount cleanup. */
    method Unmount()
      modifies this
      requires Inv(State())
      ensures State() == Teardown(old(State()))
      ensures Inv(State())
    {
      TeardownInv(State());
      if autoAdvanceTimer.Some? {
        ClearTimeout(autoAdvanceTimer.value);
      }
    }
  }
}
