# Chiptech annual lottery: the draw engine

This project models the draw engine of the chiptech annual lottery, a single-page React app, in Dafny. It covers:

- the candidate pool: a `;`-separated string of 29 names, split, with blank entries dropped;
- the four prize levels, with quotas 10, 5, 2 and 1, drawn in a fixed order from the third prize up to the grand prize;
- the controller that starts and stops a draw, records each winner, and moves to the next level 4 seconds after a level fills up, unless that move is cancelled.

The draw is rigged. The grand prize always goes to one reserved name. Below the grand prize, the reserved name is kept out of the random choice for as long as anyone else is left.

The model has three layers:

- **Pure parts.** The constants, the name draw, the per-level counts and the draw invariant are datatypes, functions and lemmas (modules `JsString`, `CandidateNames`, `Constants`, `Draw`).
- **Value-level controller.** Every handler is a function from state to state (module `Engine`). The state holds the React state, the two refs, and the host's pending timeouts with the next handle it will issue. `Engine.Inv` is proved to hold at mount and to be kept by every event, so it holds after any run of events. From that follows `Engine.ReachableSafety`:
  - no level exceeds its quota;
  - the grand prize goes to the reserved name and nobody else wins with it;
  - no name wins twice;
  - no winner stays in the pool;
  - the pool and the winners together are exactly the 29 candidates.
- **Imperative controller.** The component is a class whose fields are the state and the refs (module `App`). Its methods update the fields step by step, and each is proved to produce the state the matching `Engine` function gives. The constructor establishes `Engine.Inv`, and the four entry points the view and the host use (`HandleToggle`, `HandleManualLevelChange`, `FireTimer`, `Unmount`) keep it.

`Math.random()` is a parameter `rand` with 0 ≤ `rand` < 1. `Date.now()` is a parameter `now`. `window.setTimeout` and `clearTimeout` are modelled as a set of pending handles plus a counter for fresh handles.

Four behaviours of the code are easy to misread; the model follows the code as written:

- **Starting a draw.** `startRolling` itself only refuses an empty pool. The checks for "already rolling", "all levels complete" and "level full" sit in `handleToggle`.
- **Auto-advance.** The callback adds one to the level index unconditionally; it does not check that the level is still the same. It is superseded only by being cancelled, through `startRolling` or a level click. `Engine.FireInv` and `Engine.ChangeLevelInv` prove what this guarantees: a timeout fires only while no draw is rolling and the current level is full and not past the end, and a level click leaves no timeout pending. The model does not record which level scheduled a timeout, so it does not state that this level is still the current one.
- **Level click.** `handleManualLevelChange` cancels the pending advance before it looks the level up, and clears the last-winner marker only when the level is in the draw order. The draw order holds every level (`Constants.DrawOrderPositions`), so the lookup never fails.
- **Firing and unmount.** Neither the firing callback nor the unmount cleanup resets the timer ref to null. The model keeps the spent handle in the ref.

## Model

| member | source | states |
|---|---|---|
| Seqs.IndexOf | chiptech-annual-lottery/App.tsx:144 | `indexOf` is -1 exactly when the level is absent; otherwise it is the position of the first occurrence |
| JsString.Split | chiptech-annual-lottery/constants.ts:5 | `split(';')` yields at least one piece, and no piece holds the separator |
| JsString.JoinSplit | chiptech-annual-lottery/constants.ts:5 | joining the pieces of a split with the separator gives back the original string, for every string |
| JsString.SplitJoin | chiptech-annual-lottery/constants.ts:5 | splitting the join of separator-free pieces gives back those pieces |
| JsString.TrimStart | chiptech-annual-lottery/constants.ts:5 | the result is a suffix of the input; what was dropped is white space; the result does not start with white space |
| JsString.TrimEnd | chiptech-annual-lottery/constants.ts:5 | the result is a prefix of the input; what was dropped is white space; the result does not end with white space |
| JsString.Trim | chiptech-annual-lottery/constants.ts:5 | definition of `trim()`: `TrimStart` then `TrimEnd` (its property is `JsString.TrimNonEmpty`) |
| JsString.TrimNonEmpty | chiptech-annual-lottery/constants.ts:5 | `name.trim().length > 0` holds exactly when the name has a character that is not white space |
| CandidateNames.JoinShippedNames | chiptech-annual-lottery/constants.ts:3 | the shipped string is the 29 names joined with `;` |
| CandidateNames.ShippedNamesWellFormed | chiptech-annual-lottery/constants.ts:3 | no shipped name is blank or holds a `;` |
| CandidateNames.SplitShippedNames | chiptech-annual-lottery/constants.ts:3-5 | splitting the shipped string at `;` gives exactly the 29 names |
| Constants.KeepNonBlank | chiptech-annual-lottery/constants.ts:5 | the filter keeps exactly the non-blank entries (both directions), each as many times as it occurs, in their original order |
| Constants.KeepNonBlankAll | chiptech-annual-lottery/constants.ts:5 | the filter drops nothing from a list without blank entries |
| Constants.Quota | chiptech-annual-lottery/constants.ts:11-33 | definition of a level's `count`, by cases (`Constants.PrizeConfigIds` proves it equals the configuration's count) |
| Constants.ShippedCandidates | chiptech-annual-lottery/constants.ts:3-5 | `CANDIDATES_LIST` is exactly the 29 shipped names, in order |
| Constants.ShippedNamesDistinct | chiptech-annual-lottery/constants.ts:3 | no shipped name occurs twice |
| Constants.CandidatesDistinct | chiptech-annual-lottery/constants.ts:5 | there are 29 candidates; none is blank, none holds `;`, and none occurs twice |
| Constants.PrizeConfigIds | chiptech-annual-lottery/constants.ts:7-36 | every level has a configuration whose `id` is that level and whose `count` is its quota; the quotas are 10, 5, 2 and 1 |
| Constants.DrawOrderPositions | chiptech-annual-lottery/constants.ts:39-44 | the draw order has four levels, each exactly once, with the grand prize last; `indexOf` and indexing are inverse |
| Draw.RandomIndex | chiptech-annual-lottery/App.tsx:11 | `Math.floor(Math.random() * n)` is an index below `n`, and it is the floor of `rand * n` |
| Draw.RandomIndexReaches | chiptech-annual-lottery/App.tsx:11 | every index below `n` is produced by some random value |
| Draw.GetRandomName | chiptech-annual-lottery/App.tsx:9-13 | the result is "---" for an empty list and a member of the list otherwise |
| Draw.GetRandomNameReaches | chiptech-annual-lottery/App.tsx:9-13 | every element of a non-empty list can be the name drawn |
| Draw.Without | chiptech-annual-lottery/App.tsx:78 | filtering out a name keeps exactly the other elements (by membership and by multiplicity), in their order |
| Draw.DrawName | chiptech-annual-lottery/App.tsx:66-86 | the grand prize draws the reserved name; below it, the draw is a pool member other than the reserved name whenever one exists; if the reserved name is all that is left, it is drawn; an empty pool gives "---" |
| Draw.WinnersAt | chiptech-annual-lottery/App.tsx:40 | the winners of a level are exactly those winners whose level it is |
| Draw.WinnersAtSnoc | chiptech-annual-lottery/App.tsx:102 | appending a winner extends its own level's list and no other |
| Draw.CountsSum | chiptech-annual-lottery/App.tsx:40 | each winner is counted at exactly one of the four levels |
| Draw.LevelAt | chiptech-annual-lottery/App.tsx:33 | definition of `currentLevel`: the level at the index, the grand prize past the end (its properties are in `Draw.LevelAtPositions`) |
| Draw.AllCompleteAt | chiptech-annual-lottery/App.tsx:37 | definition of `isAllComplete`: the index has reached the length of the draw order |
| Draw.LevelFull | chiptech-annual-lottery/App.tsx:39-41 | definition of `isCurrentLevelFull`: the current level has at least its quota of winners |
| Draw.LevelAtPositions | chiptech-annual-lottery/App.tsx:33-37 | `currentLevel` and `indexOf` are inverse inside the order; past index 3 the level falls back to the grand prize; the draw is complete exactly from index 4 |
| Draw.ReservedNameOnce | chiptech-annual-lottery/constants.ts:3 | the reserved grand-prize name occurs exactly once among the candidates |
| Draw.ShippedQuotasFit | chiptech-annual-lottery/constants.ts:7-36 | the 17 lower prizes are fewer than the 28 other candidates, and all 18 prizes fit in the pool |
| Draw.InitialDrawInvariant | chiptech-annual-lottery/App.tsx:17-18 | the initial pool and empty winner list keep the draw invariant |
| Draw.NoNameWinsTwice | chiptech-annual-lottery/App.tsx:119 | under the invariant: the pool holds no name twice, no name has won twice, no winner is in the pool, and pool plus winners make up the 29 candidates |
| Draw.DrawFindsName | chiptech-annual-lottery/App.tsx:76-85 | under the invariant, with a level that is not full: the reserved name is in the pool for the grand prize, and someone else is in the pool below it |
| Draw.MoveToWinners | chiptech-annual-lottery/App.tsx:98-119 | moving the drawn name from the pool to the winners keeps pool plus winners equal to the candidates |
| Draw.DrawnNameInPool | chiptech-annual-lottery/App.tsx:70-86 | the drawn name is always in the pool, and it is the reserved name exactly for the grand prize |
| Draw.RecordWithinQuota | chiptech-annual-lottery/App.tsx:98-104 | recording a winner at a level that is not full keeps every level within its quota |
| Draw.RecordReservedName | chiptech-annual-lottery/App.tsx:70-74 | recording keeps the reserved name tied to the grand prize, and keeps it in the pool exactly while the grand prize is undrawn |
| Draw.DrawPreservesInvariant | chiptech-annual-lottery/App.tsx:63-121 | one draw at a level that is not full keeps the draw invariant, so the forced-branch and "---" outcomes never happen |
| Engine.ClearTimer | chiptech-annual-lottery/App.tsx:57-60 | afterwards the ref is null and the referenced timeout is no longer pending; nothing else changes |
| Engine.Start | chiptech-annual-lottery/App.tsx:51-61 | with an empty pool nothing changes; otherwise rolling starts, the marker is cleared, and the referenced timeout and only it stops being pending; pool, winners and level are untouched |
| Engine.Record | chiptech-annual-lottery/App.tsx:98-117 | the winner is appended; when its level has just reached its quota, one new timeout is scheduled under a fresh handle and kept in the ref; otherwise nothing else changes |
| Engine.Stop | chiptech-annual-lottery/App.tsx:63-121 | rolling stops; the drawn name is recorded with the current level and time, becomes the marker and leaves the pool; the level is unchanged; a timeout is scheduled exactly when the level has become full |
| Engine.Toggle | chiptech-annual-lottery/App.tsx:123-133 | the toggle does nothing when the draw is complete or the level is full and idle; otherwise it stops a roll or starts one |
| Engine.ChangeLevel | chiptech-annual-lottery/App.tsx:135-149 | ignored while rolling; otherwise it cancels the referenced timeout and only it, then selects the level and clears the marker when the level is in the order; pool and winners are untouched |
| Engine.Fire | chiptech-annual-lottery/App.tsx:107-113 | the callback moves exactly one level on and clears the marker; its timeout is no longer pending; nothing else changes |
| Engine.Teardown | chiptech-annual-lottery/App.tsx:44-48 | unmount leaves the referenced timeout no longer pending and changes nothing else |
| Engine.Initial | chiptech-annual-lottery/App.tsx:17-31 | definition of the mount state: every `useState` and `useRef` initial value, no timeout pending (its property is `Engine.InitialInv`) |
| Engine.InitialInv | chiptech-annual-lottery/App.tsx:17-31 | the state at mount keeps the controller invariant |
| Engine.PoolNeverEmpty | chiptech-annual-lottery/App.tsx:52 | in every invariant state the pool holds at least 11 names, so the empty-pool guard of `startRolling` is never taken |
| Engine.StopSchedulesOne | chiptech-annual-lottery/App.tsx:102-114 | stopping with nothing pending leaves at most the referenced timeout pending, only for a full level, and with a handle older than the next one |
| Engine.StopInv | chiptech-annual-lottery/App.tsx:63-121 | stopping a roll keeps the controller invariant |
| Engine.StartInv | chiptech-annual-lottery/App.tsx:51-61 | starting a roll at a level that is neither complete nor full keeps the invariant |
| Engine.ToggleInv | chiptech-annual-lottery/App.tsx:123-133 | `handleToggle` keeps the invariant |
| Engine.ChangeLevelInv | chiptech-annual-lottery/App.tsx:135-149 | a level click keeps the invariant, and when it acts no timeout is pending afterwards, so a cancelled advance never fires |
| Engine.FireInv | chiptech-annual-lottery/App.tsx:107-113 | a timeout fires only while not rolling and only when the current level is full; firing keeps the invariant and leaves nothing pending |
| Engine.TeardownInv | chiptech-annual-lottery/App.tsx:44-48 | unmount keeps the invariant and leaves no timeout pending |
| Engine.StartTwice | chiptech-annual-lottery/App.tsx:51-61 | starting is idempotent |
| Engine.CompleteIsFinal | chiptech-annual-lottery/App.tsx:124 | once every level is complete, the toggle does nothing and nothing is pending or rolling |
| Engine.StepInv | chiptech-annual-lottery/App.tsx:123-149 | every enabled event (a toggle, a level click, a pending timeout firing) keeps the invariant |
| Engine.RunInv | chiptech-annual-lottery/App.tsx:123-149 | every sequence of enabled events keeps the invariant |
| Engine.ReachableSafety | chiptech-annual-lottery/App.tsx:17-149 | after any run from mount: quotas are kept, only the reserved name wins the grand prize, nobody wins twice, no winner stays in the pool, and pool plus winners are exactly the candidates as a multiset, 29 in all |
| App.LotteryApp.constructor | chiptech-annual-lottery/App.tsx:17-31 | the fields start as `Engine.Initial()`, which keeps the invariant |
| App.LotteryApp.SetTimeout | chiptech-annual-lottery/App.tsx:107 | the host returns the next fresh handle and marks it pending |
| App.LotteryApp.ClearTimeout | chiptech-annual-lottery/App.tsx:58 | the handle is no longer pending |
| App.LotteryApp.StartRolling | chiptech-annual-lottery/App.tsx:51-61 | the new state is `Engine.Start` of the old one |
| App.LotteryApp.CancelAdvance | chiptech-annual-lottery/App.tsx:57-60 | the new state is `Engine.ClearTimer` of the old one |
| App.LotteryApp.PickWinner | chiptech-annual-lottery/App.tsx:66-86 | the name chosen is `Draw.DrawName` of the current pool |
| App.LotteryApp.RecordWinner | chiptech-annual-lottery/App.tsx:98-117 | the new state is `Engine.Record` of the old one |
| App.LotteryApp.StopRolling | chiptech-annual-lottery/App.tsx:63-121 | the new state is `Engine.Stop` of the old one |
| App.LotteryApp.HandleToggle | chiptech-annual-lottery/App.tsx:123-133 | the new state is `Engine.Toggle` of the old one, and the invariant is kept |
| App.LotteryApp.HandleManualLevelChange | chiptech-annual-lottery/App.tsx:135-149 | the new state is `Engine.ChangeLevel` of the old one, and the invariant is kept |
| App.LotteryApp.SwitchLevel | chiptech-annual-lottery/App.tsx:136-148 | the field updates of the handler body: the new state is `Engine.ChangeLevel` of the old one |
| App.LotteryApp.FireTimer | chiptech-annual-lottery/App.tsx:107-113 | the new state is `Engine.Fire` of the old one, and the invariant is kept |
| App.LotteryApp.RunTimeout | chiptech-annual-lottery/App.tsx:108-112 | the host drops the timeout and the callback runs: the new state is `Engine.Fire` of the old one |
| App.LotteryApp.Unmount | chiptech-annual-lottery/App.tsx:44-48 | the new state is `Engine.Teardown` of the old one, and the invariant is kept |

The constants and records are definitions rather than functions, so they have no row above. `Constants.CANDIDATES_LIST` is the split and filter of constants.ts:5, and `CandidateNames.RAW_NAMES` is the string of constants.ts:3. `Constants.PRIZE_CONFIGS` is the map of constants.ts:7-36, and `Constants.DRAW_ORDER` is the list of constants.ts:39-44. `Types.PrizeLevel`, `Types.PrizeConfig` and `Types.Winner` are the enum and the two interfaces of types.ts:1-20. `Engine.DrawState` gathers the state and refs of App.tsx:17-31.

## Left out

- Rendering (the JSX tree, `Stage`, `PrizeList`, `ChipBackground`) and the keyboard listener (App.tsx:151-161): they only call `handleToggle` or display state. The listener's key press is modelled as the toggle event.
- The 4000 ms delay: the model has no clock for timeouts. A pending timeout may fire at any later step, and `Engine.Run` lets every order of events happen.
- React's machinery: batching of state updates, stale closures over `remainingCandidates` and `currentLevel`, and strict-mode double invocation of updaters. Each handler is modelled as acting atomically on the current state, in source order.
- `LotteryState` in types.ts is declared but never used.
- `PrizeConfig.label` is named `displayLabel`, because `label` is a reserved word in Dafny.
- `RAW_NAMES` is written as a concatenation of its 29 fields with `;`. It is the same string value as the shipped literal.
- Constants.Quota: gives each level's quota by cases rather than by looking it up in `PRIZE_CONFIGS`. `Constants.PrizeConfigIds` proves the two agree.
- Draw.RandomIndex: `Math.random()` is an exact real in [0, 1), not an IEEE double, so floating-point rounding of `rand * n` is not modelled.
- Timeout handles are positive integers issued in increasing order, one at a time. The browser's actual handle allocation is not modelled.
- `Date.now()` is an integer parameter. Its relation to real time is not modelled.
